/** Sensitivity of a U-g flutter root. Its eigenvalue is lambda = (1 + i g) / V^2, so that g = Im / Re and
    V = Re^(-1/2); the flutter condition is g = 0 as the reduced frequency varies. */
module UGSensitivity {
  import opened Scalars
  import opened ComplexAlgebra
  import opened FirstOrderPencil
  import opened UGPencil

  /** Derivative of Im / Re along a change of the eigenvalue, as the solver evaluates it. */
  function DampingDerivative(eig: Complex, deig: Complex): real
    requires eig.re != 0.0
  {
    deig.im / eig.re - eig.im / Sq(eig.re) * deig.re
  }

  /** To first order the damping g = Im / Re does not change along deig. */
  predicate KeepsDamping(eig: Complex, deig: Complex) {
    deig.im * eig.re == eig.im * deig.re
  }

  /** To first order V^2 Re = 1 stays true when V changes by dV and the eigenvalue by deig. */
  predicate KeepsVelocityRelation(V: real, dV: real, eig: Complex, deig: Complex) {
    2.0 * V * dV * eig.re + V * V * deig.re == 0.0
  }

  /** The derivative vanishes exactly when the quotient Im / Re is stationary. */
  lemma DampingDerivativeMeaning(eig: Complex, deig: Complex)
    requires eig.re != 0.0
    ensures DampingDerivative(eig, deig) * Sq(eig.re) == deig.im * eig.re - eig.im * deig.re
    ensures DampingDerivative(eig, deig) == 0.0 <==> KeepsDamping(eig, deig)
  {
    var a, b, r := deig.im / eig.re, eig.im / Sq(eig.re), eig.re;
    assert a * r == deig.im && b * Sq(r) == eig.im;
    QuotientRule(a, b, r, deig.re);
    assert DampingDerivative(eig, deig) == a - b * deig.re;
    NonZeroProduct(DampingDerivative(eig, deig), Sq(r));
  }

  lemma QuotientRule(a: real, b: real, r: real, d: real)
    ensures (a - b * d) * (r * r) == (a * r) * r - (b * (r * r)) * d
  {
  }

  /** The derivative is linear in the change of the eigenvalue. */
  lemma DampingDerivativeLinear(eig: Complex, p: Complex, k: Complex, s: real)
    requires eig.re != 0.0
    ensures DampingDerivative(eig, p.Plus(k.Scaled(s))) == DampingDerivative(eig, p) + s * DampingDerivative(eig, k)
  {
    var r, b := 1.0 / eig.re, eig.im / Sq(eig.re);
    Reciprocal(p.im, eig.re);
    Reciprocal(k.im, eig.re);
    Reciprocal(p.im + s * k.im, eig.re);
    LinearParts(p.im, k.im, p.re, k.re, s, r, b);
  }

  lemma LinearParts(x: real, y: real, u: real, v: real, s: real, r: real, b: real)
    ensures (x + s * y) * r - b * (u + s * v) == (x * r - b * u) + s * (y * r - b * v)
  {
  }

  /** The velocity sensitivity -1/2 Re' / Re^(3/2), with Re^(3/2) = Re sqrt(Re), is the exact derivative of
      V = Re^(-1/2): the only value that keeps V^2 Re = 1 to first order. */
  lemma VelocityDerivativeIsExact(eig: Complex, root: real, V: real, deig: Complex, dV: real, w: real)
    requires eig.re > 0.0 && root > 0.0 && root * root == eig.re
    requires V > 0.0 && V * V == 1.0 / eig.re
    requires eig.re * root != 0.0 && dV == -0.5 * deig.re / (eig.re * root)
    ensures KeepsVelocityRelation(V, w, eig, deig) <==> w == dV
  {
    var re, d := eig.re, eig.re * root;
    InverseRoots(re, root, V);
    assert dV * d == -0.5 * deig.re;
    FirstOrder(re, root, V, deig.re, w);
    NonZeroProduct(w - dV, d);
  }

  lemma ProductPositive(x: real, y: real)
    requires x > 0.0 && y > 0.0
    ensures x * y != 0.0
  {
  }

  lemma InverseRoots(re: real, root: real, V: real)
    requires re > 0.0 && root > 0.0 && root * root == re && V > 0.0 && V * V == 1.0 / re
    ensures root * V == 1.0
  {
    var p := root * V;
    assert p * p == re * (V * V) == 1.0 by {
      assert p * p == (root * root) * (V * V);
    }
    assert Mul(root, V) > 0.0;
    assert (p - 1.0) * (p + 1.0) == 0.0;
    NonZeroProduct(p - 1.0, p + 1.0);
  }

  lemma FirstOrder(re: real, root: real, V: real, dre: real, dV: real)
    requires root * V == 1.0 && root * root == re && V > 0.0
    ensures 2.0 * V * dV * re + V * V * dre == 0.0 <==> dV * (re * root) == -0.5 * dre
  {
    var e := 2.0 * (dV * (re * root)) + dre;
    assert V * V * e == 2.0 * V * dV * re + V * V * dre by {
      assert V * V * (2.0 * (dV * (re * root))) == 2.0 * V * dV * re * (V * root);
    }
    NonZeroProduct(e, V * V);
  }

  /** For any matrices the quotient the solver evaluates is the derivative forced by the perturbed eigenproblem. */
  lemma DerivativeIsForced(size: nat, a: CMatrix, b: CMatrix, da: CMatrix, db: CMatrix, eig: Complex, deig: Complex,
                           left: CVector, x: CVector, dx: CVector)
    requires IsLeftEigenvector(size, a, b, eig, left)
    requires IsPerturbed(size, a, b, da, db, eig, deig, x, dx)
    requires Inner(size, left, CApply(size, b, x)) != Zero
    ensures EigenvalueDerivative(size, left, b, da, eig, db, x) == deig
  {
    NumeratorForced(size, a, b, da, db, eig, deig, left, x, dx);
    OverUnique(Numerator(size, left, da, eig, db, x), Inner(size, left, CApply(size, b, x)), deig);
  }

  // ---------------------------------------------------------------------------------------------
  // The derivatives that the solver evaluates
  // ---------------------------------------------------------------------------------------------

  /** u^H A' x for a change of A alone. */
  lemma NumeratorOfA(size: nat, u: CVector, e: CMatrix, lambda: Complex, x: CVector)
    ensures Numerator(size, u, e, lambda, NullMatrix(), x) == Inner(size, u, CApply(size, e, x))
  {
    var m := Shifted(e, lambda, NullMatrix());
    forall i | 0 <= i < size
      ensures CApply(size, m, x)(i) == CApply(size, e, x)(i)
    {
      TimesOne(lambda);
      assert forall j :: CRow(m, i)(j) == CRow(e, i)(j).Minus(lambda.Times(Zero));
      CDotCongruent(size, CRow(m, i), x, CRow(e, i), x);
    }
    CDotCongruent(size, Conjugated(u), CApply(size, m, x), Conjugated(u), CApply(size, e, x));
  }

  /** What the missing force contributes to u^H A' x. */
  function MissingForce(size: nat, rho: real, left: CVector, da: CMatrix, x: CVector): Complex {
    Complex(rho / 2.0, 0.0).Times(Inner(size, left, CApply(size, da, x)))
  }

  /** The eigenvalue derivative for the parameter that the solver evaluates. */
  function ParameterDerivative(size: nat, kr: real, bRef: real, rho: real, q: UGReduced, dq: UGReduced, eig: Complex,
                               left: CVector, x: CVector): Complex
    requires bRef != 0.0 && Inner(size, left, CApply(size, q.k, x)) != Zero
  {
    EigenvalueDerivative(size, left, q.k, ParameterA(kr, bRef, rho, dq), eig, dq.k, x)
  }

  /** The eigenvalue derivative for the reduced frequency; the stiffness does not change. */
  function FrequencyDerivative(size: nat, kr: real, bRef: real, rho: real, q: UGReduced, daDkr: CMatrix, eig: Complex,
                               left: CVector, x: CVector): Complex
    requires bRef != 0.0 && Inner(size, left, CApply(size, q.k, x)) != Zero
  {
    EigenvalueDerivative(size, left, q.k, FrequencyA(kr, bRef, rho, q.m, daDkr), eig, NullMatrix(), x)
  }

  /** eig with its eigenvectors belongs to the matrices of q, and changes by deig when the parameter moves by one, with
      all derivatives dq, and the reduced frequency by s. */
  ghost predicate MovesBy(size: nat, kr: real, bRef: real, rho: real, q: UGReduced, dq: UGReduced, s: real,
                          daDkr: CMatrix, eig: Complex, deig: Complex, left: CVector, x: CVector, dx: CVector)
    requires bRef != 0.0
  {
    && IsLeftEigenvector(size, MatrixA(kr, bRef, rho, q), q.k, eig, left)
    && IsPerturbed(size, MatrixA(kr, bRef, rho, q), q.k,
                   PencilChange(kr, bRef, rho, q, dq, s, daDkr), dq.k, eig, deig, x, dx)
  }

  lemma NoStep(m: CMatrix, c: Complex, i: int, j: int)
    ensures StepMatrix(m, c, NullMatrix())(i, j) == m(i, j)
  {
    hide Complex.Times;
    TimesOne(c);
  }

  lemma WithForceEntry(p: Complex, s: Complex, a: Complex)
    ensures p.Plus(s.Times(a)) == p.Plus(s.Times(Zero)).Plus(s.Times(a))
    ensures p == p.Plus(s.Times(Zero))
  {
    TimesOne(s);
    hide Complex.Times;
  }

  lemma WithForce(size: nat, c: real, rho: real, dq: UGReduced, eig: Complex, left: CVector, x: CVector)
    ensures Numerator(size, left, Weighted(c, rho, dq.m, dq.a), eig, dq.k, x)
         == Numerator(size, left, Weighted(c, rho, dq.m, NullMatrix()), eig, dq.k, x)
            .Minus(MissingForce(size, rho, left, dq.a, x))
  {
    hide Complex.Times, Complex.Plus, Numerator, Inner, CApply;
    var s, none := Complex(-rho / 2.0, 0.0), NullMatrix();
    var a := Weighted(c, rho, dq.m, none);
    forall i, j
      ensures Weighted(c, rho, dq.m, dq.a)(i, j) == StepMatrix(a, s, dq.a)(i, j)
      ensures dq.k(i, j) == StepMatrix(dq.k, s, none)(i, j)
    {
      WithForceEntry(dq.m(i, j).Scaled(c), s, dq.a(i, j));
      WithForceEntry(dq.k(i, j), s, Zero);
    }
    NumeratorCongruent(size, left, Weighted(c, rho, dq.m, dq.a), dq.k, StepMatrix(a, s, dq.a),
                       StepMatrix(dq.k, s, none), eig, x);
    NumeratorAlong(size, left, a, dq.k, s, dq.a, none, eig, x);
    NumeratorOfA(size, left, dq.a, eig, x);
    MinusHalf(Numerator(size, left, a, eig, dq.k, x), rho, Inner(size, left, CApply(size, dq.a, x)));
  }

  lemma MinusHalf(p: Complex, rho: real, q: Complex)
    ensures p.Plus(Complex(-rho / 2.0, 0.0).Times(q)) == p.Minus(Complex(rho / 2.0, 0.0).Times(q))
  {
  }

  /** The total derivative is the forced one if and only if the missing force term vanishes. */
  lemma TotalIsForcedExactlyWithoutForce(size: nat, kr: real, bRef: real, rho: real, q: UGReduced, dq: UGReduced,
                                         s: real, daDkr: CMatrix, eig: Complex, deig: Complex, left: CVector,
                                         x: CVector, dx: CVector)
    requires bRef != 0.0 && Inner(size, left, CApply(size, q.k, x)) != Zero
    requires MovesBy(size, kr, bRef, rho, q, dq, s, daDkr, eig, deig, left, x, dx)
    ensures ParameterDerivative(size, kr, bRef, rho, q, dq, eig, left, x)
            .Plus(FrequencyDerivative(size, kr, bRef, rho, q, daDkr, eig, left, x).Scaled(s)) == deig
       <==> MissingForce(size, rho, left, dq.a, x) == Zero
  {
    hide CApply, Numerator, Complex.Over, Complex.Times, Inner, IsPerturbed, IsLeftEigenvector, Weighted,
         MassFactor, FrequencyA, StepMatrix, MissingForce, PencilChange;
    var c, b := Complex(s, 0.0), q.k;
    var fa, change := FrequencyA(kr, bRef, rho, q.m, daDkr), PencilChange(kr, bRef, rho, q, dq, s, daDkr);
    var den := Inner(size, left, CApply(size, b, x));
    DerivativeIsForced(size, MatrixA(kr, bRef, rho, q), b, change, dq.k, eig, deig, left, x, dx);
    forall i, j
      ensures change(i, j) == StepMatrix(MatrixA(kr, bRef, rho, dq), c, fa)(i, j)
      ensures dq.k(i, j) == StepMatrix(dq.k, c, NullMatrix())(i, j)
    {
      ChangeFromDerivatives(kr, bRef, rho, q, dq, s, daDkr, i, j);
      NoStep(dq.k, c, i, j);
    }
    NumeratorCongruent(size, left, change, dq.k, StepMatrix(MatrixA(kr, bRef, rho, dq), c, fa),
                       StepMatrix(dq.k, c, NullMatrix()), eig, x);
    DerivativeAlong(size, left, b, MatrixA(kr, bRef, rho, dq), dq.k, c, fa, NullMatrix(), eig, x);
    WithForce(size, MassFactor(kr, bRef), rho, dq, eig, left, x);
    var f := FrequencyDerivative(size, kr, bRef, rho, q, daDkr, eig, left, x);
    TimesReal(f, s);
    TimesCommutes(c, f);
    OverDiffers(Numerator(size, left, ParameterA(kr, bRef, rho, dq), eig, dq.k, x),
                MissingForce(size, rho, left, dq.a, x), den);
    hide *;
  }

  function OneByOne(x: real): CMatrix {
    (i, j) => Complex(x, 0.0)
  }

  /** One dof with mass 2, stiffness 1 and force 1 at kr = b = 1 and rho = 2, so that A = 2 - 1 and the eigenvalue is 1.
      The parameter changes the force at rate 1 and nothing else. */
  function ForceOnly(): UGReduced {
    UGReduced(OneByOne(0.0), OneByOne(0.0), OneByOne(1.0))
  }

  function OneDof(): UGReduced {
    UGReduced(OneByOne(2.0), OneByOne(1.0), OneByOne(1.0))
  }

  lemma UnitFactor()
    ensures MassFactor(1.0, 1.0) == 1.0
  {
  }

  lemma WeightedEntry(m: CMatrix, a: CMatrix, x: real, y: real)
    requires m(0, 0) == Complex(x, 0.0) && a(0, 0) == Complex(y, 0.0)
    ensures Weighted(1.0, 2.0, m, a)(0, 0) == Complex(x - y, 0.0)
  {
  }

  lemma ForceOnlyChange()
    ensures PencilChange(1.0, 1.0, 2.0, OneDof(), ForceOnly(), 0.0, OneByOne(0.0))(0, 0) == Complex(-1.0, 0.0)
  {
    ChangeFromDerivatives(1.0, 1.0, 2.0, OneDof(), ForceOnly(), 0.0, OneByOne(0.0), 0, 0);
    hide PencilChange, FrequencyA, MatrixA;
    var da, fa := MatrixA(1.0, 1.0, 2.0, ForceOnly()), FrequencyA(1.0, 1.0, 2.0, OneDof().m, OneByOne(0.0));
    MatrixAEntry(1.0, 1.0, 2.0, ForceOnly(), 0, 0);
    UnitFactor();
    TimesOne(fa(0, 0));
    hide MassFactor, Complex.Times;
  }

  lemma OneDofEntries()
    ensures MatrixA(1.0, 1.0, 2.0, OneDof())(0, 0) == One
    ensures ParameterA(1.0, 1.0, 2.0, ForceOnly())(0, 0) == Zero
  {
    hide MassFactor, Weighted, Complex.Times, Complex.Plus;
    UnitFactor();
    WeightedEntry(OneDof().m, OneDof().a, 2.0, 1.0);
    WeightedEntry(ForceOnly().m, NullMatrix(), 0.0, 0.0);
  }

  lemma OneDofRow(n: nat, a: CMatrix, b: CMatrix, da: CMatrix, db: CMatrix, x: CVector, dx: CVector)
    requires n == 1 && x(0) == One && dx(0) == Zero
    requires da(0, 0) == Complex(-1.0, 0.0) && db(0, 0) == Zero && b(0, 0) == One
    ensures PerturbedRow(n, a, b, da, db, One, Complex(-1.0, 0.0), x, dx, 0)
  {
    hide CApply, Complex.Times;
    TimesOne(One);
    TimesOne(Zero);
    TimesOne(Complex(-1.0, 0.0));
    TimesOne(a(0, 0));
    SingleEntry(n, da, x);
    SingleEntry(n, b, x);
    SingleEntry(n, db, x);
    SingleEntry(n, a, dx);
    SingleEntry(n, b, dx);
  }

  lemma OneDofLeft(n: nat, a: CMatrix, b: CMatrix, left: CVector)
    requires n == 1 && a(0, 0) == One && b(0, 0) == One
    ensures IsLeftEigenvector(n, a, b, One, left)
  {
    SingleLeft(n, a, left);
    SingleLeft(n, b, left);
    hide CApplyTransposed;
  }

  /** The parameter changes the eigenvalue by -1. */
  lemma ForceMovesEigenvalue(n: nat, left: CVector, x: CVector, dx: CVector)
    requires n == 1 && x(0) == One && dx(0) == Zero
    ensures MovesBy(n, 1.0, 1.0, 2.0, OneDof(), ForceOnly(), 0.0, OneByOne(0.0), One, Complex(-1.0, 0.0), left, x, dx)
  {
    hide MassFactor, Weighted, MatrixA, PerturbedRow, IsLeftEigenvector, PencilChange;
    var a, k := MatrixA(1.0, 1.0, 2.0, OneDof()), OneDof().k;
    OneDofEntries();
    ForceOnlyChange();
    OneDofRow(n, a, k, PencilChange(1.0, 1.0, 2.0, OneDof(), ForceOnly(), 0.0, OneByOne(0.0)), ForceOnly().k, x, dx);
    OneDofLeft(n, a, k, left);
  }

  /** So the numerator of the solver's derivative for the parameter is 0, over the denominator 1, because the force it
      leaves out is all that changes. */
  lemma MissingForceIsMissed(n: nat, left: CVector, x: CVector)
    requires n == 1 && left(0) == One && x(0) == One
    ensures Inner(n, left, CApply(n, OneDof().k, x)) == One
    ensures MissingForce(n, 2.0, left, ForceOnly().a, x) == One
    ensures Numerator(n, left, ParameterA(1.0, 1.0, 2.0, ForceOnly()), One, ForceOnly().k, x) == Zero
  {
    hide MassFactor, Weighted, ParameterA;
    OneDofEntries();
    var k, da := OneDof().k, ForceOnly().a;
    var shifted := Shifted(ParameterA(1.0, 1.0, 2.0, ForceOnly()), One, ForceOnly().k);
    assert shifted(0, 0) == Zero;
    hide StepMatrix;
    SingleEntry(n, k, x);
    SingleEntry(n, da, x);
    SingleEntry(n, shifted, x);
    SingleInner(n, left, CApply(n, k, x));
    SingleInner(n, left, CApply(n, da, x));
    SingleInner(n, left, CApply(n, shifted, x));
    hide CApply, Inner;
  }

  lemma SingleEntry(n: nat, m: CMatrix, x: CVector)
    requires n == 1
    ensures CApply(n, m, x)(0) == m(0, 0).Times(x(0))
  {
    assert CDot(0, CRow(m, 0), x) == Zero;
  }

  lemma SingleLeft(n: nat, m: CMatrix, u: CVector)
    requires n == 1
    ensures CApplyTransposed(n, m, Conjugated(u))(0) == m(0, 0).Times(u(0).Conjugate())
  {
    assert CDot(0, CColumn(m, 0), Conjugated(u)) == Zero;
  }

  lemma SingleInner(n: nat, u: CVector, v: CVector)
    requires n == 1
    ensures Inner(n, u, v) == u(0).Conjugate().Times(v(0))
  {
    assert CDot(0, Conjugated(u), v) == Zero;
  }

  lemma OverDiffers(p: Complex, e: Complex, d: Complex)
    requires d != Zero
    ensures p.Minus(e).Over(d) == p.Over(d) <==> e == Zero
  {
    OverUnique(p, d, p.Over(d));
    OverUnique(p.Minus(e), d, p.Over(d));
    hide Complex.Over, Complex.Times;
  }

  class UGRootSensitivity {
    var krSens: real
    var rootSens: Complex
    var vSens: real
    var hasSensitivityData: bool

    constructor ()
      ensures !hasSensitivityData
    {
      krSens, rootSens, vSens, hasSensitivityData := 0.0, Zero, 0.0, false;
    }

    /** From the reduced matrices, their derivatives with respect to the parameter and the derivative of the force with
        respect to the reduced frequency. `sqrt` is exact. */
    method CalculateSensitivity(size: nat, kr: real, bRef: real, rho: real, q: UGReduced, dq: UGReduced, daDkr: CMatrix,
                                eig: Complex, left: CVector, right: CVector, V: real, sqrt: real -> real)
      requires bRef != 0.0 && Inner(size, left, CApply(size, q.k, right)) != Zero
      requires eig.re > 0.0 && V > 0.0 && V * V == 1.0 / eig.re && ExactSqrt(sqrt)
      requires DampingDerivative(eig, FrequencyDerivative(size, kr, bRef, rho, q, daDkr, eig, left, right)) != 0.0
      modifies this
      ensures hasSensitivityData && KeepsDamping(eig, rootSens)
      ensures var dp := ParameterDerivative(size, kr, bRef, rho, q, dq, eig, left, right);
              var dk := FrequencyDerivative(size, kr, bRef, rho, q, daDkr, eig, left, right);
              && rootSens == dp.Plus(dk.Scaled(krSens))
              && forall s: real :: KeepsDamping(eig, dp.Plus(dk.Scaled(s))) <==> s == krSens
      ensures forall w: real :: KeepsVelocityRelation(V, w, eig, rootSens) <==> w == vSens
      ensures forall deig, dx | MovesBy(size, kr, bRef, rho, q, dq, krSens, daDkr, eig, deig, left, right, dx) ::
                rootSens == deig <==> MissingForce(size, rho, left, dq.a, right) == Zero
    {
      hide DampingDerivative, KeepsDamping, KeepsVelocityRelation, ParameterDerivative, FrequencyDerivative, Inner,
           CApply, MovesBy, MissingForce;
      var degDp := ParameterDerivative(size, kr, bRef, rho, q, dq, eig, left, right);
      var degDkr := FrequencyDerivative(size, kr, bRef, rho, q, daDkr, eig, left, right);
      var slope := -DampingDerivative(eig, degDp) / DampingDerivative(eig, degDkr);
      var total := degDp.Plus(degDkr.Scaled(slope));
      var dV := VelocityChange(eig, V, total, sqrt);
      krSens, rootSens, vSens := slope, total, dV;
      hasSensitivityData := true;
      forall s: real
        ensures KeepsDamping(eig, degDp.Plus(degDkr.Scaled(s))) <==> s == slope
      {
        StationaryOnce(eig, degDp, degDkr, slope, s);
      }
      forall deig, dx | MovesBy(size, kr, bRef, rho, q, dq, slope, daDkr, eig, deig, left, right, dx)
        ensures total == deig <==> MissingForce(size, rho, left, dq.a, right) == Zero
      {
        TotalIsForcedExactlyWithoutForce(size, kr, bRef, rho, q, dq, slope, daDkr, eig, deig, left, right, dx);
      }
    }
  }

  /** -1/2 Re' / Re^(3/2). */
  method VelocityChange(eig: Complex, V: real, total: Complex, sqrt: real -> real) returns (dV: real)
    requires eig.re > 0.0 && V > 0.0 && V * V == 1.0 / eig.re && ExactSqrt(sqrt)
    ensures forall w: real :: KeepsVelocityRelation(V, w, eig, total) <==> w == dV
  {
    hide KeepsVelocityRelation;
    var root := sqrt(eig.re);
    assert root * root == eig.re && root > 0.0;
    ProductPositive(eig.re, root);
    dV := -0.5 * total.re / (eig.re * root);
    ghost var d := dV;
    forall w: real
      ensures KeepsVelocityRelation(V, w, eig, total) <==> w == d
    {
      VelocityDerivativeIsExact(eig, root, V, total, d, w);
    }
  }

  lemma StationaryOnce(eig: Complex, p: Complex, k: Complex, slope: real, s: real)
    requires eig.re != 0.0 && DampingDerivative(eig, k) != 0.0
    requires slope == -DampingDerivative(eig, p) / DampingDerivative(eig, k)
    ensures KeepsDamping(eig, p.Plus(k.Scaled(s))) <==> s == slope
  {
    hide DampingDerivative, KeepsDamping;
    DampingDerivativeMeaning(eig, p.Plus(k.Scaled(s)));
    DampingDerivativeLinear(eig, p, k, s);
    LinearRoot(DampingDerivative(eig, p), DampingDerivative(eig, k), slope, s);
  }
}
