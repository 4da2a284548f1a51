/** The eigenproblem A x = lambda B x that the U-g solver builds from the reduced mass and stiffness and the aerodynamic
    force at a reduced frequency, what it means, and how it changes. */
module UGPencil {
  import opened Scalars
  import opened ComplexAlgebra
  import opened FirstOrderPencil

  lemma NonZeroProduct(x: real, y: real)
    requires y != 0.0
    ensures x * y == 0.0 <==> x == 0.0
  {
  }

  lemma Reciprocal(x: real, y: real)
    requires y != 0.0
    ensures x / y == x * (1.0 / y)
  {
  }

  /** The reduced mass and stiffness and the generalised aerodynamic force at one reduced frequency, or their
      derivatives. The force is on the left-hand side, so the solver turns its sign. */
  datatype UGReduced = UGReduced(m: CMatrix, k: CMatrix, a: CMatrix)

  /** c M - (rho / 2) A. */
  function Weighted(c: real, rho: real, m: CMatrix, a: CMatrix): CMatrix {
    StepMatrix((i, j) => m(i, j).Scaled(c), Complex(-rho / 2.0, 0.0), a)
  }

  /** The factor of the mass, (kr / b)^2, and its derivative with respect to kr. */
  function MassFactor(kr: real, bRef: real): real
    requires bRef != 0.0
  {
    Sq(kr / bRef)
  }

  function MassFactorSlope(kr: real, bRef: real): real
    requires bRef != 0.0
  {
    2.0 * kr * (1.0 / Sq(bRef))
  }

  lemma MassFactorChange(kr: real, bRef: real, h: real)
    requires bRef != 0.0
    ensures MassFactor(kr + h, bRef)
         == MassFactor(kr, bRef) + h * MassFactorSlope(kr, bRef) + h * h * (1.0 / Sq(bRef))
  {
    var r := 1.0 / bRef;
    assert r * bRef == 1.0;
    assert (r * r) * Sq(bRef) == (r * bRef) * (r * bRef);
    assert 1.0 / Sq(bRef) == r * r by {
      assert (1.0 / Sq(bRef)) * Sq(bRef) == 1.0;
      assert (1.0 / Sq(bRef) - r * r) * Sq(bRef) == 0.0;
      NonZeroProduct(1.0 / Sq(bRef) - r * r, Sq(bRef));
    }
    Reciprocal(kr, bRef);
    Reciprocal(kr + h, bRef);
    assert ((kr + h) * r) * ((kr + h) * r) == (kr * r) * (kr * r) + h * (2.0 * kr * (r * r)) + h * h * (r * r);
  }

  function MatrixA(kr: real, bRef: real, rho: real, q: UGReduced): CMatrix
    requires bRef != 0.0
  {
    Weighted(MassFactor(kr, bRef), rho, q.m, q.a)
  }

  /** The derivative of A with respect to the parameter as the solver assembles it: without the force. */
  function ParameterA(kr: real, bRef: real, rho: real, dq: UGReduced): CMatrix
    requires bRef != 0.0
  {
    Weighted(MassFactor(kr, bRef), rho, dq.m, NullMatrix())
  }

  /** The derivative of A with respect to the reduced frequency. */
  function FrequencyA(kr: real, bRef: real, rho: real, m: CMatrix, daDkr: CMatrix): CMatrix
    requires bRef != 0.0
  {
    Weighted(MassFactorSlope(kr, bRef), rho, m, daDkr)
  }

  // ---------------------------------------------------------------------------------------------
  // What the pencil means
  // ---------------------------------------------------------------------------------------------

  /** Row i of (-omega^2 M + (1 + i g) K + (rho V^2 / 2) A) x, the flutter equations with structural damping g. */
  function FlutterResidual(size: nat, omega: real, V: real, g: real, rho: real, q: UGReduced, x: CVector,
                           i: int): Complex {
    CApply(size, q.m, x)(i).Scaled(-(omega * omega))
    .Plus(Complex(1.0, g).Times(CApply(size, q.k, x)(i)))
    .Plus(CApply(size, q.a, x)(i).Scaled(rho / 2.0 * (V * V)))
  }

  /** With V^2 lambda = 1 + i g and omega b = kr V, the pencil has the eigenvalue lambda exactly where the flutter
      equations hold. */
  lemma PencilIsFlutterEquations(size: nat, kr: real, b: real, rho: real, q: UGReduced, eig: Complex, x: CVector,
                                 V: real, g: real, omega: real)
    requires b != 0.0 && V != 0.0 && eig.Scaled(V * V) == Complex(1.0, g) && omega * b == kr * V
    ensures IsEigenpair(size, MatrixA(kr, b, rho, q), q.k, eig, x)
       <==> forall i | 0 <= i < size :: FlutterResidual(size, omega, V, g, rho, q, x, i) == Zero
  {
    hide CApply, MatrixA, FlutterResidual, Complex.Times;
    forall i | 0 <= i < size
      ensures RowHolds(size, MatrixA(kr, b, rho, q), q.k, eig, x, i)
         <==> FlutterResidual(size, omega, V, g, rho, q, x, i) == Zero
    {
      RowIsFlutterEquation(size, kr, b, rho, q, eig, x, V, g, omega, i);
    }
  }

  lemma RowIsFlutterEquation(size: nat, kr: real, b: real, rho: real, q: UGReduced, eig: Complex, x: CVector,
                             V: real, g: real, omega: real, i: int)
    requires b != 0.0 && V != 0.0 && eig.Scaled(V * V) == Complex(1.0, g) && omega * b == kr * V
    ensures CApply(size, MatrixA(kr, b, rho, q), x)(i) == eig.Times(CApply(size, q.k, x)(i))
       <==> FlutterResidual(size, omega, V, g, rho, q, x, i) == Zero
  {
    hide CApply, Complex.Times, Complex.Scaled, Complex.Plus, Complex.Minus;
    var m, k, a := CApply(size, q.m, x)(i), CApply(size, q.k, x)(i), CApply(size, q.a, x)(i);
    var p := CApply(size, MatrixA(kr, b, rho, q), x)(i);
    MatrixAApplies(size, kr, b, rho, q, x, i);
    FrequencyOfFactor(kr, b, V, omega);
    ScaledTimes(eig, k, V * V);
    hide MatrixA, MassFactor;
    TimesVelocity(m, a, eig.Times(k), MassFactor(kr, b), rho, V, omega, p);
  }

  /** omega^2 = V^2 (kr / b)^2. */
  lemma FrequencyOfFactor(kr: real, b: real, V: real, omega: real)
    requires b != 0.0 && omega * b == kr * V
    ensures omega * omega == MassFactor(kr, b) * (V * V)
  {
    var r := kr / b;
    assert r * b == kr;
    assert (omega - r * V) * b == 0.0;
    NonZeroProduct(omega - r * V, b);
    assert omega == r * V;
  }

  lemma MatrixAApplies(size: nat, kr: real, b: real, rho: real, q: UGReduced, x: CVector, i: int)
    requires b != 0.0
    ensures CApply(size, MatrixA(kr, b, rho, q), x)(i)
         == CApply(size, q.m, x)(i).Scaled(MassFactor(kr, b)).Minus(CApply(size, q.a, x)(i).Scaled(rho / 2.0))
  {
    hide MassFactor;
    var c, h := MassFactor(kr, b), Complex(-rho / 2.0, 0.0);
    var scaled: CMatrix := (i, j) => q.m(i, j).Scaled(c);
    StepRow(size, scaled, h, q.a, x, i);
    forall j
      ensures scaled(i, j) == StepMatrix(NullMatrix(), Complex(c, 0.0), q.m)(i, j)
    {
      ScaledStep(q.m(i, j), c);
    }
    CDotCongruent(size, CRow(scaled, i), x, CRow(StepMatrix(NullMatrix(), Complex(c, 0.0), q.m), i), x);
    StepRow(size, NullMatrix(), Complex(c, 0.0), q.m, x, i);
    NullRow(size, x, i);
    hide CApply, Complex.Times, StepMatrix;
    var m, a := CApply(size, q.m, x)(i), CApply(size, q.a, x)(i);
    ScaledStep(m, c);
    HalfStep(m.Scaled(c), rho, a);
  }

  lemma NullRow(size: nat, x: CVector, i: int)
    ensures CApply(size, NullMatrix(), x)(i) == Zero
  {
    forall j | 0 <= j < size
      ensures CRow(NullMatrix(), i)(j).Times(x(j)) == Zero
    {
      TimesOne(x(j));
    }
    CDotZero(size, CRow(NullMatrix(), i), x);
  }

  lemma ScaledStep(z: Complex, c: real)
    ensures Zero.Plus(Complex(c, 0.0).Times(z)) == z.Scaled(c)
  {
    TimesReal(z, c);
    TimesCommutes(z, Complex(c, 0.0));
    hide Complex.Times;
  }

  lemma HalfStep(p: Complex, rho: real, a: Complex)
    ensures p.Plus(Complex(-rho / 2.0, 0.0).Times(a)) == p.Minus(a.Scaled(rho / 2.0))
  {
    TimesReal(a, -rho / 2.0);
    TimesCommutes(a, Complex(-rho / 2.0, 0.0));
    hide Complex.Times;
  }

  /** Multiplying one row of the pencil by V^2 > 0. */
  lemma TimesVelocity(m: Complex, a: Complex, k: Complex, c: real, rho: real, V: real, omega: real, p: Complex)
    requires V != 0.0 && omega * omega == c * (V * V) && p == m.Scaled(c).Minus(a.Scaled(rho / 2.0))
    ensures p == k
       <==> m.Scaled(-(omega * omega)).Plus(k.Scaled(V * V)).Plus(a.Scaled(rho / 2.0 * (V * V))) == Zero
  {
    TimesVelocityPart(m.re, a.re, k.re, c, rho, V, omega);
    TimesVelocityPart(m.im, a.im, k.im, c, rho, V, omega);
  }

  lemma TimesVelocityPart(m: real, a: real, k: real, c: real, rho: real, V: real, omega: real)
    requires V != 0.0 && omega * omega == c * (V * V)
    ensures c * m - rho / 2.0 * a == k
       <==> -(omega * omega) * m + V * V * k + rho / 2.0 * (V * V) * a == 0.0
  {
    var h := rho / 2.0;
    assert Sq(V) == V * V && V * V != 0.0;
    assert -(omega * omega) * m + V * V * k + h * (V * V) * a == (k - (c * m - h * a)) * (V * V);
    NonZeroProduct(k - (c * m - h * a), V * V);
  }

  // ---------------------------------------------------------------------------------------------
  // How it changes
  // ---------------------------------------------------------------------------------------------

  /** The change of A per unit of the parameter when the reduced frequency moves by s with it, from the matrices and
      their derivatives: (kr / b)^2 M' + 2 s kr / b^2 M - (rho / 2) (A' + s dA/dkr). */
  function PencilChange(kr: real, b: real, rho: real, q: UGReduced, dq: UGReduced, s: real, daDkr: CMatrix): CMatrix
    requires b != 0.0
  {
    NonZeroSquare(b);
    (i, j) => dq.m(i, j).Scaled(kr * kr / (b * b)).Plus(q.m(i, j).Scaled(2.0 * s * kr / (b * b)))
              .Minus(dq.a(i, j).Plus(daDkr(i, j).Scaled(s)).Scaled(rho / 2.0))
  }

  lemma NonZeroSquare(b: real)
    requires b != 0.0
    ensures b * b != 0.0
  {
    assert Sq(b) == b * b;
  }

  /** When the reduced frequency moves by h and the force with it, FrequencyA is the linear term of the change of A, and
      the rest is h^2 M / b^2. */
  lemma FrequencyAIsLinearTerm(kr: real, b: real, rho: real, q: UGReduced, daDkr: CMatrix, h: real, i: int, j: int)
    requires b != 0.0 && b * b != 0.0
    ensures MatrixA(kr + h, b, rho, q.(a := (i, j) => q.a(i, j).Plus(daDkr(i, j).Scaled(h))))(i, j)
         == MatrixA(kr, b, rho, q)(i, j).Plus(FrequencyA(kr, b, rho, q.m, daDkr)(i, j).Scaled(h))
            .Plus(q.m(i, j).Scaled(h * h / (b * b)))
  {
    hide MassFactor, MassFactorSlope;
    var moved := q.(a := (i, j) => q.a(i, j).Plus(daDkr(i, j).Scaled(h)));
    MatrixAEntry(kr, b, rho, q, i, j);
    MatrixAEntry(kr + h, b, rho, moved, i, j);
    FrequencyAEntry(kr, b, rho, q.m, daDkr, i, j);
    assert moved.a(i, j) == q.a(i, j).Plus(daDkr(i, j).Scaled(h));
    hide MatrixA, FrequencyA, Complex.Plus, Complex.Minus, Complex.Scaled;
    FactorInStep(kr, b, h);
    ComplexStep(MassFactor(kr, b), MassFactor(kr + h, b), MassFactorSlope(kr, b), h * h / (b * b), h, rho / 2.0,
                q.m(i, j), q.a(i, j), daDkr(i, j));
  }

  /** At one reduced frequency A is linear in the matrices. */
  lemma MatrixAIsLinear(kr: real, b: real, rho: real, q: UGReduced, dq: UGReduced, t: real, i: int, j: int)
    requires b != 0.0
    ensures MatrixA(kr, b, rho, UGReduced((i, j) => q.m(i, j).Plus(dq.m(i, j).Scaled(t)), q.k,
                                          (i, j) => q.a(i, j).Plus(dq.a(i, j).Scaled(t))))(i, j)
         == MatrixA(kr, b, rho, q)(i, j).Plus(MatrixA(kr, b, rho, dq)(i, j).Scaled(t))
  {
    hide MassFactor;
    var moved := UGReduced((i, j) => q.m(i, j).Plus(dq.m(i, j).Scaled(t)), q.k,
                           (i, j) => q.a(i, j).Plus(dq.a(i, j).Scaled(t)));
    MatrixAEntry(kr, b, rho, q, i, j);
    MatrixAEntry(kr, b, rho, dq, i, j);
    MatrixAEntry(kr, b, rho, moved, i, j);
    assert moved.m(i, j) == q.m(i, j).Plus(dq.m(i, j).Scaled(t))
           && moved.a(i, j) == q.a(i, j).Plus(dq.a(i, j).Scaled(t));
    hide MatrixA, Complex.Plus, Complex.Minus, Complex.Scaled;
    LinearStep(MassFactor(kr, b), t, rho / 2.0, q.m(i, j), dq.m(i, j), q.a(i, j), dq.a(i, j));
  }

  lemma LinearStep(c: real, t: real, g: real, m: Complex, dm: Complex, a: Complex, da: Complex)
    ensures m.Plus(dm.Scaled(t)).Scaled(c).Minus(a.Plus(da.Scaled(t)).Scaled(g))
         == m.Scaled(c).Minus(a.Scaled(g)).Plus(dm.Scaled(c).Minus(da.Scaled(g)).Scaled(t))
  {
  }

  lemma ComplexStep(c: real, c': real, e: real, v: real, h: real, g: real, m: Complex, a: Complex, d: Complex)
    requires c' == c + h * e + v
    ensures m.Scaled(c').Minus(a.Plus(d.Scaled(h)).Scaled(g))
         == m.Scaled(c).Minus(a.Scaled(g)).Plus(m.Scaled(e).Minus(d.Scaled(g)).Scaled(h)).Plus(m.Scaled(v))
  {
    QuadraticStep(c, c', e, v, h, g, m.re, a.re, d.re);
    QuadraticStep(c, c', e, v, h, g, m.im, a.im, d.im);
  }

  lemma QuadraticStep(c: real, c': real, e: real, v: real, h: real, g: real, m: real, a: real, d: real)
    requires c' == c + h * e + v
    ensures c' * m - g * (a + h * d) == c * m - g * a + h * (e * m - g * d) + v * m
  {
  }

  /** The factor of the mass is quadratic in the step. */
  lemma FactorInStep(kr: real, b: real, h: real)
    requires b != 0.0 && b * b != 0.0
    ensures MassFactor(kr, b) == kr * kr / (b * b)
    ensures MassFactor(kr + h, b) == MassFactor(kr, b) + h * MassFactorSlope(kr, b) + h * h / (b * b)
  {
    MassFactorChange(kr, b, h);
    assert Sq(b) == b * b;
    MassFactorIs(kr, b);
    Reciprocal(kr * kr, b * b);
    Reciprocal(h * h, b * b);
    hide MassFactor, MassFactorSlope;
  }

  lemma MassFactorIs(kr: real, b: real)
    requires b != 0.0
    ensures MassFactor(kr, b) == kr * kr * (1.0 / Sq(b))
  {
    var r, u := 1.0 / Sq(b), kr / b;
    assert u * b == kr;
    assert (u * b) * (u * b) == (u * u) * Sq(b);
    assert r * Sq(b) == 1.0;
    assert kr * kr * r == (u * u) * (Sq(b) * r);
  }

  lemma MatrixAEntry(kr: real, b: real, rho: real, q: UGReduced, i: int, j: int)
    requires b != 0.0
    ensures MatrixA(kr, b, rho, q)(i, j) == q.m(i, j).Scaled(MassFactor(kr, b)).Minus(q.a(i, j).Scaled(rho / 2.0))
  {
    hide MassFactor;
    HalfStep(q.m(i, j).Scaled(MassFactor(kr, b)), rho, q.a(i, j));
    hide Complex.Times;
  }

  /** The two derivatives that the solver assembles add up to the change, but for the force of the parameter. */
  lemma ChangeFromDerivatives(kr: real, b: real, rho: real, q: UGReduced, dq: UGReduced, s: real, daDkr: CMatrix,
                              i: int, j: int)
    requires b != 0.0
    ensures PencilChange(kr, b, rho, q, dq, s, daDkr)(i, j)
         == StepMatrix(MatrixA(kr, b, rho, dq), Complex(s, 0.0), FrequencyA(kr, b, rho, q.m, daDkr))(i, j)
  {
    hide MassFactor, MassFactorSlope;
    NonZeroSquare(b);
    FactorInStep(kr, b, 0.0);
    SlopeIs(kr, b, s);
    MatrixAEntry(kr, b, rho, dq, i, j);
    var m, d, slope := q.m(i, j), daDkr(i, j), MassFactorSlope(kr, b);
    FrequencyAEntry(kr, b, rho, q.m, daDkr, i, j);
    TimesReal(FrequencyA(kr, b, rho, q.m, daDkr)(i, j), s);
    TimesCommutes(FrequencyA(kr, b, rho, q.m, daDkr)(i, j), Complex(s, 0.0));
    hide Complex.Times, MatrixA, FrequencyA;
    var c, e := kr * kr / (b * b), 2.0 * s * kr / (b * b);
    SumInStep(c, e, slope, s, rho / 2.0, m.re, dq.m(i, j).re, dq.a(i, j).re, d.re);
    SumInStep(c, e, slope, s, rho / 2.0, m.im, dq.m(i, j).im, dq.a(i, j).im, d.im);
  }

  lemma SlopeIs(kr: real, b: real, s: real)
    requires b != 0.0 && b * b != 0.0
    ensures 2.0 * s * kr / (b * b) == s * MassFactorSlope(kr, b)
  {
    assert Sq(b) == b * b;
    Reciprocal(2.0 * s * kr, b * b);
  }

  lemma FrequencyAEntry(kr: real, b: real, rho: real, m: CMatrix, d: CMatrix, i: int, j: int)
    requires b != 0.0
    ensures FrequencyA(kr, b, rho, m, d)(i, j)
         == m(i, j).Scaled(MassFactorSlope(kr, b)).Minus(d(i, j).Scaled(rho / 2.0))
  {
    hide MassFactorSlope;
    HalfStep(m(i, j).Scaled(MassFactorSlope(kr, b)), rho, d(i, j));
    hide Complex.Times;
  }

  lemma SumInStep(c: real, e: real, slope: real, s: real, h: real, m: real, dm: real, da: real, d: real)
    requires e == s * slope
    ensures c * dm + e * m - h * (da + s * d) == c * dm - h * da + s * (slope * m - h * d)
  {
  }
}
