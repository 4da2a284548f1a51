/** The first-order eigenproblem A y = p B y that the time-domain flutter solver builds from the
    reduced matrices of M x'' + C x' + K x = 0, and the sensitivity of its eigenvalues.
    Matrices are complex so that one definition serves real and complex reduced quantities. */
module FirstOrderPencil {
  import opened ComplexAlgebra

  /** The reduced mass, damping and stiffness matrices, or their derivatives. */
  datatype Reduced = Reduced(m: CMatrix, c: CMatrix, k: CMatrix)

  function Negated(a: Complex): Complex {
    Complex(-a.re, -a.im)
  }

  function IdentityMatrix(): CMatrix {
    (i, j) => if i == j then One else Zero
  }

  /** Four n by n blocks. */
  function Blocks(n: nat, a: CMatrix, b: CMatrix, c: CMatrix, d: CMatrix): CMatrix {
    (i, j) => if i < n then (if j < n then a(i, j) else b(i, j - n))
              else if j < n then c(i - n, j) else d(i - n, j - n)
  }

  function NullMatrix(): CMatrix {
    (i, j) => Zero
  }

  function NegatedMatrix(a: CMatrix): CMatrix {
    (i, j) => Negated(a(i, j))
  }

  function PencilA(n: nat, q: Reduced): CMatrix {
    Blocks(n, NullMatrix(), IdentityMatrix(), NegatedMatrix(q.k), NegatedMatrix(q.c))
  }

  function PencilB(n: nat, q: Reduced): CMatrix {
    Blocks(n, IdentityMatrix(), NullMatrix(), NullMatrix(), q.m)
  }

  /** The derivatives of the two pencil matrices: unlike PencilA and PencilB of the derivative
      matrices they have no identity blocks. */
  function PencilADerivative(n: nat, dq: Reduced): CMatrix {
    Blocks(n, NullMatrix(), NullMatrix(), NegatedMatrix(dq.k), NegatedMatrix(dq.c))
  }

  function PencilBDerivative(n: nat, dq: Reduced): CMatrix {
    Blocks(n, NullMatrix(), NullMatrix(), NullMatrix(), dq.m)
  }

  function Upper(n: nat, y: CVector): CVector {
    i => y(n + i)
  }

  /** Row i of A y = p B y. */
  predicate RowHolds(size: nat, a: CMatrix, b: CMatrix, p: Complex, y: CVector, i: int) {
    CApply(size, a, y)(i) == p.Times(CApply(size, b, y)(i))
  }

  ghost predicate IsEigenpair(size: nat, a: CMatrix, b: CMatrix, p: Complex, y: CVector) {
    forall i | 0 <= i < size :: RowHolds(size, a, b, p, y, i)
  }

  /** The upper half of y = (x, z) is p times the lower half. */
  ghost predicate VelocityIsScaled(n: nat, p: Complex, y: CVector) {
    forall i | 0 <= i < n :: Upper(n, y)(i) == p.Times(y(i))
  }

  /** Row i of (p^2 M + p C + K) x. */
  function QuadraticResidual(n: nat, q: Reduced, p: Complex, x: CVector, i: int): Complex {
    p.Times(p).Times(CApply(n, q.m, x)(i)).Plus(p.Times(CApply(n, q.c, x)(i))).Plus(CApply(n, q.k, x)(i))
  }

  // ---------------------------------------------------------------------------------------------
  // Rows of the block matrices
  // ---------------------------------------------------------------------------------------------

  lemma BlockRow(n: nat, a: CMatrix, b: CMatrix, c: CMatrix, d: CMatrix, y: CVector, i: int)
    requires 0 <= i < n
    ensures CApply(2 * n, Blocks(n, a, b, c, d), y)(i) == CApply(n, a, y)(i).Plus(CApply(n, b, Upper(n, y))(i))
    ensures CApply(2 * n, Blocks(n, a, b, c, d), y)(n + i) == CApply(n, c, y)(i).Plus(CApply(n, d, Upper(n, y))(i))
  {
    var whole := Blocks(n, a, b, c, d);
    CDotSplit(n, n, CRow(whole, i), y);
    CDotCongruent(n, CRow(whole, i), y, CRow(a, i), y);
    CDotCongruent(n, j => CRow(whole, i)(n + j), j => y(n + j), CRow(b, i), Upper(n, y));
    CDotSplit(n, n, CRow(whole, n + i), y);
    CDotCongruent(n, CRow(whole, n + i), y, CRow(c, i), y);
    CDotCongruent(n, j => CRow(whole, n + i)(n + j), j => y(n + j), CRow(d, i), Upper(n, y));
  }

  lemma SimpleRows(n: nat, a: CMatrix, x: CVector, i: int)
    requires 0 <= i < n
    ensures CApply(n, NullMatrix(), x)(i) == Zero
    ensures CApply(n, IdentityMatrix(), x)(i) == x(i)
    ensures CApply(n, NegatedMatrix(a), x)(i) == Negated(CApply(n, a, x)(i))
  {
    CDotZero(n, CRow(NullMatrix(), i), x);
    CDotUnit(n, CRow(IdentityMatrix(), i), x, i);
    NegatedRow(n, a, x, i);
  }

  lemma {:induction false} NegatedRow(n: nat, a: CMatrix, x: CVector, i: int)
    ensures CApply(n, NegatedMatrix(a), x)(i) == Negated(CApply(n, a, x)(i))
  {
    if n > 0 {
      NegatedRow(n - 1, a, x, i);
      NegatedTimes(a(i, n - 1), x(n - 1));
      hide Complex.Times;
    }
  }

  lemma NegatedTimes(a: Complex, x: Complex)
    ensures Negated(a).Times(x) == Negated(a.Times(x))
  {
  }

  lemma PencilRows(n: nat, q: Reduced, y: CVector, i: int)
    requires 0 <= i < n
    ensures CApply(2 * n, PencilA(n, q), y)(i) == y(n + i)
    ensures CApply(2 * n, PencilB(n, q), y)(i) == y(i)
    ensures CApply(2 * n, PencilA(n, q), y)(n + i)
         == Negated(CApply(n, q.k, y)(i)).Plus(Negated(CApply(n, q.c, Upper(n, y))(i)))
    ensures CApply(2 * n, PencilB(n, q), y)(n + i) == CApply(n, q.m, Upper(n, y))(i)
  {
    BlockRow(n, NullMatrix(), IdentityMatrix(), NegatedMatrix(q.k), NegatedMatrix(q.c), y, i);
    BlockRow(n, IdentityMatrix(), NullMatrix(), NullMatrix(), q.m, y, i);
    SimpleRows(n, q.k, y, i);
    SimpleRows(n, q.c, Upper(n, y), i);
  }

  lemma DerivativeRows(n: nat, q: Reduced, y: CVector, i: int)
    requires 0 <= i < n
    ensures CApply(2 * n, PencilADerivative(n, q), y)(i) == Zero
    ensures CApply(2 * n, PencilBDerivative(n, q), y)(i) == Zero
    ensures CApply(2 * n, PencilADerivative(n, q), y)(n + i) == CApply(2 * n, PencilA(n, q), y)(n + i)
    ensures CApply(2 * n, PencilBDerivative(n, q), y)(n + i) == CApply(2 * n, PencilB(n, q), y)(n + i)
  {
    BlockRow(n, NullMatrix(), NullMatrix(), NegatedMatrix(q.k), NegatedMatrix(q.c), y, i);
    BlockRow(n, NullMatrix(), NullMatrix(), NullMatrix(), q.m, y, i);
    BlockRow(n, NullMatrix(), IdentityMatrix(), NegatedMatrix(q.k), NegatedMatrix(q.c), y, i);
    BlockRow(n, IdentityMatrix(), NullMatrix(), NullMatrix(), q.m, y, i);
    SimpleRows(n, q.k, y, i);
    SimpleRows(n, q.k, Upper(n, y), i);
  }

  // ---------------------------------------------------------------------------------------------
  // Meaning of the first-order problem
  // ---------------------------------------------------------------------------------------------

  lemma ScaledRow(n: nat, a: CMatrix, p: Complex, y: CVector, i: int)
    requires VelocityIsScaled(n, p, y)
    ensures CApply(n, a, Upper(n, y))(i) == p.Times(CApply(n, a, y)(i))
  {
    var zero, row := CRow(NullMatrix(), i), CRow(a, i);
    forall j | 0 <= j < n
      ensures row(j).Times(Upper(n, y)(j)) == zero(j).Times(y(j)).Plus(p.Times(row(j).Times(y(j))))
    {
      TimesAssociates(row(j), p, y(j));
      TimesCommutes(row(j), p);
      TimesAssociates(p, row(j), y(j));
    }
    CDotZero(n, zero, y);
    CDotCombine(n, zero, y, p, row, y, row, Upper(n, y));
  }

  lemma ResidualAlgebra(p: Complex, mx: Complex, cx: Complex, kx: Complex)
    ensures Negated(kx).Plus(Negated(p.Times(cx))) == p.Times(p.Times(mx))
       <==> p.Times(p).Times(mx).Plus(p.Times(cx)).Plus(kx) == Zero
  {
    TimesAssociates(p, p, mx);
    hide Complex.Times;
  }

  lemma LowerRow(n: nat, q: Reduced, p: Complex, y: CVector, i: int)
    requires 0 <= i < n && VelocityIsScaled(n, p, y)
    ensures RowHolds(2 * n, PencilA(n, q), PencilB(n, q), p, y, n + i)
       <==> QuadraticResidual(n, q, p, y, i) == Zero
  {
    PencilRows(n, q, y, i);
    ScaledRow(n, q.c, p, y, i);
    ScaledRow(n, q.m, p, y, i);
    ResidualAlgebra(p, CApply(n, q.m, y)(i), CApply(n, q.c, y)(i), CApply(n, q.k, y)(i));
    hide Complex.Times, CApply, Complex.Plus, PencilA, PencilB;
  }

  /** (x, z) is an eigenvector of the assembled pencil with eigenvalue p exactly when z = p x and
      x solves the second-order problem at p. */
  lemma PencilMeaning(n: nat, q: Reduced, p: Complex, y: CVector)
    ensures IsEigenpair(2 * n, PencilA(n, q), PencilB(n, q), p, y)
       <==> VelocityIsScaled(n, p, y) && forall i | 0 <= i < n :: QuadraticResidual(n, q, p, y, i) == Zero
  {
    var a, b := PencilA(n, q), PencilB(n, q);
    if IsEigenpair(2 * n, a, b, p, y) {
      forall i | 0 <= i < n
        ensures Upper(n, y)(i) == p.Times(y(i))
      {
        assert RowHolds(2 * n, a, b, p, y, i);
        PencilRows(n, q, y, i);
      }
      forall i | 0 <= i < n
        ensures QuadraticResidual(n, q, p, y, i) == Zero
      {
        assert RowHolds(2 * n, a, b, p, y, n + i);
        LowerRow(n, q, p, y, i);
      }
    }
    if VelocityIsScaled(n, p, y) && forall i | 0 <= i < n :: QuadraticResidual(n, q, p, y, i) == Zero {
      forall i | 0 <= i < 2 * n
        ensures RowHolds(2 * n, a, b, p, y, i)
      {
        if i < n {
          PencilRows(n, q, y, i);
          assert Upper(n, y)(i) == p.Times(y(i));
        } else {
          LowerRow(n, q, p, y, i - n);
          assert n + (i - n) == i;
        }
      }
    }
  }

  // ---------------------------------------------------------------------------------------------
  // Eigenvalue sensitivity
  // ---------------------------------------------------------------------------------------------

  /** The left eigenvector condition u^H A = lambda u^H B, column by column. */
  ghost predicate IsLeftEigenvector(size: nat, a: CMatrix, b: CMatrix, lambda: Complex, u: CVector) {
    forall j | 0 <= j < size ::
      CApplyTransposed(size, a, Conjugated(u))(j) == lambda.Times(CApplyTransposed(size, b, Conjugated(u))(j))
  }

  /** Row i of the first-order terms of (A + h dA)(x + h dx) = (lambda + h dlambda)(B + h dB)(x + h dx). */
  predicate PerturbedRow(size: nat, a: CMatrix, b: CMatrix, da: CMatrix, db: CMatrix,
                         lambda: Complex, dlambda: Complex, x: CVector, dx: CVector, i: int)
  {
    CApply(size, da, x)(i).Plus(CApply(size, a, dx)(i))
    == dlambda.Times(CApply(size, b, x)(i))
       .Plus(lambda.Times(CApply(size, db, x)(i)))
       .Plus(lambda.Times(CApply(size, b, dx)(i)))
  }

  ghost predicate IsPerturbed(size: nat, a: CMatrix, b: CMatrix, da: CMatrix, db: CMatrix,
                              lambda: Complex, dlambda: Complex, x: CVector, dx: CVector)
  {
    forall i | 0 <= i < size :: PerturbedRow(size, a, b, da, db, lambda, dlambda, x, dx, i)
  }

  /** u^H (dA - lambda dB) x. */
  function Numerator(size: nat, u: CVector, da: CMatrix, lambda: Complex, db: CMatrix, x: CVector): Complex {
    Inner(size, u, CApply(size, Shifted(da, lambda, db), x))
  }

  /** The quotient the solver evaluates: left.dot((A' - lambda B') right) / left.dot(B right). */
  function EigenvalueDerivative(size: nat, left: CVector, b: CMatrix, da: CMatrix, lambda: Complex, db: CMatrix,
                                right: CVector): Complex
    requires Inner(size, left, CApply(size, b, right)) != Zero
  {
    Numerator(size, left, da, lambda, db, right).Over(Inner(size, left, CApply(size, b, right)))
  }

  lemma PerturbedAlgebra(da: Complex, a: Complex, dl: Complex, b: Complex, l: Complex, db: Complex, bd: Complex)
    requires da.Plus(a) == dl.Times(b).Plus(l.Times(db)).Plus(l.Times(bd))
    ensures da.Minus(l.Times(db)).Plus(a) == l.Times(bd).Plus(dl.Times(b))
  {
    hide Complex.Times;
  }

  lemma TimesPlusScaled(w: Complex, p: Complex, l: Complex, q: Complex)
    ensures w.Times(p.Plus(l.Times(q))) == w.Times(p).Plus(l.Times(w.Times(q)))
  {
    TimesDistributes(w, p, l.Times(q));
    TimesAssociates(w, l, q);
    TimesCommutes(w, l);
    TimesAssociates(l, w, q);
  }

  lemma TimesOne(a: Complex)
    ensures One.Times(a) == a && Zero.Plus(a) == a && Zero.Times(a) == Zero && a.Times(Zero) == Zero
  {
  }

  lemma {:induction false} CombineRight(n: nat, w: CVector, p: CVector, l: Complex, q: CVector, r: CVector)
    requires forall i | 0 <= i < n :: r(i) == p(i).Plus(l.Times(q(i)))
    ensures CDot(n, w, r) == CDot(n, w, p).Plus(l.Times(CDot(n, w, q)))
  {
    forall i | 0 <= i < n
      ensures w(i).Times(r(i)) == w(i).Times(p(i)).Plus(l.Times(w(i).Times(q(i))))
    {
      TimesPlusScaled(w(i), p(i), l, q(i));
    }
    CDotCombine(n, w, p, l, w, q, w, r);
  }

  /** Any left eigenvector annihilates (lambda B - A) dx. */
  lemma LeftAnnihilates(size: nat, a: CMatrix, b: CMatrix, lambda: Complex, u: CVector, dx: CVector)
    requires IsLeftEigenvector(size, a, b, lambda, u)
    ensures CDot(size, Conjugated(u), CApply(size, a, dx))
         == lambda.Times(CDot(size, Conjugated(u), CApply(size, b, dx)))
  {
    var w := Conjugated(u);
    var zero: CVector := i => Zero;
    var ta, tb := CApplyTransposed(size, a, w), CApplyTransposed(size, b, w);
    CDotTranspose(size, size, a, dx, w);
    CDotTranspose(size, size, b, dx, w);
    forall j | 0 <= j < size
      ensures ta(j).Times(dx(j)) == zero(j).Times(dx(j)).Plus(lambda.Times(tb(j).Times(dx(j))))
    {
      TimesAssociates(lambda, tb(j), dx(j));
    }
    CDotZero(size, zero, dx);
    CDotCombine(size, zero, dx, lambda, tb, dx, ta, dx);
  }

  /** The numerator is the forced derivative times the denominator, whatever the eigenvector change. */
  lemma NumeratorForced(size: nat, a: CMatrix, b: CMatrix, da: CMatrix, db: CMatrix,
                        lambda: Complex, dlambda: Complex, u: CVector, x: CVector, dx: CVector)
    requires IsLeftEigenvector(size, a, b, lambda, u)
    requires IsPerturbed(size, a, b, da, db, lambda, dlambda, x, dx)
    ensures Numerator(size, u, da, lambda, db, x) == dlambda.Times(Inner(size, u, CApply(size, b, x)))
  {
    var w := Conjugated(u);
    var adx, bdx, bx := CApply(size, a, dx), CApply(size, b, dx), CApply(size, b, x);
    var shifted := CApply(size, Shifted(da, lambda, db), x);
    var zero: CVector := i => Zero;
    var moved: CVector := i => lambda.Times(bdx(i));
    var total: CVector := i => shifted(i).Plus(adx(i));
    forall i | 0 <= i < size
      ensures total(i) == moved(i).Plus(dlambda.Times(bx(i)))
    {
      ShiftedApply(size, da, lambda, db, x, i);
      assert PerturbedRow(size, a, b, da, db, lambda, dlambda, x, dx, i);
      PerturbedAlgebra(CApply(size, da, x)(i), adx(i), dlambda, bx(i), lambda, CApply(size, db, x)(i), bdx(i));
      hide Complex.Times;
    }
    CombineRight(size, w, moved, dlambda, bx, total);
    forall i | 0 <= i < size
      ensures total(i) == shifted(i).Plus(One.Times(adx(i))) && moved(i) == zero(i).Plus(lambda.Times(bdx(i)))
      ensures w(i).Times(zero(i)) == Zero
    {
      TimesOne(adx(i));
      TimesOne(w(i));
    }
    CombineRight(size, w, shifted, One, adx, total);
    CombineRight(size, w, zero, lambda, bdx, moved);
    CDotZero(size, w, zero);
    LeftAnnihilates(size, a, b, lambda, u, dx);
    TimesOne(CDot(size, w, adx));
    hide Complex.Times;
  }

  /** The sensitivity matrices keep the identity blocks of the baseline pencil, but on an eigenvector
      with x2 = lambda x1 those blocks cancel. */
  lemma IdentityBlocksCancel(n: nat, dq: Reduced, lambda: Complex, u: CVector, x: CVector)
    requires VelocityIsScaled(n, lambda, x)
    ensures Numerator(2 * n, u, PencilA(n, dq), lambda, PencilB(n, dq), x)
         == Numerator(2 * n, u, PencilADerivative(n, dq), lambda, PencilBDerivative(n, dq), x)
  {
    var kept := Shifted(PencilA(n, dq), lambda, PencilB(n, dq));
    var exact := Shifted(PencilADerivative(n, dq), lambda, PencilBDerivative(n, dq));
    forall i | 0 <= i < 2 * n
      ensures CApply(2 * n, kept, x)(i) == CApply(2 * n, exact, x)(i)
    {
      ShiftedApply(2 * n, PencilA(n, dq), lambda, PencilB(n, dq), x, i);
      ShiftedApply(2 * n, PencilADerivative(n, dq), lambda, PencilBDerivative(n, dq), x, i);
      if i < n {
        PencilRows(n, dq, x, i);
        DerivativeRows(n, dq, x, i);
        assert Upper(n, x)(i) == lambda.Times(x(i));
        TimesOne(lambda);
      } else {
        DerivativeRows(n, dq, x, i - n);
        assert n + (i - n) == i;
      }
      hide Complex.Times, CApply;
    }
    var w := Conjugated(u);
    CDotCongruent(2 * n, w, CApply(2 * n, kept, x), w, CApply(2 * n, exact, x));
  }

  /** What the solver computes for a parameter is the derivative that the first-order perturbation of the
      pencil forces on the eigenvalue. */
  lemma ComputedDerivativeIsForced(n: nat, q: Reduced, dq: Reduced, lambda: Complex, dlambda: Complex,
                                   left: CVector, x: CVector, dx: CVector)
    requires IsEigenpair(2 * n, PencilA(n, q), PencilB(n, q), lambda, x)
    requires IsLeftEigenvector(2 * n, PencilA(n, q), PencilB(n, q), lambda, left)
    requires IsPerturbed(2 * n, PencilA(n, q), PencilB(n, q), PencilADerivative(n, dq), PencilBDerivative(n, dq),
                         lambda, dlambda, x, dx)
    requires Inner(2 * n, left, CApply(2 * n, PencilB(n, q), x)) != Zero
    ensures EigenvalueDerivative(2 * n, left, PencilB(n, q), PencilA(n, dq), lambda, PencilB(n, dq), x) == dlambda
  {
    PencilMeaning(n, q, lambda, x);
    IdentityBlocksCancel(n, dq, lambda, left, x);
    NumeratorForced(2 * n, PencilA(n, q), PencilB(n, q), PencilADerivative(n, dq), PencilBDerivative(n, dq),
                    lambda, dlambda, left, x, dx);
    var den := Inner(2 * n, left, CApply(2 * n, PencilB(n, q), x));
    OverUnique(Numerator(2 * n, left, PencilA(n, dq), lambda, PencilB(n, dq), x), den, dlambda);
    hide *;
  }

  // ---------------------------------------------------------------------------------------------
  // Two changes at once
  // ---------------------------------------------------------------------------------------------

  /** The matrix A + s E. */
  function StepMatrix(a: CMatrix, s: Complex, e: CMatrix): CMatrix {
    (i, j) => a(i, j).Plus(s.Times(e(i, j)))
  }

  lemma StepEntry(a: Complex, s: Complex, e: Complex, x: Complex)
    ensures a.Plus(s.Times(e)).Times(x) == a.Times(x).Plus(s.Times(e.Times(x)))
  {
    TimesCommutes(a.Plus(s.Times(e)), x);
    TimesDistributes(x, a, s.Times(e));
    TimesCommutes(a, x);
    TimesCommutes(s.Times(e), x);
    TimesAssociates(s, e, x);
    hide Complex.Times, Complex.Plus;
  }

  lemma StepRow(size: nat, a: CMatrix, s: Complex, e: CMatrix, x: CVector, i: int)
    ensures CApply(size, StepMatrix(a, s, e), x)(i) == CApply(size, a, x)(i).Plus(s.Times(CApply(size, e, x)(i)))
  {
    var row := CRow(StepMatrix(a, s, e), i);
    forall j | 0 <= j < size
      ensures row(j).Times(x(j)) == CRow(a, i)(j).Times(x(j)).Plus(s.Times(CRow(e, i)(j).Times(x(j))))
    {
      StepEntry(a(i, j), s, e(i, j), x(j));
    }
    CDotCombine(size, CRow(a, i), x, s, CRow(e, i), x, row, x);
  }

  lemma StepAlgebra(p: Complex, q: Complex, r: Complex, t: Complex, s: Complex, l: Complex)
    ensures p.Plus(s.Times(q)).Minus(l.Times(r.Plus(s.Times(t))))
         == p.Minus(l.Times(r)).Plus(s.Times(q.Minus(l.Times(t))))
  {
    TimesDistributes(l, r, s.Times(t));
    TimesDistributes(s, q, l.Times(t));
    TimesAssociates(l, s, t);
    TimesAssociates(s, l, t);
    TimesCommutes(l, s);
    hide Complex.Times;
  }

  /** The numerator is linear in the changes of the two matrices. */
  lemma NumeratorAlong(size: nat, u: CVector, da: CMatrix, db: CMatrix, s: Complex, ea: CMatrix, eb: CMatrix,
                       lambda: Complex, x: CVector)
    ensures Numerator(size, u, StepMatrix(da, s, ea), lambda, StepMatrix(db, s, eb), x)
         == Numerator(size, u, da, lambda, db, x).Plus(s.Times(Numerator(size, u, ea, lambda, eb, x)))
  {
    var whole := CApply(size, Shifted(StepMatrix(da, s, ea), lambda, StepMatrix(db, s, eb)), x);
    var d, e := CApply(size, Shifted(da, lambda, db), x), CApply(size, Shifted(ea, lambda, eb), x);
    forall i | 0 <= i < size
      ensures whole(i) == d(i).Plus(s.Times(e(i)))
    {
      ShiftedApply(size, StepMatrix(da, s, ea), lambda, StepMatrix(db, s, eb), x, i);
      ShiftedApply(size, da, lambda, db, x, i);
      ShiftedApply(size, ea, lambda, eb, x, i);
      StepRow(size, da, s, ea, x, i);
      StepRow(size, db, s, eb, x, i);
      StepAlgebra(CApply(size, da, x)(i), CApply(size, ea, x)(i), CApply(size, db, x)(i), CApply(size, eb, x)(i),
                  s, lambda);
      hide *;
    }
    CombineRight(size, Conjugated(u), d, s, e, whole);
  }

  lemma OverAlong(p: Complex, s: Complex, q: Complex, d: Complex)
    requires d != Zero
    ensures p.Plus(s.Times(q)).Over(d) == p.Over(d).Plus(s.Times(q.Over(d)))
  {
    OverUnique(p, d, p.Over(d));
    OverUnique(q, d, q.Over(d));
    StepEntry(p.Over(d), s, q.Over(d), d);
    OverUnique(p.Plus(s.Times(q)), d, p.Over(d).Plus(s.Times(q.Over(d))));
    hide *;
  }

  /** So is the derivative of the eigenvalue. */
  lemma DerivativeAlong(size: nat, left: CVector, b: CMatrix, da: CMatrix, db: CMatrix, s: Complex,
                        ea: CMatrix, eb: CMatrix, lambda: Complex, x: CVector)
    requires Inner(size, left, CApply(size, b, x)) != Zero
    ensures EigenvalueDerivative(size, left, b, StepMatrix(da, s, ea), lambda, StepMatrix(db, s, eb), x)
         == EigenvalueDerivative(size, left, b, da, lambda, db, x)
            .Plus(s.Times(EigenvalueDerivative(size, left, b, ea, lambda, eb, x)))
  {
    NumeratorAlong(size, left, da, db, s, ea, eb, lambda, x);
    OverAlong(Numerator(size, left, da, lambda, db, x), s, Numerator(size, left, ea, lambda, eb, x),
              Inner(size, left, CApply(size, b, x)));
    hide Numerator, Inner, Complex.Times, Complex.Plus, Complex.Over;
  }

  /** The reduced matrices change by dq for the parameter and by s times dqV for the velocity. */
  function Along(dq: Reduced, s: real, dqV: Reduced): Reduced {
    var c := Complex(s, 0.0);
    Reduced(StepMatrix(dq.m, c, dqV.m), StepMatrix(dq.c, c, dqV.c), StepMatrix(dq.k, c, dqV.k))
  }

  lemma NegatedAlong(a: Complex, s: Complex, e: Complex)
    ensures Negated(a.Plus(s.Times(e))) == Negated(a).Plus(s.Times(Negated(e)))
    ensures Zero.Plus(s.Times(Zero)) == Zero
  {
    NegatedTimes(e, s);
    TimesCommutes(Negated(e), s);
    TimesCommutes(e, s);
    TimesOne(s);
    hide Complex.Times;
  }

  lemma PencilAlong(n: nat, dq: Reduced, s: real, dqV: Reduced, i: int, j: int)
    ensures var c := Complex(s, 0.0);
            && PencilADerivative(n, Along(dq, s, dqV))(i, j)
               == StepMatrix(PencilADerivative(n, dq), c, PencilADerivative(n, dqV))(i, j)
            && PencilBDerivative(n, Along(dq, s, dqV))(i, j)
               == StepMatrix(PencilBDerivative(n, dq), c, PencilBDerivative(n, dqV))(i, j)
  {
    var c := Complex(s, 0.0);
    NegatedAlong(dq.k(i - n, j), c, dqV.k(i - n, j));
    NegatedAlong(dq.c(i - n, j - n), c, dqV.c(i - n, j - n));
    hide Complex.Times, Complex.Plus, Negated;
  }

  /** Entry-wise equal matrices give the same numerator. */
  lemma NumeratorCongruent(size: nat, u: CVector, da: CMatrix, db: CMatrix, da': CMatrix, db': CMatrix, lambda: Complex,
                           x: CVector)
    requires forall i, j :: da(i, j) == da'(i, j) && db(i, j) == db'(i, j)
    ensures Numerator(size, u, da, lambda, db, x) == Numerator(size, u, da', lambda, db', x)
  {
    var m, m' := Shifted(da, lambda, db), Shifted(da', lambda, db');
    forall i | 0 <= i < size
      ensures CApply(size, m, x)(i) == CApply(size, m', x)(i)
    {
      CDotCongruent(size, CRow(m, i), x, CRow(m', i), x);
    }
    CDotCongruent(size, Conjugated(u), CApply(size, m, x), Conjugated(u), CApply(size, m', x));
  }

  /** eig with its eigenvectors belongs to the pencil of q, and changes by dlambda when the reduced matrices change
      by dq. */
  ghost predicate MovesTogether(n: nat, q: Reduced, dq: Reduced, eig: Complex, dlambda: Complex, left: CVector,
                                x: CVector, dx: CVector)
  {
    && IsEigenpair(2 * n, PencilA(n, q), PencilB(n, q), eig, x)
    && IsLeftEigenvector(2 * n, PencilA(n, q), PencilB(n, q), eig, left)
    && IsPerturbed(2 * n, PencilA(n, q), PencilB(n, q), PencilADerivative(n, dq), PencilBDerivative(n, dq),
                   eig, dlambda, x, dx)
  }

  /** When the parameter moves by one and the velocity by s, the computed derivatives add up to the change that the
      perturbed pencil forces on the eigenvalue. */
  lemma TotalDerivativeIsForced(n: nat, q: Reduced, dqp: Reduced, s: real, dqV: Reduced, lambda: Complex,
                                dlambda: Complex, left: CVector, x: CVector, dx: CVector)
    requires MovesTogether(n, q, Along(dqp, s, dqV), lambda, dlambda, left, x, dx)
    requires Inner(2 * n, left, CApply(2 * n, PencilB(n, q), x)) != Zero
    ensures EigenvalueDerivative(2 * n, left, PencilB(n, q), PencilA(n, dqp), lambda, PencilB(n, dqp), x)
            .Plus(EigenvalueDerivative(2 * n, left, PencilB(n, q), PencilA(n, dqV), lambda, PencilB(n, dqV),
                                       x).Scaled(s))
         == dlambda
  {
    hide CApply, Numerator, Complex.Over, Complex.Times, Inner, IsPerturbed, IsLeftEigenvector;
    var c, dq := Complex(s, 0.0), Along(dqp, s, dqV);
    var b := PencilB(n, q);
    PencilMeaning(n, q, lambda, x);
    IdentityBlocksCancel(n, dq, lambda, left, x);
    IdentityBlocksCancel(n, dqp, lambda, left, x);
    IdentityBlocksCancel(n, dqV, lambda, left, x);
    var pa, pb := PencilADerivative(n, dqp), PencilBDerivative(n, dqp);
    var va, vb := PencilADerivative(n, dqV), PencilBDerivative(n, dqV);
    forall i, j {
      PencilAlong(n, dqp, s, dqV, i, j);
    }
    NumeratorCongruent(2 * n, left, PencilADerivative(n, dq), PencilBDerivative(n, dq), StepMatrix(pa, c, va),
                       StepMatrix(pb, c, vb), lambda, x);
    DerivativeAlong(2 * n, left, b, pa, pb, c, va, vb, lambda, x);
    ComputedDerivativeIsForced(n, q, dq, lambda, dlambda, left, x, dx);
    var v := EigenvalueDerivative(2 * n, left, b, va, lambda, vb, x);
    TimesReal(v, s);
    TimesCommutes(c, v);
    hide *;
  }

  /** The sensitivity fields of a flutter root. */
  class RootSensitivity {
    var vSens: real
    var rootSens: Complex
    var hasSensitivityData: bool

    constructor ()
      ensures vSens == 0.0 && rootSens == Zero && !hasSensitivityData
    {
      vSens, rootSens, hasSensitivityData := 0.0, Zero, false;
    }

    /** Sensitivity of the flutter velocity and of the eigenvalue to a parameter. `dqp` and `dqV` are the
        derivatives of the reduced matrices with respect to the parameter and to the velocity. */
    method CalculateSensitivity(n: nat, q: Reduced, dqp: Reduced, dqV: Reduced, eig: Complex,
                                left: CVector, right: CVector)
      requires Inner(2 * n, left, CApply(2 * n, PencilB(n, q), right)) != Zero
      requires EigenvalueDerivative(2 * n, left, PencilB(n, q), PencilA(n, dqV), eig, PencilB(n, dqV), right).re != 0.0
      modifies this
      ensures hasSensitivityData
      ensures rootSens.re == 0.0
      ensures var dp := EigenvalueDerivative(2 * n, left, PencilB(n, q), PencilA(n, dqp), eig, PencilB(n, dqp), right);
              var dV := EigenvalueDerivative(2 * n, left, PencilB(n, q), PencilA(n, dqV), eig, PencilB(n, dqV), right);
              && rootSens == dp.Plus(dV.Scaled(vSens))
              && forall s: real :: dp.Plus(dV.Scaled(s)).re == 0.0 <==> s == vSens
      ensures forall dlambda, dx | MovesTogether(n, q, Along(dqp, vSens, dqV), eig, dlambda, left, right, dx) ::
                rootSens == dlambda
    {
      hide CApply, Numerator, Inner, EigenvalueDerivative, PencilA, MovesTogether, Along;
      var matB := PencilB(n, q);
      var degDp := EigenvalueDerivative(2 * n, left, matB, PencilA(n, dqp), eig, PencilB(n, dqp), right);
      var degDV := EigenvalueDerivative(2 * n, left, matB, PencilA(n, dqV), eig, PencilB(n, dqV), right);
      var slope := -degDp.re / degDV.re;
      vSens := slope;
      rootSens := degDp.Plus(degDV.Scaled(slope));
      hasSensitivityData := true;
      forall s: real
        ensures degDp.Plus(degDV.Scaled(s)).re == 0.0 <==> s == slope
      {
        assert degDp.Plus(degDV.Scaled(s)).re == degDp.re + s * degDV.re;
        LinearRoot(degDp.re, degDV.re, slope, s);
      }
      ghost var total := rootSens;
      forall dlambda, dx | MovesTogether(n, q, Along(dqp, slope, dqV), eig, dlambda, left, right, dx)
        ensures total == dlambda
      {
        TotalDerivativeIsForced(n, q, dqp, slope, dqV, eig, dlambda, left, right, dx);
      }
    }
  }

  lemma LinearRoot(a: real, b: real, r: real, s: real)
    requires b != 0.0 && r == -a / b
    ensures a + s * b == 0.0 <==> s == r
  {
    assert r * b == -a;
    if a + s * b == 0.0 {
      assert (s - r) * b == 0.0;
    }
  }
}
