/** Exact complex numbers and complex vectors and matrices of any size. */
module ComplexAlgebra {
  import opened Scalars

  datatype Complex = Complex(re: real, im: real) {

    function Plus(b: Complex): Complex {
      Complex(re + b.re, im + b.im)
    }

    function Minus(b: Complex): Complex {
      Complex(re - b.re, im - b.im)
    }

    function Times(b: Complex): Complex {
      Complex(re * b.re - im * b.im, re * b.im + im * b.re)
    }

    function Scaled(a: real): Complex {
      Complex(a * re, a * im)
    }

    function Conjugate(): Complex {
      Complex(re, -im)
    }

    /** The square of the modulus. */
    function NormSq(): (r: real)
      ensures r >= 0.0
      ensures r == 0.0 <==> this == Complex(0.0, 0.0)
    {
      Sq(re) + Sq(im)
    }

    function Over(b: Complex): Complex
      requires b != Zero
    {
      Times(b.Conjugate()).Scaled(1.0 / b.NormSq())
    }
  }

  const Zero := Complex(0.0, 0.0)
  const One := Complex(1.0, 0.0)

  type CVector = int -> Complex
  type CMatrix = (int, int) -> Complex

  /** The entry of a sequence seen as a total function. */
  function CAt(s: seq<Complex>, i: int): Complex {
    if 0 <= i < |s| then s[i] else Zero
  }

  function AsCVector(s: seq<Complex>): CVector {
    i => CAt(s, i)
  }

  lemma TimesCommutes(a: Complex, b: Complex)
    ensures a.Times(b) == b.Times(a)
  {
  }

  lemma TimesAssociates(a: Complex, b: Complex, c: Complex)
    ensures a.Times(b).Times(c) == a.Times(b.Times(c))
  {
    assert a.Times(b).Times(c).re == a.Times(b.Times(c)).re;
    assert a.Times(b).Times(c).im == a.Times(b.Times(c)).im;
  }

  lemma TimesDistributes(a: Complex, b: Complex, c: Complex)
    ensures a.Times(b.Plus(c)) == a.Times(b).Plus(a.Times(c))
    ensures a.Times(b.Minus(c)) == a.Times(b).Minus(a.Times(c))
  {
    TwoSums(a.re, b.re, c.re, -a.im, b.im, c.im);
    TwoSums(a.re, b.im, c.im, a.im, b.re, c.re);
    TwoSums(a.re, b.re, -c.re, -a.im, b.im, -c.im);
    TwoSums(a.re, b.im, -c.im, a.im, b.re, -c.re);
  }

  lemma TwoSums(x: real, u: real, v: real, y: real, p: real, q: real)
    ensures x * (u + v) + y * (p + q) == (x * u + y * p) + (x * v + y * q)
  {
  }

  /** Division by a non-zero number is the unique solution of q b = a. */
  lemma OverUnique(a: Complex, b: Complex, q: Complex)
    requires b != Zero
    ensures q.Times(b) == a <==> q == a.Over(b)
  {
    var d := b.NormSq();
    var r := 1.0 / d;
    assert r * d == 1.0;
    OverTimes(a, b, r);
    if q.Times(b) == a {
      TimesAssociates(q, b, b.Conjugate());
      assert b.Times(b.Conjugate()) == Complex(d, 0.0);
      assert a.Times(b.Conjugate()) == q.Times(Complex(d, 0.0));
      assert q.Times(Complex(d, 0.0)) == q.Scaled(d);
      ScaleBack(q, d, r);
    }
  }

  lemma OverTimes(a: Complex, b: Complex, r: real)
    requires r * b.NormSq() == 1.0
    ensures a.Times(b.Conjugate()).Scaled(r).Times(b) == a
  {
    var c := b.Conjugate();
    var d := b.NormSq();
    assert c.Times(b) == Complex(d, 0.0);
    hide *;
    ScaledTimes(a.Times(c), b, r);
    TimesAssociates(a, c, b);
    TimesReal(a, d);
    ScaleBack(a, d, r);
  }

  lemma ScaledTimes(a: Complex, b: Complex, r: real)
    ensures a.Scaled(r).Times(b) == a.Times(b).Scaled(r)
  {
  }

  lemma TimesReal(a: Complex, d: real)
    ensures a.Times(Complex(d, 0.0)) == a.Scaled(d)
  {
  }

  /** Regrouping (p + b q) + (r + b s). */
  lemma Regroup(p: Complex, q: Complex, r: Complex, s: Complex, b: Complex)
    ensures p.Plus(b.Times(q)).Plus(r.Plus(b.Times(s))) == p.Plus(r).Plus(b.Times(q.Plus(s)))
  {
    TimesDistributes(b, q, s);
  }

  lemma ShiftTimes(a: Complex, l: Complex, b: Complex, x: Complex)
    ensures a.Minus(l.Times(b)).Times(x) == a.Times(x).Plus(Zero.Minus(l).Times(b.Times(x)))
  {
    TimesCommutes(a.Minus(l.Times(b)), x);
    TimesDistributes(x, a, l.Times(b));
    TimesCommutes(a, x);
    TimesCommutes(l.Times(b), x);
    TimesAssociates(l, b, x);
    hide Complex.Times;
    PlusNegated(a.Times(x), l, b.Times(x));
  }

  lemma PlusNegated(p: Complex, l: Complex, q: Complex)
    ensures p.Minus(l.Times(q)) == p.Plus(Zero.Minus(l).Times(q))
  {
  }

  lemma ScaleBack(a: Complex, d: real, r: real)
    requires r * d == 1.0
    ensures a.Scaled(d).Scaled(r) == a
  {
    Cancel(a.re, d, r);
    Cancel(a.im, d, r);
  }

  /** The bilinear product (no conjugation). */
  function CDot(n: nat, u: CVector, v: CVector): Complex {
    if n == 0 then Zero else CDot(n - 1, u, v).Plus(u(n - 1).Times(v(n - 1)))
  }

  /** Eigen's `dot`: the first vector is conjugated. */
  function Inner(n: nat, u: CVector, v: CVector): Complex {
    CDot(n, Conjugated(u), v)
  }

  function Conjugated(u: CVector): CVector {
    i => u(i).Conjugate()
  }

  function CRow(a: CMatrix, i: int): CVector {
    j => a(i, j)
  }

  function CColumn(a: CMatrix, j: int): CVector {
    i => a(i, j)
  }

  function CApply(n: nat, a: CMatrix, x: CVector): CVector {
    i => CDot(n, CRow(a, i), x)
  }

  function CApplyTransposed(n: nat, a: CMatrix, y: CVector): CVector {
    j => CDot(n, CColumn(a, j), y)
  }

  /** The matrix A - lambda B. */
  function Shifted(a: CMatrix, lambda: Complex, b: CMatrix): CMatrix {
    (i, j) => a(i, j).Minus(lambda.Times(b(i, j)))
  }

  lemma {:induction false} CDotCongruent(n: nat, u: CVector, v: CVector, u': CVector, v': CVector)
    requires forall i | 0 <= i < n :: u(i).Times(v(i)) == u'(i).Times(v'(i))
    ensures CDot(n, u, v) == CDot(n, u', v')
  {
    if n > 0 {
      CDotCongruent(n - 1, u, v, u', v');
    }
  }

  lemma {:induction false} CDotZero(n: nat, u: CVector, v: CVector)
    requires forall i | 0 <= i < n :: u(i).Times(v(i)) == Zero
    ensures CDot(n, u, v) == Zero
  {
    if n > 0 {
      CDotZero(n - 1, u, v);
    }
  }

  lemma {:induction false} CDotCombine(n: nat, u: CVector, v: CVector, b: Complex, u': CVector, v': CVector,
                                       w: CVector, z: CVector)
    requires forall i | 0 <= i < n :: w(i).Times(z(i)) == u(i).Times(v(i)).Plus(b.Times(u'(i).Times(v'(i))))
    ensures CDot(n, w, z) == CDot(n, u, v).Plus(b.Times(CDot(n, u', v')))
  {
    if n > 0 {
      CDotCombine(n - 1, u, v, b, u', v', w, z);
      Regroup(CDot(n - 1, u, v), CDot(n - 1, u', v'), u(n - 1).Times(v(n - 1)), u'(n - 1).Times(v'(n - 1)), b);
      hide Complex.Times, Complex.Plus;
    }
  }

  lemma CTransposeStep(n: nat, a: CMatrix, x: CVector, y: CVector, j: int)
    ensures CApplyTransposed(n + 1, a, y)(j).Times(x(j))
         == CApplyTransposed(n, a, y)(j).Times(x(j)).Plus(y(n).Times(CRow(a, n)(j).Times(x(j))))
  {
    var p := CApplyTransposed(n, a, y)(j);
    assert CApplyTransposed(n + 1, a, y)(j) == p.Plus(a(n, j).Times(y(n)));
    StepTimes(p, a(n, j), y(n), x(j));
  }

  lemma StepTimes(p: Complex, a: Complex, y: Complex, x: Complex)
    ensures p.Plus(a.Times(y)).Times(x) == p.Times(x).Plus(y.Times(a.Times(x)))
  {
    TimesCommutes(p.Plus(a.Times(y)), x);
    TimesDistributes(x, p, a.Times(y));
    TimesCommutes(x, p);
    TimesCommutes(x, a.Times(y));
    TimesCommutes(a, y);
    TimesAssociates(y, a, x);
  }

  lemma {:induction false} CDotTranspose(n: nat, m: nat, a: CMatrix, x: CVector, y: CVector)
    ensures CDot(n, y, CApply(m, a, x)) == CDot(m, CApplyTransposed(n, a, y), x)
  {
    if n == 0 {
      CDotZero(m, CApplyTransposed(0, a, y), x);
    } else {
      CDotTranspose(n - 1, m, a, x, y);
      var k := n - 1;
      forall j | 0 <= j < m
        ensures CApplyTransposed(n, a, y)(j).Times(x(j))
             == CApplyTransposed(k, a, y)(j).Times(x(j)).Plus(y(k).Times(CRow(a, k)(j).Times(x(j))))
      {
        CTransposeStep(k, a, x, y, j);
        hide *;
      }
      CDotCombine(m, CApplyTransposed(k, a, y), x, y(k), CRow(a, k), x, CApplyTransposed(n, a, y), x);
    }
  }

  /** Splitting an inner product of length m + n at m. */
  lemma {:induction false} CDotSplit(m: nat, n: nat, u: CVector, v: CVector)
    ensures CDot(m + n, u, v) == CDot(m, u, v).Plus(CDot(n, i => u(m + i), i => v(m + i)))
  {
    if n > 0 {
      CDotSplit(m, n - 1, u, v);
      CDotCongruent(n - 1, i => u(m + i), i => v(m + i), i => u(m + i), i => v(m + i));
    }
  }

  /** An inner product against a row with a single one in it picks that entry. */
  lemma {:induction false} CDotUnit(n: nat, u: CVector, v: CVector, k: nat)
    requires k < n
    requires forall i | 0 <= i < n :: u(i) == if i == k then One else Zero
    ensures CDot(n, u, v) == v(k)
  {
    if k == n - 1 {
      CDotZero(n - 1, u, v);
    } else {
      CDotUnit(n - 1, u, v, k);
    }
  }

  /** (A - lambda B) x is A x - lambda B x, row by row. */
  lemma ShiftedApply(n: nat, a: CMatrix, lambda: Complex, b: CMatrix, x: CVector, i: int)
    ensures CApply(n, Shifted(a, lambda, b), x)(i)
         == CApply(n, a, x)(i).Minus(lambda.Times(CApply(n, b, x)(i)))
  {
    var minus := Zero.Minus(lambda);
    forall j | 0 <= j < n
      ensures CRow(Shifted(a, lambda, b), i)(j).Times(x(j))
           == CRow(a, i)(j).Times(x(j)).Plus(minus.Times(CRow(b, i)(j).Times(x(j))))
    {
      ShiftTimes(a(i, j), lambda, b(i, j), x(j));
      hide Complex.Times, Complex.Plus, Complex.Minus;
    }
    CDotCombine(n, CRow(a, i), x, minus, CRow(b, i), x, CRow(Shifted(a, lambda, b), i), x);
    PlusNegated(CApply(n, a, x)(i), lambda, CApply(n, b, x)(i));
  }
}
