/** Sensitivity of the eigenvalues of a Hermitian eigenproblem, on full vectors that vanish on the condensed dofs. */
module EigenSensitivity {
  import opened LinearAlgebra

  /** (x^T A' x - lambda x^T M x) / x^T C x. The generalised problem takes B' for M and, for C, what the matrix of the
      inner product holds at the time; the standard problem takes the identity for both. */
  function Sensitivity(n: nat, c: Matrix, da: Matrix, m: Matrix, lambda: real, x: Vector): real
    requires Quadratic(n, c, x) != 0.0
  {
    (Quadratic(n, da, x) - lambda * Quadratic(n, m, x)) / Quadratic(n, c, x)
  }

  /** Row i of the eigenproblem and of its first-order perturbation. */
  predicate PerturbedRow(n: nat, a: Matrix, b: Matrix, da: Matrix, db: Matrix, lambda: real, dlambda: real,
                         x: Vector, dx: Vector, i: int)
  {
    && Apply(n, a, x)(i) == lambda * Apply(n, b, x)(i)
    && Apply(n, da, x)(i) + Apply(n, a, dx)(i)
       == dlambda * Apply(n, b, x)(i) + lambda * Apply(n, db, x)(i) + lambda * Apply(n, b, dx)(i)
  }

  /** The perturbed eigenproblem on the free rows; x and its change vanish on the others. */
  ghost predicate IsPerturbed(n: nat, a: Matrix, b: Matrix, da: Matrix, db: Matrix, lambda: real, dlambda: real,
                              x: Vector, dx: Vector)
  {
    forall i | 0 <= i < n ::
      (x(i) == 0.0 && dx(i) == 0.0) || PerturbedRow(n, a, b, da, db, lambda, dlambda, x, dx, i)
  }

  /** A relation between rows carries over to their products with x. */
  lemma ContractRows(n: nat, x: Vector, da: Vector, a: Vector, b: Vector, db: Vector, bd: Vector, dl: real, l: real)
    requires forall i | 0 <= i < n :: x(i) == 0.0 || da(i) + a(i) == dl * b(i) + l * db(i) + l * bd(i)
    ensures Dot(n, x, da) + Dot(n, x, a) == dl * Dot(n, x, b) + l * Dot(n, x, db) + l * Dot(n, x, bd)
  {
    var left := Combination(1.0, da, 1.0, a);
    var middle := Combination(dl, b, l, db);
    var right := Combination(1.0, middle, l, bd);
    forall i | 0 <= i < n
      ensures x(i) * left(i) == x(i) * right(i)
    {
      assert x(i) == 0.0 || left(i) == right(i);
    }
    DotCongruent(n, x, left, x, right);
    hide Dot, Combination;
    DotCombination(n, x, 1.0, da, 1.0, a);
    DotCombination(n, x, dl, b, l, db);
    DotCombination(n, x, 1.0, middle, l, bd);
  }

  /** For symmetric matrices the change of the eigenvector drops out. */
  lemma ChangeDropsOut(n: nat, a: Matrix, b: Matrix, da: Matrix, db: Matrix, lambda: real, dlambda: real, x: Vector,
                       dx: Vector)
    requires Symmetric(n, a) && Symmetric(n, b) && IsPerturbed(n, a, b, da, db, lambda, dlambda, x, dx)
    ensures Dot(n, x, Apply(n, a, dx)) == lambda * Dot(n, x, Apply(n, b, dx))
  {
    DotSymmetric(n, a, dx, x);
    DotSymmetric(n, b, dx, x);
    forall i | 0 <= i < n
      ensures dx(i) * Apply(n, a, x)(i) == lambda * (dx(i) * Apply(n, b, x)(i))
    {
      if dx(i) != 0.0 {
        assert PerturbedRow(n, a, b, da, db, lambda, dlambda, x, dx, i);
        hide Apply;
        assert dx(i) * (lambda * Apply(n, b, x)(i)) == lambda * (dx(i) * Apply(n, b, x)(i));
      }
    }
    DotScale(n, lambda, dx, Apply(n, b, x), dx, Apply(n, a, x));
  }

  lemma NumeratorIsForced(n: nat, a: Matrix, b: Matrix, da: Matrix, db: Matrix, lambda: real, dlambda: real, x: Vector,
                          dx: Vector)
    requires Symmetric(n, a) && Symmetric(n, b) && IsPerturbed(n, a, b, da, db, lambda, dlambda, x, dx)
    ensures Quadratic(n, da, x) - lambda * Quadratic(n, db, x) == dlambda * Quadratic(n, b, x)
  {
    hide Dot, Apply;
    ContractRows(n, x, Apply(n, da, x), Apply(n, a, dx), Apply(n, b, x), Apply(n, db, x), Apply(n, b, dx), dlambda,
                 lambda);
    ChangeDropsOut(n, a, b, da, db, lambda, dlambda, x, dx);
  }

  lemma QuotientIs(p: real, q: real, r: real)
    requires q != 0.0 && p == r * q
    ensures p / q == r
  {
    var t := p / q;
    assert t * q == p;
    assert (t - r) * q == 0.0;
  }

  /** The generalised quotient over any inner product matrix C: the forced derivative times x^T B x / x^T C x. */
  lemma SensitivityIsRescaled(n: nat, a: Matrix, b: Matrix, c: Matrix, da: Matrix, db: Matrix, lambda: real,
                              dlambda: real, x: Vector, dx: Vector)
    requires Symmetric(n, a) && Symmetric(n, b) && IsPerturbed(n, a, b, da, db, lambda, dlambda, x, dx)
    requires Quadratic(n, c, x) != 0.0
    ensures Sensitivity(n, c, da, db, lambda, x) == dlambda * (Quadratic(n, b, x) / Quadratic(n, c, x))
    ensures Sensitivity(n, c, da, db, lambda, x) == dlambda
       <==> dlambda == 0.0 || Quadratic(n, b, x) == Quadratic(n, c, x)
  {
    hide Quadratic;
    NumeratorIsForced(n, a, b, da, db, lambda, dlambda, x, dx);
    RescaledQuotient(dlambda, Quadratic(n, b, x), Quadratic(n, c, x));
  }

  lemma RescaledQuotient(d: real, p: real, q: real)
    requires q != 0.0
    ensures d * p / q == d * (p / q)
    ensures d * (p / q) == d <==> d == 0.0 || p == q
  {
    var r := p / q;
    assert r * q == p;
    QuotientIs(d * p, q, d * r);
    assert d * r == d ==> d * (r - 1.0) == 0.0;
    assert (r - 1.0) * q == p - q;
  }

  /** The generalised sensitivity is the derivative that the perturbed eigenproblem forces, while the matrix of the
      inner product is still the matrix B of the problem. */
  lemma GeneralizedSensitivityIsForced(n: nat, a: Matrix, b: Matrix, da: Matrix, db: Matrix, lambda: real,
                                       dlambda: real, x: Vector, dx: Vector)
    requires Symmetric(n, a) && Symmetric(n, b) && IsPerturbed(n, a, b, da, db, lambda, dlambda, x, dx)
    requires Quadratic(n, b, x) != 0.0
    ensures Sensitivity(n, b, da, db, lambda, x) == dlambda
  {
    SensitivityIsRescaled(n, a, b, b, da, db, lambda, dlambda, x, dx);
  }

  /** The standard sensitivity subtracts lambda x^T x although the identity does not change: it is too small by exactly
      the value it takes for the eigenvalue, so it is the forced derivative only if that value is zero. */
  lemma StandardSensitivityOffByEigenvalue(n: nat, a: Matrix, da: Matrix, lambda: real, value: real, dlambda: real,
                                           x: Vector, dx: Vector)
    requires Symmetric(n, a)
    requires IsPerturbed(n, a, IdentityMatrix(), da, (i, j) => 0.0, lambda, dlambda, x, dx)
    requires Quadratic(n, IdentityMatrix(), x) != 0.0
    ensures Sensitivity(n, IdentityMatrix(), da, IdentityMatrix(), value, x) == dlambda - value
    ensures Sensitivity(n, IdentityMatrix(), da, IdentityMatrix(), value, x) == dlambda <==> value == 0.0
  {
    hide Apply, Dot, Row, IdentityMatrix, Quadratic;
    var zero: Matrix := (i, j) => 0.0;
    var d := Quadratic(n, IdentityMatrix(), x);
    IdentityIsSymmetric(n);
    NumeratorIsForced(n, a, IdentityMatrix(), da, zero, lambda, dlambda, x, dx);
    ZeroQuadratic(n, zero, x);
    assert Quadratic(n, da, x) - value * d == (dlambda - value) * d;
    QuotientIs(Quadratic(n, da, x) - value * d, d, dlambda - value);
  }

  lemma IdentityIsSymmetric(n: nat)
    ensures Symmetric(n, IdentityMatrix())
  {
  }

  lemma ZeroQuadratic(n: nat, zero: Matrix, x: Vector)
    requires forall i, j :: zero(i, j) == 0.0
    ensures Quadratic(n, zero, x) == 0.0
  {
    forall i | 0 <= i < n
      ensures Apply(n, zero, x)(i) == 0.0
    {
      DotZero(n, Row(zero, i), x);
    }
    DotZero(n, x, Apply(n, zero, x));
  }

  /** The same parameter passed twice, for 2 x = lambda x with A' = 6 and B' = 2: the first call divides by B and gives
      the derivative 2, the second divides by B' and gives 1. */
  lemma SecondCallIsWrong()
    ensures var a: Matrix, b: Matrix, da: Matrix, db: Matrix, x: Vector, dx: Vector :=
              (i, j) => 2.0, (i, j) => 1.0, (i, j) => 6.0, (i, j) => 2.0, i => 1.0, i => 0.0;
            && Symmetric(1, a) && Symmetric(1, b) && IsPerturbed(1, a, b, da, db, 2.0, 2.0, x, dx)
            && Quadratic(1, b, x) == 1.0 && Sensitivity(1, b, da, db, 2.0, x) == 2.0
            && Quadratic(1, db, x) == 2.0 && Sensitivity(1, db, da, db, 2.0, x) == 1.0
  {
    var a: Matrix, b: Matrix, da: Matrix, db: Matrix, x: Vector, dx: Vector :=
      (i, j) => 2.0, (i, j) => 1.0, (i, j) => 6.0, (i, j) => 2.0, i => 1.0, i => 0.0;
    OneEntry(a, x);
    OneEntry(b, x);
    OneEntry(da, x);
    OneEntry(db, x);
    OneEntry(a, dx);
    OneEntry(b, dx);
    assert PerturbedRow(1, a, b, da, db, 2.0, 2.0, x, dx, 0);
  }

  lemma OneEntry(m: Matrix, x: Vector)
    ensures Apply(1, m, x)(0) == m(0, 0) * x(0)
    ensures Quadratic(1, m, x) == x(0) * (m(0, 0) * x(0))
  {
  }
}
