/** Vectors and matrices of any size over the reals, as total functions on indices.
    An inner product carries its length; a matrix is read row by row. */
module LinearAlgebra {
  import Scalars

  type Vector = int -> real
  type Matrix = (int, int) -> real

  /** The entry of a sequence seen as a total function. */
  function At(s: seq<real>, i: int): real {
    if 0 <= i < |s| then s[i] else 0.0
  }

  function AsVector(s: seq<real>): Vector {
    i => At(s, i)
  }

  function Zeros(n: nat): seq<real> {
    seq(n, i => 0.0)
  }

  function Scaled(s: real, v: seq<real>): (r: seq<real>)
    ensures |r| == |v| && forall i | 0 <= i < |v| :: r[i] == s * v[i]
  {
    seq(|v|, i requires 0 <= i < |v| => s * v[i])
  }

  function Dot(n: nat, u: Vector, v: Vector): real {
    if n == 0 then 0.0 else Dot(n - 1, u, v) + u(n - 1) * v(n - 1)
  }

  function Row(a: Matrix, i: int): Vector {
    j => a(i, j)
  }

  function Column(a: Matrix, j: int): Vector {
    i => a(i, j)
  }

  /** Entry i of the product of a matrix with n columns and a vector. */
  function Apply(n: nat, a: Matrix, x: Vector): Vector {
    i => Dot(n, Row(a, i), x)
  }

  /** Entry j of the product of the transposed matrix with n rows and a vector. */
  function ApplyTransposed(n: nat, a: Matrix, y: Vector): Vector {
    j => Dot(n, Column(a, j), y)
  }

  /** x^T M x. */
  function Quadratic(n: nat, m: Matrix, x: Vector): real {
    Dot(n, x, Apply(n, m, x))
  }

  function IdentityMatrix(): Matrix {
    (i, j) => if i == j then 1.0 else 0.0
  }

  ghost predicate Symmetric(n: nat, a: Matrix) {
    forall i, j | 0 <= i < n && 0 <= j < n :: a(i, j) == a(j, i)
  }

  lemma {:induction false} DotCongruent(n: nat, u: Vector, v: Vector, u': Vector, v': Vector)
    requires forall i | 0 <= i < n :: u(i) * v(i) == u'(i) * v'(i)
    ensures Dot(n, u, v) == Dot(n, u', v')
  {
    if n > 0 {
      DotCongruent(n - 1, u, v, u', v');
    }
  }

  lemma {:induction false} DotZero(n: nat, u: Vector, v: Vector)
    requires forall i | 0 <= i < n :: u(i) * v(i) == 0.0
    ensures Dot(n, u, v) == 0.0
  {
    if n > 0 {
      DotZero(n - 1, u, v);
    }
  }

  /** The inner product of a vector with itself vanishes only with the vector. */
  lemma {:induction false} DotSquare(n: nat, u: Vector)
    ensures Dot(n, u, u) >= 0.0
    ensures Dot(n, u, u) == 0.0 <==> forall i | 0 <= i < n :: u(i) == 0.0
  {
    if n > 0 {
      DotSquare(n - 1, u);
      assert Scalars.Sq(u(n - 1)) == u(n - 1) * u(n - 1);
    }
  }

  /** A term-by-term linear combination gives the same combination of inner products. */
  lemma {:induction false} DotCombine(n: nat, a: real, u: Vector, v: Vector, b: real, u': Vector, v': Vector,
                                      w: Vector, z: Vector)
    requires forall i | 0 <= i < n :: w(i) * z(i) == a * (u(i) * v(i)) + b * (u'(i) * v'(i))
    ensures Dot(n, w, z) == a * Dot(n, u, v) + b * Dot(n, u', v')
  {
    if n > 0 {
      DotCombine(n - 1, a, u, v, b, u', v', w, z);
    }
  }

  lemma {:induction false} DotScale(n: nat, a: real, u: Vector, v: Vector, w: Vector, z: Vector)
    requires forall i | 0 <= i < n :: w(i) * z(i) == a * (u(i) * v(i))
    ensures Dot(n, w, z) == a * Dot(n, u, v)
  {
    DotCombine(n, a, u, v, 0.0, u, v, w, z);
  }

  function Combination(p: real, u: Vector, q: real, v: Vector): Vector {
    i => p * u(i) + q * v(i)
  }

  lemma Weigh(x: real, p: real, u: real, q: real, v: real)
    ensures x * (p * u + q * v) == p * (x * u) + q * (x * v)
  {
  }

  lemma DotCombination(n: nat, x: Vector, p: real, u: Vector, q: real, v: Vector)
    ensures Dot(n, x, Combination(p, u, q, v)) == p * Dot(n, x, u) + q * Dot(n, x, v)
  {
    forall i | 0 <= i < n
      ensures x(i) * Combination(p, u, q, v)(i) == p * (x(i) * u(i)) + q * (x(i) * v(i))
    {
      Weigh(x(i), p, u(i), q, v(i));
    }
    DotCombine(n, p, x, u, q, x, v, x, Combination(p, u, q, v));
  }

  lemma Distribute(p: real, a: real, y: real, x: real)
    ensures (p + a * y) * x == 1.0 * (p * x) + y * (a * x)
  {
  }

  lemma TransposeStep(n: nat, a: Matrix, x: Vector, y: Vector, j: int)
    ensures ApplyTransposed(n + 1, a, y)(j) * x(j)
         == 1.0 * (ApplyTransposed(n, a, y)(j) * x(j)) + y(n) * (Row(a, n)(j) * x(j))
  {
    assert ApplyTransposed(n + 1, a, y)(j) == ApplyTransposed(n, a, y)(j) + a(n, j) * y(n);
    Distribute(ApplyTransposed(n, a, y)(j), a(n, j), y(n), x(j));
  }

  /** Moving a matrix across an inner product transposes it. */
  lemma {:induction false} DotTranspose(n: nat, m: nat, a: Matrix, x: Vector, y: Vector)
    ensures Dot(n, y, Apply(m, a, x)) == Dot(m, ApplyTransposed(n, a, y), x)
  {
    if n == 0 {
      DotZero(m, ApplyTransposed(0, a, y), x);
    } else {
      var k := n - 1;
      DotTranspose(k, m, a, x, y);
      forall j | 0 <= j < m {
        TransposeStep(k, a, x, y, j);
      }
      DotCombine(m, 1.0, ApplyTransposed(k, a, y), x, y(k), Row(a, k), x, ApplyTransposed(n, a, y), x);
    }
  }

  lemma DotSymmetric(n: nat, a: Matrix, x: Vector, y: Vector)
    requires Symmetric(n, a)
    ensures Dot(n, y, Apply(n, a, x)) == Dot(n, x, Apply(n, a, y))
  {
    DotTranspose(n, n, a, x, y);
    forall j | 0 <= j < n
      ensures ApplyTransposed(n, a, y)(j) == Apply(n, a, y)(j)
    {
      DotCongruent(n, Column(a, j), y, Row(a, j), y);
    }
    DotCongruent(n, ApplyTransposed(n, a, y), x, x, Apply(n, a, y));
  }

  lemma {:induction false} UnitRow(n: nat, x: Vector, d: nat)
    ensures Dot(n, Row(IdentityMatrix(), d), x) == if d < n then x(d) else 0.0
  {
    if n > 0 {
      UnitRow(n - 1, x, d);
    }
  }

  method ScaleInPlace(vec: array<real>, s: real)
    modifies vec
    ensures vec[..] == Scaled(s, old(vec[..]))
  {
    ghost var was := vec[..];
    for k := 0 to vec.Length
      invariant forall j | 0 <= j < k :: vec[j] == s * was[j]
      invariant forall j | k <= j < vec.Length :: vec[j] == was[j]
    {
      vec[k] := s * vec[k];
    }
    assert forall j | 0 <= j < |was| :: vec[..][j] == Scaled(s, was)[j];
  }

  method CopyInto(v: array<real>, u: seq<real>)
    requires |u| == v.Length
    modifies v
    ensures v[..] == u
  {
    for k := 0 to v.Length
      invariant forall j | 0 <= j < k :: v[j] == u[j]
    {
      v[k] := u[k];
    }
  }
}
