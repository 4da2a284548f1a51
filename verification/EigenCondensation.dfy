/** Condensation of an eigenproblem to the free dofs, scatter of the condensed eigenvectors to full vectors, and
    normalisation. */
module EigenCondensation {
  import opened LinearAlgebra

  ghost predicate Ascending(free: seq<nat>) {
    forall j, k | 0 <= j < k < |free| :: free[j] < free[k]
  }

  /** The rows and columns listed in free. */
  function Submatrix(a: Matrix, free: seq<nat>): Matrix {
    (j, k) => if 0 <= j < |free| && 0 <= k < |free| then a(free[j], free[k]) else 0.0
  }

  /** The full vector with the condensed entries at the free dofs and zeros elsewhere. */
  function Scatter(n: nat, free: seq<nat>, x: seq<real>): (v: seq<real>)
    requires |free| == |x| && forall j | 0 <= j < |free| :: free[j] < n
    ensures |v| == n
  {
    if free == [] then Zeros(n)
    else Scatter(n, free[..|free| - 1], x[..|x| - 1])[free[|free| - 1] := x[|x| - 1]]
  }

  /** A x = mu B x on the first n rows. */
  ghost predicate Solves(n: nat, a: Matrix, b: Matrix, mu: real, x: seq<real>) {
    forall i | 0 <= i < n :: Apply(n, a, AsVector(x))(i) == mu * Apply(n, b, AsVector(x))(i)
  }

  // ---------------------------------------------------------------------------------------------
  // Scattering
  // ---------------------------------------------------------------------------------------------

  lemma {:induction false} ScatterEntries(n: nat, free: seq<nat>, x: seq<real>)
    requires |free| == |x| && Ascending(free) && forall j | 0 <= j < |free| :: free[j] < n
    ensures forall d | 0 <= d < n && d !in free :: Scatter(n, free, x)[d] == 0.0
    ensures forall j | 0 <= j < |free| :: Scatter(n, free, x)[free[j]] == x[j]
  {
    if free != [] {
      var init := free[..|free| - 1];
      ScatterEntries(n, init, x[..|x| - 1]);
      assert forall d | d in init :: d in free;
      assert forall j | 0 <= j < |init| :: init[j] != free[|free| - 1];
    }
  }

  lemma {:induction false} DotUpdate(n: nat, u: Vector, v: seq<real>, d: nat, val: real)
    requires d < |v| && v[d] == 0.0 && n <= |v|
    ensures Dot(n, u, AsVector(v[d := val])) == Dot(n, u, AsVector(v)) + if d < n then u(d) * val else 0.0
  {
    if n > 0 {
      DotUpdate(n - 1, u, v, d, val);
    }
  }

  /** An inner product with a scattered vector is the inner product of the free entries. */
  lemma {:induction false} DotScatter(n: nat, free: seq<nat>, x: seq<real>, u: Vector, w: Vector)
    requires |free| == |x| && Ascending(free) && forall j | 0 <= j < |free| :: free[j] < n
    requires forall j | 0 <= j < |free| :: w(j) == u(free[j])
    ensures Dot(n, u, AsVector(Scatter(n, free, x))) == Dot(|free|, w, AsVector(x))
  {
    hide Dot, Scatter;
    if free == [] {
      DotNothing(n, u, w, x);
    } else {
      var m := |free| - 1;
      DotScatter(n, free[..m], x[..m], u, w);
      assert w(m) == u(free[m]);
      ScatterLast(n, free, x);
      DotUpdate(n, u, Scatter(n, free[..m], x[..m]), free[m], x[m]);
      DotLast(m, w, x);
    }
  }

  lemma DotNothing(n: nat, u: Vector, w: Vector, x: seq<real>)
    ensures Dot(n, u, AsVector(Scatter(n, [], []))) == 0.0 && Dot(0, w, AsVector(x)) == 0.0
  {
    DotZero(n, u, AsVector(Zeros(n)));
  }

  lemma ScatterLast(n: nat, free: seq<nat>, x: seq<real>)
    requires 0 < |free| == |x| && Ascending(free) && forall j | 0 <= j < |free| :: free[j] < n
    ensures var m := |free| - 1;
            var v := Scatter(n, free[..m], x[..m]);
            Scatter(n, free, x) == v[free[m] := x[m]] && v[free[m]] == 0.0
  {
    var m := |free| - 1;
    ScatterEntries(n, free[..m], x[..m]);
    assert free[m] !in free[..m];
  }

  lemma DotLast(m: nat, w: Vector, x: seq<real>)
    requires |x| == m + 1
    ensures Dot(m + 1, w, AsVector(x)) == Dot(m, w, AsVector(x[..m])) + w(m) * x[m]
  {
    DotCongruent(m, w, AsVector(x[..m]), w, AsVector(x));
  }

  lemma LiftRow(n: nat, free: seq<nat>, a: Matrix, x: seq<real>, j: nat)
    requires |free| == |x| && Ascending(free) && forall j | 0 <= j < |free| :: free[j] < n
    requires j < |free|
    ensures Apply(n, a, AsVector(Scatter(n, free, x)))(free[j]) == Apply(|free|, Submatrix(a, free), AsVector(x))(j)
  {
    hide Dot, Scatter;
    DotScatter(n, free, x, Row(a, free[j]), Row(Submatrix(a, free), j));
  }

  /** A condensed eigenvector scattered to all dofs satisfies A v = mu B v on every free row. */
  lemma LiftSolves(n: nat, free: seq<nat>, a: Matrix, b: Matrix, mu: real, x: seq<real>)
    requires |free| == |x| && Ascending(free) && forall j | 0 <= j < |free| :: free[j] < n
    requires Solves(|free|, Submatrix(a, free), Submatrix(b, free), mu, x)
    ensures var v := AsVector(Scatter(n, free, x));
            forall d | d in free :: Apply(n, a, v)(d) == mu * Apply(n, b, v)(d)
  {
    hide Dot, Scatter, Submatrix, Apply, AsVector;
    var v := AsVector(Scatter(n, free, x));
    forall d | d in free
      ensures Apply(n, a, v)(d) == mu * Apply(n, b, v)(d)
    {
      var j :| 0 <= j < |free| && free[j] == d;
      LiftRow(n, free, a, x, j);
      LiftRow(n, free, b, x, j);
      assert Apply(|free|, Submatrix(a, free), AsVector(x))(j)
             == mu * Apply(|free|, Submatrix(b, free), AsVector(x))(j);
    }
  }

  lemma ScaledRow(n: nat, u: Vector, v: seq<real>, s: real)
    requires n <= |v|
    ensures Dot(n, u, AsVector(Scaled(s, v))) == s * Dot(n, u, AsVector(v))
  {
    DotScale(n, s, u, AsVector(v), u, AsVector(Scaled(s, v)));
  }

  /** Scaling keeps the row equation. */
  lemma ScaledSolves(n: nat, a: Matrix, b: Matrix, mu: real, v: seq<real>, s: real, d: int)
    requires n <= |v| && Apply(n, a, AsVector(v))(d) == mu * Apply(n, b, AsVector(v))(d)
    ensures Apply(n, a, AsVector(Scaled(s, v)))(d) == mu * Apply(n, b, AsVector(Scaled(s, v)))(d)
  {
    ScaledRow(n, Row(a, d), v, s);
    ScaledRow(n, Row(b, d), v, s);
    var p := Apply(n, b, AsVector(v))(d);
    assert s * (mu * p) == mu * (s * p);
  }

  /** v^T B v. */
  function Norm(n: nat, b: Matrix, v: seq<real>): real {
    Quadratic(n, b, AsVector(v))
  }

  lemma NormScales(n: nat, b: Matrix, v: seq<real>, s: real)
    requires n <= |v|
    ensures Norm(n, b, Scaled(s, v)) == s * s * Norm(n, b, v)
  {
    hide Dot;
    var w := Scaled(s, v);
    forall i | 0 <= i < n
      ensures AsVector(w)(i) * Apply(n, b, AsVector(w))(i) == (s * s) * (AsVector(v)(i) * Apply(n, b, AsVector(v))(i))
    {
      ScaledTerm(n, b, v, s, i);
    }
    DotScale(n, s * s, AsVector(v), Apply(n, b, AsVector(v)), AsVector(w), Apply(n, b, AsVector(w)));
  }

  lemma ScaledTerm(n: nat, b: Matrix, v: seq<real>, s: real, i: nat)
    requires i < n <= |v|
    ensures var w := Scaled(s, v);
            AsVector(w)(i) * Apply(n, b, AsVector(w))(i) == (s * s) * (AsVector(v)(i) * Apply(n, b, AsVector(v))(i))
  {
    hide Dot;
    ScaledRow(n, Row(b, i), v, s);
    Regroup(s, v[i], Apply(n, b, AsVector(v))(i));
  }

  lemma Regroup(s: real, x: real, y: real)
    ensures (s * x) * (s * y) == (s * s) * (x * y)
  {
  }

  lemma NormOfIdentity(n: nat, v: seq<real>)
    requires n <= |v|
    ensures Norm(n, IdentityMatrix(), v) == Dot(n, AsVector(v), AsVector(v))
    ensures forall d | 0 <= d < n :: Apply(n, IdentityMatrix(), AsVector(v))(d) == v[d]
  {
    forall d | 0 <= d < n
      ensures Apply(n, IdentityMatrix(), AsVector(v))(d) == v[d]
    {
      UnitRow(n, AsVector(v), d);
    }
    DotCongruent(n, AsVector(v), Apply(n, IdentityMatrix(), AsVector(v)), AsVector(v), AsVector(v));
  }

  lemma CondensedIdentity(free: seq<nat>, a: Matrix, mu: real, x: seq<real>)
    requires Ascending(free) && |x| == |free| && Solves(|free|, Submatrix(a, free), IdentityMatrix(), mu, x)
    ensures Solves(|free|, Submatrix(a, free), Submatrix(IdentityMatrix(), free), mu, x)
  {
    forall i | 0 <= i < |free|
      ensures Apply(|free|, Submatrix(a, free), AsVector(x))(i)
           == mu * Apply(|free|, Submatrix(IdentityMatrix(), free), AsVector(x))(i)
    {
      assert Apply(|free|, Submatrix(a, free), AsVector(x))(i) == mu * Apply(|free|, IdentityMatrix(), AsVector(x))(i);
      assert forall j | 0 <= j < |free| && j != i :: free[j] != free[i];
      DotCongruent(|free|, Row(IdentityMatrix(), i), AsVector(x), Row(Submatrix(IdentityMatrix(), free), i),
                   AsVector(x));
    }
  }
}
