/** Assembly over elements: entries gathered from a global vector and element vectors added back into one, for any
    connectivity (elements may share dofs, and an element may list a dof twice). */
module ElementAssembly {
  import opened LinearAlgebra

  datatype Element = Element(id: nat, dofs: seq<nat>)

  predicate Within(n: nat, dofs: seq<nat>) {
    forall i | 0 <= i < |dofs| :: dofs[i] < n
  }

  ghost predicate Fits(n: nat, mesh: seq<Element>, f: Element -> seq<real>) {
    forall e <- mesh :: Within(n, e.dofs) && |f(e)| == |e.dofs|
  }

  /** The inner product of two sequences of one length. */
  function Pairing(u: seq<real>, v: seq<real>): real
    requires |u| == |v|
  {
    Dot(|u|, AsVector(u), AsVector(v))
  }

  function Gather(dofs: seq<nat>, x: seq<real>): seq<real> {
    seq(|dofs|, i requires 0 <= i < |dofs| => At(x, dofs[i]))
  }

  /** The element vector added entry by entry at the listed dofs. */
  function AddEntries(v: seq<real>, dofs: seq<nat>, vec: seq<real>): (r: seq<real>)
    requires |dofs| == |vec| && Within(|v|, dofs)
    ensures |r| == |v|
  {
    if dofs == [] then v
    else
      var k := |dofs| - 1;
      var r := AddEntries(v, dofs[..k], vec[..k]);
      r[dofs[k] := r[dofs[k]] + vec[k]]
  }

  /** The sum of the element vectors of the elements kept, each at its own dofs. */
  function Assembled(n: nat, mesh: seq<Element>, keep: Element -> bool, f: Element -> seq<real>): (r: seq<real>)
    requires Fits(n, mesh, f)
    ensures |r| == n
  {
    if mesh == [] then Zeros(n)
    else
      var k := |mesh| - 1;
      var r := Assembled(n, mesh[..k], keep, f);
      if keep(mesh[k]) then AddEntries(r, mesh[k].dofs, f(mesh[k])) else r
  }

  /** The sum of a number per element over the elements kept. */
  function Total(mesh: seq<Element>, keep: Element -> bool, g: Element -> real): real {
    if mesh == [] then 0.0
    else
      var k := |mesh| - 1;
      Total(mesh[..k], keep, g) + if keep(mesh[k]) then g(mesh[k]) else 0.0
  }

  // ---------------------------------------------------------------------------------------------
  // Gathering and adding are dual
  // ---------------------------------------------------------------------------------------------

  lemma {:induction false} DotAfterUpdate(n: nat, v: seq<real>, d: nat, a: real, y: Vector)
    requires d < |v| && n <= |v|
    ensures Dot(n, AsVector(v[d := v[d] + a]), y) == Dot(n, AsVector(v), y) + if d < n then a * y(d) else 0.0
  {
    if n > 0 {
      DotAfterUpdate(n - 1, v, d, a, y);
    }
  }

  lemma PairingLast(u: seq<real>, v: seq<real>)
    requires |u| == |v| && u != []
    ensures Pairing(u, v) == Pairing(u[..|u| - 1], v[..|u| - 1]) + u[|u| - 1] * v[|u| - 1]
  {
    var k := |u| - 1;
    DotCongruent(k, AsVector(u[..k]), AsVector(v[..k]), AsVector(u), AsVector(v));
  }

  lemma {:induction false} AddingIsDualToGathering(v: seq<real>, dofs: seq<nat>, vec: seq<real>, y: seq<real>)
    requires |dofs| == |vec| && Within(|v|, dofs) && |y| == |v|
    ensures Pairing(AddEntries(v, dofs, vec), y) == Pairing(v, y) + Pairing(vec, Gather(dofs, y))
  {
    if dofs != [] {
      var k := |dofs| - 1;
      AddingIsDualToGathering(v, dofs[..k], vec[..k], y);
      DotAfterUpdate(|v|, AddEntries(v, dofs[..k], vec[..k]), dofs[k], vec[k], AsVector(y));
      PairingLast(vec, Gather(dofs, y));
      assert Gather(dofs, y)[..k] == Gather(dofs[..k], y);
      hide Dot, Gather;
    }
  }

  /** The assembled vector pairs with y as the element vectors pair with the gathered parts of y. */
  lemma {:induction false} AssemblyIsDualToGathering(n: nat, mesh: seq<Element>, keep: Element -> bool,
                                                     f: Element -> seq<real>, y: seq<real>, g: Element -> real)
    requires Fits(n, mesh, f) && |y| == n
    requires forall e <- mesh :: g(e) == Pairing(f(e), Gather(e.dofs, y))
    ensures Pairing(Assembled(n, mesh, keep, f), y) == Total(mesh, keep, g)
  {
    hide Pairing;
    if mesh == [] {
      ZerosPair(n, y);
    } else {
      var k := |mesh| - 1;
      AssemblyIsDualToGathering(n, mesh[..k], keep, f, y, g);
      assert mesh[k] in mesh;
      AddingIsDualToGathering(Assembled(n, mesh[..k], keep, f), mesh[k].dofs, f(mesh[k]), y);
    }
  }

  lemma ZerosPair(n: nat, y: seq<real>)
    requires |y| == n
    ensures Pairing(Zeros(n), y) == 0.0 && Pairing(y, Zeros(n)) == 0.0
  {
    DotZero(n, AsVector(Zeros(n)), AsVector(y));
    DotZero(n, AsVector(y), AsVector(Zeros(n)));
  }

  // ---------------------------------------------------------------------------------------------
  // Adding in place
  // ---------------------------------------------------------------------------------------------

  method SetZero(v: array<real>)
    modifies v
    ensures v[..] == Zeros(v.Length)
  {
    for k := 0 to v.Length
      invariant forall j | 0 <= j < k :: v[j] == 0.0
    {
      v[k] := 0.0;
    }
  }

  method AddVector(v: array<real>, dofs: seq<nat>, vec: seq<real>)
    requires |dofs| == |vec| && Within(v.Length, dofs)
    modifies v
    ensures v[..] == AddEntries(old(v[..]), dofs, vec)
  {
    for i := 0 to |dofs|
      invariant v[..] == AddEntries(old(v[..]), dofs[..i], vec[..i])
    {
      assert dofs[..i + 1][..i] == dofs[..i] && vec[..i + 1][..i] == vec[..i];
      v[dofs[i]] := v[dofs[i]] + vec[i];
    }
    assert dofs[..|dofs|] == dofs && vec[..|vec|] == vec;
  }

  method GatherInto(dofs: seq<nat>, x: array<real>) returns (sol: seq<real>)
    requires Within(x.Length, dofs)
    ensures sol == Gather(dofs, x[..])
  {
    sol := [];
    for i := 0 to |dofs|
      invariant sol == Gather(dofs[..i], x[..])
    {
      sol := sol + [x[dofs[i]]];
    }
    assert dofs[..|dofs|] == dofs;
  }
}
