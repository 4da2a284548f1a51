/** The eigensolution objects: initialisation, in-place tracking and the queries on the stored roots. */
module FlutterSolutions {
  import opened ComplexAlgebra
  import opened ModeTracking
  import opened FlutterRoots

  class TimeDomainFlutterSolution {
    var refVal: real
    var size: nat
    var Bmat: CMatrix
    var roots: seq<FlutterRoot>

    constructor (vRef: real, eig: EigenSolution)
      ensures refVal == vRef && size == eig.size && Bmat == eig.B
      ensures roots == TimeDomainRoots(vRef, eig)
    {
      refVal, size, Bmat := vRef, eig.size, eig.B;
      roots := [];
      new;
      for i := 0 to |eig.triples|
        invariant refVal == vRef && size == eig.size && Bmat == eig.B
        invariant |roots| == i && forall k | 0 <= k < i :: roots[k] == TimeDomainRoot(vRef, eig.triples[k])
      {
        roots := roots + [TimeDomainRoot(vRef, eig.triples[i])];
      }
    }

    /** The inner loop of `Sort`: the position of the best match for r among roots i, i+1, ... */
    method MatchFor(r: FlutterRoot, i: nat) returns (maxValRoot: nat)
      requires i < |roots|
      ensures maxValRoot == BestMatch(SymmetricScore(size, Bmat), r, roots, i)
    {
      hide LeftProduct, Quotient;
      var maxVal := NO_SCORE;
      maxValRoot := |roots| - 1;
      for j := i to |roots|
        invariant (maxVal, maxValRoot) == BestSoFar(SymmetricScore(size, Bmat), r, roots, i, j)
      {
        var product := LeftProduct(size, Bmat, r, roots[j]).Plus(LeftProduct(size, Bmat, roots[j], r)).Scaled(0.5);
        var val := Quotient(product, r.root.Minus(roots[j].root));
        assert val == SymmetricScore(size, Bmat)(r, roots[j]);
        if Exceeds(val, maxVal) {
          maxVal, maxValRoot := val, j;
        }
      }
    }

    /** Reorders the roots in place so that each takes the position of the previous root it matches: no root is lost, no
        later root scores higher at a position, and roots with strict preferences all find their partners. */
    method Sort(prev: seq<FlutterRoot>)
      requires |roots| == |prev| > 0
      modifies this`roots
      ensures roots == Tracked(SymmetricScore(size, Bmat), prev, old(roots), 0)
      ensures multiset(roots) == multiset(old(roots))
      ensures var score := SymmetricScore(size, Bmat);
              forall p, k | 0 <= p < k < |roots| :: !Exceeds(score(prev[p], roots[k]), score(prev[p], roots[p]))
      ensures forall partner: seq<FlutterRoot> |
                && |partner| == |prev|
                && StrictlyPrefers(SymmetricScore(size, Bmat), prev, partner)
                && multiset(old(roots)) == multiset(partner) ::
                roots == partner
    {
      hide LeftProduct, Quotient;
      ghost var score := SymmetricScore(size, Bmat);
      ghost var target := Tracked(score, prev, roots, 0);
      var nvals := |roots|;
      for i := 0 to nvals - 1
        invariant |roots| == nvals
        invariant Tracked(score, prev, roots, i) == target
      {
        var maxValRoot := MatchFor(prev[i], i);
        if i != maxValRoot {
          roots := Swap(roots, i, maxValRoot);
        } else {
          assert Swap(roots, i, i) == roots;
        }
      }
      ScoresNonNegative(size, Bmat);
      TrackedFromStart(score, prev, old(roots));
    }

    method NUnstableRootsInUpperComplexHalf(tol: real) returns (n: nat)
      ensures n == CountUnstable(tol, roots, |roots|)
      ensures n == |set i: int | 0 <= i < |roots| && roots[i].root.im >= 0.0 && roots[i].root.re >= tol|
      ensures n > 0 <==> exists r :: r in roots && InUpperHalf(r) && r.root.re >= tol
    {
      n := 0;
      for i := 0 to |roots|
        invariant n == CountUnstable(tol, roots, i)
      {
        if roots[i].root.im >= 0.0 && roots[i].root.re >= tol {
          n := n + 1;
        }
      }
      CountIsZero(tol, roots, |roots|);
      CountIsCardinality(tol, roots, |roots|);
    }

    /** The position of the critical root in the list, or -1 for a null pointer. */
    method GetCriticalRoot(tol: real) returns (c: int)
      ensures c == CriticalIndex(tol, roots) && IsCritical(tol, roots, c)
      ensures c < 0 <==> forall r | r in roots :: r.root.im < 0.0
    {
      var unstable, maxG := -1, -1;
      for i := 0 to |roots|
        invariant unstable == LowestUnstable(tol, roots, i)
        invariant maxG == LargestReal(roots, i)
      {
        var it := roots[i];
        if it.root.im >= 0.0 {
          if maxG < 0 {
            maxG := i;
          } else if it.root.re >= roots[maxG].root.re {
            maxG := i;
          }
          if it.root.re >= tol && it.V > 0.0 {
            if unstable < 0 {
              unstable := i;
            } else if it.V <= roots[unstable].V {
              unstable := i;
            }
          }
        }
      }
      CountAndCriticalAgree(tol, roots);
      CriticalIndexIsCritical(tol, roots);
      c := if unstable >= 0 then unstable else maxG;
    }
  }

  class UGFlutterSolution {
    var refVal: real
    var size: nat
    var Bmat: CMatrix
    var roots: seq<FlutterRoot>

    constructor (sqrt: real -> real, krRef: real, bRef: real, eig: EigenSolution)
      requires bRef != 0.0
      ensures refVal == krRef && size == eig.size && Bmat == eig.B
      ensures |roots| == |eig.triples|
      ensures forall k | 0 <= k < |roots| :: roots[k] == UGRoot(sqrt, krRef, bRef, eig.triples[k])
    {
      refVal, size, Bmat := krRef, eig.size, eig.B;
      roots := [];
      new;
      for i := 0 to |eig.triples|
        invariant refVal == krRef && size == eig.size && Bmat == eig.B
        invariant |roots| == i && forall k | 0 <= k < i :: roots[k] == UGRoot(sqrt, krRef, bRef, eig.triples[k])
      {
        roots := roots + [UGRoot(sqrt, krRef, bRef, eig.triples[i])];
      }
    }

    /** The inner loop of `Sort`: the position of the best match for r among roots i, i+1, ... */
    method MatchFor(r: FlutterRoot, i: nat) returns (maxValRoot: nat)
      requires i < |roots|
      ensures maxValRoot == BestMatch(OneSidedScore(size, Bmat), r, roots, i)
    {
      hide LeftProduct, Quotient;
      var maxVal := NO_SCORE;
      maxValRoot := |roots| - 1;
      for j := i to |roots|
        invariant (maxVal, maxValRoot) == BestSoFar(OneSidedScore(size, Bmat), r, roots, i, j)
      {
        var val := Quotient(LeftProduct(size, Bmat, r, roots[j]), r.root.Minus(roots[j].root));
        assert val == OneSidedScore(size, Bmat)(r, roots[j]);
        if Exceeds(val, maxVal) {
          maxVal, maxValRoot := val, j;
        }
      }
    }

    /** The one-sided variant; it swaps even when the root is already in place. */
    method Sort(prev: seq<FlutterRoot>)
      requires |roots| == |prev| > 0
      modifies this`roots
      ensures roots == Tracked(OneSidedScore(size, Bmat), prev, old(roots), 0)
      ensures multiset(roots) == multiset(old(roots))
      ensures var score := OneSidedScore(size, Bmat);
              forall p, k | 0 <= p < k < |roots| :: !Exceeds(score(prev[p], roots[k]), score(prev[p], roots[p]))
      ensures forall partner: seq<FlutterRoot> |
                && |partner| == |prev|
                && StrictlyPrefers(OneSidedScore(size, Bmat), prev, partner)
                && multiset(old(roots)) == multiset(partner) ::
                roots == partner
    {
      hide LeftProduct, Quotient;
      ghost var score := OneSidedScore(size, Bmat);
      ghost var target := Tracked(score, prev, roots, 0);
      var nvals := |roots|;
      for i := 0 to nvals - 1
        invariant |roots| == nvals
        invariant Tracked(score, prev, roots, i) == target
      {
        var maxValRoot := MatchFor(prev[i], i);
        roots := Swap(roots, i, maxValRoot);
      }
      ScoresNonNegative(size, Bmat);
      TrackedFromStart(score, prev, old(roots));
    }
  }
}
