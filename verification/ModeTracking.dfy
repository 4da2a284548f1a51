/** Greedy matching of the modes of a new eigensolution to those of the previous one. */
module ModeTracking {

  /** A match score, squared. Dividing by a zero eigenvalue distance gives an infinite score, or an
      undefined one (not a number) when the product itself is zero. */
  datatype Score = Finite(value: real) | Infinite | Undefined

  /** The `>` of IEEE arithmetic: an undefined score neither exceeds nor is exceeded. */
  predicate Exceeds(a: Score, b: Score) {
    match (a, b)
    case (Finite(x), Finite(y)) => x > y
    case (Infinite, Finite(_)) => true
    case _ => false
  }

  const NO_SCORE := Finite(0.0)

  type Scoring<!R> = (R, R) -> Score

  /** The running maximum after looking at candidates i .. j-1: its score and its position, which starts
      as the last one. */
  function BestSoFar<R>(score: Scoring<R>, prev: R, cur: seq<R>, i: nat, j: nat): (best: (Score, nat))
    requires i <= j <= |cur| && |cur| > 0
    ensures best.1 < |cur| && (i < |cur| ==> i <= best.1)
    decreases j
  {
    if j == i then (NO_SCORE, |cur| - 1)
    else
      var best := BestSoFar(score, prev, cur, i, j - 1);
      if Exceeds(score(prev, cur[j - 1]), best.0) then (score(prev, cur[j - 1]), j - 1) else best
  }

  /** The position the matching picks for `prev` among the candidates from position i on. */
  function BestMatch<R>(score: Scoring<R>, prev: R, cur: seq<R>, i: nat): (m: nat)
    requires i < |cur|
    ensures i <= m < |cur|
  {
    BestSoFar(score, prev, cur, i, |cur|).1
  }

  function Swap<R>(s: seq<R>, i: nat, j: nat): (r: seq<R>)
    requires i < |s| && j < |s|
    ensures |r| == |s| && r[i] == s[j] && r[j] == s[i]
    ensures forall k | 0 <= k < |s| && k != i && k != j :: r[k] == s[k]
  {
    s[i := s[j]][j := s[i]]
  }

  /** The order of `cur` once positions i, i+1, ... have been matched in turn. */
  function Tracked<R>(score: Scoring<R>, prev: seq<R>, cur: seq<R>, i: nat): (r: seq<R>)
    requires |prev| == |cur| && i <= |cur|
    ensures |r| == |cur| && r[..i] == cur[..i]
    decreases |cur| - i
  {
    if i + 1 >= |cur| then cur
    else
      var next := Swap(cur, i, BestMatch(score, prev[i], cur, i));
      assert next[..i] == cur[..i];
      var r := Tracked(score, prev, next, i + 1);
      assert r[..i] == r[..i + 1][..i];
      r
  }

  // ---------------------------------------------------------------------------------------------

  /** The pick is not exceeded by any candidate. */
  lemma {:induction false} BestSoFarDominates<R>(score: Scoring<R>, prev: R, cur: seq<R>, i: nat, j: nat)
    requires i <= j <= |cur| && |cur| > 0
    ensures var best := BestSoFar(score, prev, cur, i, j);
            && (forall k | i <= k < j :: !Exceeds(score(prev, cur[k]), best.0))
            && (if Exceeds(best.0, NO_SCORE) then best.0 == score(prev, cur[best.1])
                else best == (NO_SCORE, |cur| - 1))
            && (best.0.Finite? ==> best.0.value >= 0.0)
            && best.0 != Undefined
  {
    if j > i {
      BestSoFarDominates(score, prev, cur, i, j - 1);
    }
  }

  ghost predicate NonNegative<R(!new)>(score: Scoring<R>) {
    forall p, c :: score(p, c).Finite? ==> score(p, c).value >= 0.0
  }

  lemma BestMatchDominates<R(!new)>(score: Scoring<R>, prev: R, cur: seq<R>, i: nat, k: nat)
    requires NonNegative(score)
    requires i <= k < |cur|
    ensures !Exceeds(score(prev, cur[k]), score(prev, cur[BestMatch(score, prev, cur, i)]))
  {
    BestSoFarDominates(score, prev, cur, i, |cur|);
  }

  lemma SwapPermutes<R>(s: seq<R>, i: nat, j: nat)
    requires i < |s| && j < |s|
    ensures multiset(Swap(s, i, j)) == multiset(s)
  {
  }

  /** Positions before i are settled; position i holds the pick among the rest. */
  lemma {:induction false} TrackedPermutes<R>(score: Scoring<R>, prev: seq<R>, cur: seq<R>, i: nat)
    requires |prev| == |cur| && i <= |cur|
    ensures multiset(Tracked(score, prev, cur, i)) == multiset(cur)
    decreases |cur| - i
  {
    if i + 1 < |cur| {
      var m := BestMatch(score, prev[i], cur, i);
      SwapPermutes(cur, i, m);
      TrackedPermutes(score, prev, Swap(cur, i, m), i + 1);
    }
  }

  lemma SuffixPermutes<R>(s: seq<R>, t: seq<R>, i: nat)
    requires |s| == |t| && i <= |s| && s[..i] == t[..i] && multiset(s) == multiset(t)
    ensures multiset(s[i..]) == multiset(t[i..])
  {
    assert s == s[..i] + s[i..] && t == t[..i] + t[i..];
    assert multiset(s[i..]) == multiset(s) - multiset(s[..i]);
    assert multiset(t[i..]) == multiset(t) - multiset(t[..i]);
  }

  /** After tracking, the root at position i scores at least as high against previous root i as any
      root at a later position does. */
  lemma {:induction false} TrackedDominates<R(!new)>(score: Scoring<R>, prev: seq<R>, cur: seq<R>, i: nat, p: nat,
                                                     k: nat)
    requires NonNegative(score)
    requires |prev| == |cur| && i <= p < k < |cur|
    ensures var r := Tracked(score, prev, cur, i); !Exceeds(score(prev[p], r[k]), score(prev[p], r[p]))
    decreases |cur| - i
  {
    var m := BestMatch(score, prev[i], cur, i);
    var next := Swap(cur, i, m);
    if p > i {
      TrackedDominates(score, prev, next, i + 1, p, k);
    } else {
      var r := Tracked(score, prev, cur, i);
      assert r == Tracked(score, prev, next, i + 1);
      assert r[i] == r[..i + 1][i] == next[i] == cur[m];
      TrackedPermutes(score, prev, cur, i);
      SuffixPermutes(r, cur, i);
      assert r[k] == r[i..][k - i];
      assert r[k] in multiset(cur[i..]);
      var j :| 0 <= j < |cur[i..]| && cur[i..][j] == r[k];
      BestMatchDominates(score, prev[i], cur, i, i + j);
    }
  }

  /** Previous root i strictly prefers its partner to every other new root. */
  ghost predicate StrictlyPrefers<R>(score: Scoring<R>, prev: seq<R>, partner: seq<R>)
    requires |prev| == |partner|
  {
    && (forall i | 0 <= i < |prev| :: Exceeds(score(prev[i], partner[i]), NO_SCORE))
    && (forall i, j | 0 <= i < |prev| && 0 <= j < |prev| && i != j ::
          score(prev[i], partner[j]).Undefined? || Exceeds(score(prev[i], partner[i]), score(prev[i], partner[j])))
  }

  lemma PicksPartner<R(!new)>(score: Scoring<R>, prev: seq<R>, cur: seq<R>, i: nat, partner: seq<R>)
    requires NonNegative(score)
    requires |prev| == |cur| == |partner| && i < |cur|
    requires StrictlyPrefers(score, prev, partner)
    requires multiset(cur[i..]) == multiset(partner[i..])
    ensures cur[BestMatch(score, prev[i], cur, i)] == partner[i]
  {
    assert partner[i..][0] == partner[i];
    assert partner[i] in multiset(cur[i..]);
    var a :| 0 <= a < |cur[i..]| && cur[i..][a] == partner[i];
    BestMatchDominates(score, prev[i], cur, i, i + a);
    var m := BestMatch(score, prev[i], cur, i);
    assert cur[i..][m - i] == cur[m];
    assert cur[m] in multiset(partner[i..]);
    var b :| 0 <= b < |partner[i..]| && partner[i..][b] == cur[m];
    BestSoFarDominates(score, prev[i], cur, i, |cur|);
    assert cur[m] == partner[i + b];
    assert b == 0;
  }

  /** If each previous root strictly prefers its own partner, tracking recovers the partners in order,
      whatever order the new roots came in. */
  lemma {:induction false} TrackedRecovers<R(!new)>(score: Scoring<R>, prev: seq<R>, cur: seq<R>, i: nat,
                                                    partner: seq<R>)
    requires NonNegative(score)
    requires |prev| == |cur| == |partner| && i <= |cur|
    requires StrictlyPrefers(score, prev, partner)
    requires cur[..i] == partner[..i] && multiset(cur) == multiset(partner)
    ensures Tracked(score, prev, cur, i) == partner
    decreases |cur| - i
  {
    hide BestMatch, StrictlyPrefers, NonNegative;
    SuffixPermutes(cur, partner, i);
    if i + 1 < |cur| {
      var m := BestMatch(score, prev[i], cur, i);
      PicksPartner(score, prev, cur, i, partner);
      var next := Swap(cur, i, m);
      SwapPermutes(cur, i, m);
      assert next[..i + 1] == partner[..i + 1];
      TrackedRecovers(score, prev, next, i + 1, partner);
    } else if i < |cur| {
      SameLast(cur, partner, i);
    }
  }

  /** The three properties of a whole matching. */
  lemma TrackedFromStart<R(!new)>(score: Scoring<R>, prev: seq<R>, cur: seq<R>)
    requires NonNegative(score) && |prev| == |cur|
    ensures var r := Tracked(score, prev, cur, 0);
            && multiset(r) == multiset(cur)
            && (forall p, k | 0 <= p < k < |r| :: !Exceeds(score(prev[p], r[k]), score(prev[p], r[p])))
            && (forall partner: seq<R> |
                  |partner| == |prev| && StrictlyPrefers(score, prev, partner) && multiset(cur) == multiset(partner) ::
                  r == partner)
  {
    hide Tracked, StrictlyPrefers;
    var r := Tracked(score, prev, cur, 0);
    TrackedPermutes(score, prev, cur, 0);
    forall p, k | 0 <= p < k < |r|
      ensures !Exceeds(score(prev[p], r[k]), score(prev[p], r[p]))
    {
      TrackedDominates(score, prev, cur, 0, p, k);
    }
    forall partner: seq<R> |
      |partner| == |prev| && StrictlyPrefers(score, prev, partner) && multiset(cur) == multiset(partner)
      ensures r == partner
    {
      TrackedRecovers(score, prev, cur, 0, partner);
    }
  }

  lemma SameLast<R>(s: seq<R>, t: seq<R>, i: nat)
    requires |s| == |t| == i + 1 && s[..i] == t[..i] && multiset(s[i..]) == multiset(t[i..])
    ensures s == t
  {
    assert s[i..] == [s[i]] && t[i..] == [t[i]];
    assert multiset([s[i]])[s[i]] == 1;
    assert s == s[..i] + [s[i]] && t == t[..i] + [t[i]];
  }
}
