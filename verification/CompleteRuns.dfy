/** Whole runs of searches with one tolerance and iteration limit: exactly when an insertion fails, which roots a run
    finds in whatever order its calls come, and which crossovers a search for the critical root evaluates. */
module CompleteRuns {
  import opened ComplexAlgebra
  import opened OrderedContainers
  import opened FlutterRoots
  import opened RegulaFalsi
  import opened CrossoverSearch

  ghost predicate Uniform(calls: seq<Call>, gTol: real, iters: nat) {
    gTol >= 0.0 && iters > 0 && forall c | c in calls :: c.gTol == gTol && c.iters == iters
  }

  /** The parameter values that a search still has to analyse for a crossover: none once it is evaluated. */
  function Planned(env: Analysis, c: Crossover, gTol: real, iters: nat): seq<real> {
    if WellFormed(env, c) && c.root.None? && gTol >= 0.0 then TrialsFor(env, c, gTol, iters) else []
  }

  ghost predicate Hits(t: seq<real>, sols: seq<Pair<Solution>>) {
    exists v: real :: v in t && HasKey(sols, v)
  }

  ghost predicate Shares(t: seq<real>, u: seq<real>) {
    exists v: real :: v in t && v in u
  }

  /** A crossover is to be analysed where a solution is already stored. */
  ghost predicate SomeHit(env: Analysis, cs: seq<Pair<Crossover>>, sols: seq<Pair<Solution>>, gTol: real, iters: nat) {
    exists i :: 0 <= i < |cs| && Hits(Planned(env, cs[i].val, gTol, iters), sols)
  }

  /** Two crossovers are to be analysed at one parameter value. */
  ghost predicate SomeShare(env: Analysis, cs: seq<Pair<Crossover>>, gTol: real, iters: nat) {
    exists i, j :: 0 <= i < |cs| && 0 <= j < |cs| && i != j
                   && Shares(Planned(env, cs[i].val, gTol, iters), Planned(env, cs[j].val, gTol, iters))
  }

  /** An insertion has failed, or one of the evaluations to come will fail one. */
  ghost predicate Clashes(env: Analysis, s: SearchState, gTol: real, iters: nat) {
    || s.assertFailed
    || SomeHit(env, s.crossovers, s.solutions, gTol, iters)
    || SomeShare(env, s.crossovers, gTol, iters)
  }

  // ---------------------------------------------------------------------------------------------
  // When an insertion fails
  // ---------------------------------------------------------------------------------------------

  /** What one evaluation does to the stored keys, to the assertion and to the entries. */
  lemma EvaluateStep(env: Analysis, s: SearchState, i: nat, gTol: real, iters: nat)
    requires Valid(env, s) && i < |s.crossovers| && s.crossovers[i].val.root.None? && gTol >= 0.0 && iters > 0
    requires EndsStored(s.crossovers, s.solutions)
    ensures var c := s.crossovers[i].val;
            var t := Planned(env, c, gTol, iters);
            var r := Evaluate(env, s, i, gTol, iters);
            var root := RootFor(env, c, gTol, iters);
            && r.crossovers == Insert(RemoveAt(s.crossovers, i), Pair(root.V, c.(root := Some(root))))
            && (r.assertFailed <==> s.assertFailed || Hits(t, s.solutions))
            && (forall v: real :: HasKey(r.solutions, v) <==> HasKey(s.solutions, v) || v in t)
  {
    hide Insert, RemoveAt, RootFor, RecordAll, HasKey;
    var c := s.crossovers[i].val;
    var t := TrialsFor(env, c, gTol, iters);
    RecordKeys(env, c.lower.roots, s.solutions, t);
    InsertionFailsExactly(env, s, i, gTol, iters);
  }

  lemma StillThereTwo(cs: seq<Pair<Crossover>>, i: nat, e: Pair<Crossover>, a: nat, b: nat) returns (q: nat, q': nat)
    requires i < |cs| && a < |cs| && b < |cs| && a != i && b != i && a != b
    ensures var r := Insert(RemoveAt(cs, i), e); q < |r| && q' < |r| && q != q' && r[q] == cs[a] && r[q'] == cs[b]
  {
    hide UpperBound;
    var p := UpperBound(RemoveAt(cs, i), e.key);
    var m, m' := if a < i then a else a - 1, if b < i then b else b - 1;
    q := if m < p then m else m + 1;
    q' := if m' < p then m' else m' + 1;
  }

  /** Entry i has been analysed, its values are stored, and it was moved as entry e. */
  ghost predicate Analysed(env: Analysis, cs: seq<Pair<Crossover>>, i: nat, e: Pair<Crossover>,
                           sols: seq<Pair<Solution>>, sols': seq<Pair<Solution>>, gTol: real, iters: nat)
  {
    && i < |cs| && Planned(env, e.val, gTol, iters) == []
    && forall v: real :: HasKey(sols', v) <==> HasKey(sols, v) || v in Planned(env, cs[i].val, gTol, iters)
  }

  /** A clash before is there afterwards, unless it was that of entry i with the stored solutions. */
  lemma ClashStays(env: Analysis, cs: seq<Pair<Crossover>>, i: nat, e: Pair<Crossover>, sols: seq<Pair<Solution>>,
                   sols': seq<Pair<Solution>>, gTol: real, iters: nat)
    requires Analysed(env, cs, i, e, sols, sols', gTol, iters)
    requires SomeHit(env, cs, sols, gTol, iters) || SomeShare(env, cs, gTol, iters)
    requires !Hits(Planned(env, cs[i].val, gTol, iters), sols)
    ensures var r := Insert(RemoveAt(cs, i), e); SomeHit(env, r, sols', gTol, iters) || SomeShare(env, r, gTol, iters)
  {
    hide Insert, RemoveAt, Planned, HasKey;
    var r := Insert(RemoveAt(cs, i), e);
    if SomeHit(env, cs, sols, gTol, iters) {
      var a :| 0 <= a < |cs| && Hits(Planned(env, cs[a].val, gTol, iters), sols);
      var q := StillThere(cs, i, e, a);
      assert Hits(Planned(env, r[q].val, gTol, iters), sols');
    } else {
      var a, b :| 0 <= a < |cs| && 0 <= b < |cs| && a != b
                  && Shares(Planned(env, cs[a].val, gTol, iters), Planned(env, cs[b].val, gTol, iters));
      if a == i || b == i {
        var q := StillThere(cs, i, e, if a == i then b else a);
        assert Hits(Planned(env, r[q].val, gTol, iters), sols');
      } else {
        var q, q' := StillThereTwo(cs, i, e, a, b);
        assert Shares(Planned(env, r[q].val, gTol, iters), Planned(env, r[q'].val, gTol, iters));
      }
    }
  }

  /** A clash afterwards was there before. */
  lemma HitWasThere(env: Analysis, cs: seq<Pair<Crossover>>, i: nat, e: Pair<Crossover>, sols: seq<Pair<Solution>>,
                    sols': seq<Pair<Solution>>, gTol: real, iters: nat)
    requires Analysed(env, cs, i, e, sols, sols', gTol, iters)
    requires SomeHit(env, Insert(RemoveAt(cs, i), e), sols', gTol, iters)
    ensures SomeHit(env, cs, sols, gTol, iters) || SomeShare(env, cs, gTol, iters)
  {
    var r, p := Insert(RemoveAt(cs, i), e), UpperBound(RemoveAt(cs, i), e.key);
    hide Insert, RemoveAt, Planned, HasKey, UpperBound;
    var a :| 0 <= a < |r| && Hits(Planned(env, r[a].val, gTol, iters), sols');
    MovedEntries(cs, i, e, a);
    var v: real :| v in Planned(env, r[a].val, gTol, iters) && HasKey(sols', v);
    var b := Origin(p, i, a);
    if HasKey(sols, v) {
      assert Hits(Planned(env, cs[b].val, gTol, iters), sols);
    } else {
      assert Shares(Planned(env, cs[b].val, gTol, iters), Planned(env, cs[i].val, gTol, iters));
    }
  }

  lemma ShareWasThere(env: Analysis, cs: seq<Pair<Crossover>>, i: nat, e: Pair<Crossover>, gTol: real, iters: nat)
    requires i < |cs| && Planned(env, e.val, gTol, iters) == []
    requires SomeShare(env, Insert(RemoveAt(cs, i), e), gTol, iters)
    ensures SomeShare(env, cs, gTol, iters)
  {
    var r, p := Insert(RemoveAt(cs, i), e), UpperBound(RemoveAt(cs, i), e.key);
    hide Insert, RemoveAt, Planned, UpperBound, Shares, Origin;
    var a, b :| 0 <= a < |r| && 0 <= b < |r| && a != b
                && Shares(Planned(env, r[a].val, gTol, iters), Planned(env, r[b].val, gTol, iters));
    MovedEntries(cs, i, e, a);
    MovedEntries(cs, i, e, b);
    NothingShared(Planned(env, r[a].val, gTol, iters), Planned(env, r[b].val, gTol, iters));
    OriginsDiffer(p, i, a, b);
  }

  lemma NothingShared(t: seq<real>, u: seq<real>)
    requires Shares(t, u)
    ensures t != [] && u != []
  {
  }

  lemma OriginsDiffer(p: nat, i: nat, a: nat, b: nat)
    requires a != p && b != p && a != b
    ensures Origin(p, i, a) != Origin(p, i, b)
  {
  }

  lemma EvaluateKeepsClash(env: Analysis, s: SearchState, i: nat, gTol: real, iters: nat)
    requires Valid(env, s) && i < |s.crossovers| && s.crossovers[i].val.root.None? && gTol >= 0.0 && iters > 0
    requires EndsStored(s.crossovers, s.solutions)
    ensures Clashes(env, s, gTol, iters) <==> Clashes(env, Evaluate(env, s, i, gTol, iters), gTol, iters)
  {
    EvaluateStep(env, s, i, gTol, iters);
    var cs, r := s.crossovers, Evaluate(env, s, i, gTol, iters);
    var root := RootFor(env, cs[i].val, gTol, iters);
    var e := Pair(root.V, cs[i].val.(root := Some(root)));
    assert Planned(env, e.val, gTol, iters) == [];
    hide Evaluate, Valid, EndsStored, RootFor, Planned, HasKey, Hits, Insert, RemoveAt;
    assert Analysed(env, cs, i, e, s.solutions, r.solutions, gTol, iters);
    hide Analysed;
    if Hits(Planned(env, cs[i].val, gTol, iters), s.solutions) {
      assert SomeHit(env, cs, s.solutions, gTol, iters);
    } else {
      hide SomeHit, SomeShare;
      if SomeHit(env, cs, s.solutions, gTol, iters) || SomeShare(env, cs, gTol, iters) {
        ClashStays(env, cs, i, e, s.solutions, r.solutions, gTol, iters);
      } else if SomeHit(env, r.crossovers, r.solutions, gTol, iters) {
        HitWasThere(env, cs, i, e, s.solutions, r.solutions, gTol, iters);
      } else if SomeShare(env, r.crossovers, gTol, iters) {
        ShareWasThere(env, cs, i, e, gTol, iters);
      }
    }
  }

  lemma {:induction false} FindCriticalKeepsClash(env: Analysis, s: SearchState, gTol: real, iters: nat)
    requires Valid(env, s) && gTol >= 0.0 && iters > 0 && EndsStored(s.crossovers, s.solutions)
    ensures var r := FindCritical(env, s, gTol, iters);
            EndsStored(r.crossovers, r.solutions) && (Clashes(env, s, gTol, iters) <==> Clashes(env, r, gTol, iters))
    decreases Unevaluated(s.crossovers)
  {
    hide Clashes;
    if s.crossovers != [] && s.crossovers[0].val.root.None? {
      var s' := Evaluate(env, s, 0, gTol, iters);
      EvaluateKeeps(env, s, 0, gTol, iters);
      EvaluateKeepsDoomed(env, s, 0, gTol, iters);
      EvaluateKeepsClash(env, s, 0, gTol, iters);
      FindCriticalKeepsClash(env, s', gTol, iters);
    }
  }

  /** Over any run of either search, complete or not, a clash neither appears nor goes away: it either has made an
      insertion fail or is still ahead. */
  lemma {:induction false} RunKeepsClash(env: Analysis, s: SearchState, calls: seq<Call>, gTol: real, iters: nat)
    requires Valid(env, s) && EndsStored(s.crossovers, s.solutions) && Uniform(calls, gTol, iters)
    ensures Clashes(env, s, gTol, iters) <==> Clashes(env, Run(env, s, calls), gTol, iters)
    decreases |calls|
  {
    if calls != [] {
      var c := calls[0];
      assert c in calls;
      if c.FindNextRoot? {
        var p := FirstUnevaluated(s.crossovers);
        if p < |s.crossovers| {
          EvaluateKeepsDoomed(env, s, p, gTol, iters);
          EvaluateKeepsClash(env, s, p, gTol, iters);
        }
      } else {
        FindCriticalKeepsClash(env, s, gTol, iters);
      }
      RunKeepsClash(env, Step(env, s, c), calls[1..], gTol, iters);
      hide Clashes, Valid, EndsStored, Evaluate, FindCritical;
    }
  }

  /** Exactly when a run that evaluates every crossover fails an insertion: some value to be analysed is already stored,
      or two crossovers are to be analysed at one value. */
  lemma UniformRunFailsExactly(env: Analysis, s: SearchState, calls: seq<Call>, gTol: real, iters: nat)
    requires Valid(env, s) && EndsStored(s.crossovers, s.solutions) && Uniform(calls, gTol, iters) && !s.assertFailed
    ensures Unevaluated(Run(env, s, calls).crossovers) == 0 ==>
              (Run(env, s, calls).assertFailed
               <==> SomeHit(env, s.crossovers, s.solutions, gTol, iters) || SomeShare(env, s.crossovers, gTol, iters))
  {
    hide Run;
    var r := Run(env, s, calls);
    RunKeepsClash(env, s, calls, gTol, iters);
    if Unevaluated(r.crossovers) == 0 {
      NoneLeft(r.crossovers);
      assert forall i | 0 <= i < |r.crossovers| :: Planned(env, r.crossovers[i].val, gTol, iters) == [];
      hide Planned;
      assert !Hits([], r.solutions);
    }
  }

  // ---------------------------------------------------------------------------------------------
  // Crossovers between neighbouring solutions
  // ---------------------------------------------------------------------------------------------

  /** Between neighbouring stored solutions, a search meets a stored one only from a lower end with zero damping. */
  lemma HitsExactlyForZero(env: Analysis, c: Crossover, sols: seq<Pair<Solution>>, gTol: real, iters: nat)
    requires WellFormed(env, c) && c.root.None? && gTol >= 0.0 && iters > 0
    requires c.lower.refVal != c.upper.refVal && HasKey(sols, c.lower.refVal) && SpanClear(c, sols)
    ensures Hits(Planned(env, c, gTol, iters), sols) <==> ZeroBelow(env, c)
  {
    var t := Planned(env, c, gTol, iters);
    TrialIsInside(StartBracket(env, c));
    if ZeroBelow(env, c) {
      assert t[0] in t && HasKey(sols, t[0]);
    } else {
      ProperTrials(env, c, gTol, iters);
    }
  }

  /** Every unevaluated crossover lies between neighbouring stored solutions. */
  ghost predicate BetweenNeighbours(cs: seq<Pair<Crossover>>, sols: seq<Pair<Solution>>) {
    && EndsStored(cs, sols)
    && forall i | 0 <= i < |cs| && cs[i].val.root.None? :: SpanClear(cs[i].val, sols)
  }

  /** Then a run that evaluates every crossover fails an insertion if and only if some lower damping is exactly zero or
      two crossovers are to be analysed at one value. */
  lemma NeighboursRunFailsExactly(env: Analysis, s: SearchState, calls: seq<Call>, gTol: real, iters: nat)
    requires Valid(env, s) && BetweenNeighbours(s.crossovers, s.solutions)
    requires Uniform(calls, gTol, iters) && !s.assertFailed
    ensures Unevaluated(Run(env, s, calls).crossovers) == 0 ==>
              (Run(env, s, calls).assertFailed
               <==> SomeZeroBelow(env, s.crossovers) || SomeShare(env, s.crossovers, gTol, iters))
  {
    hide Run, SpanClear, HasKey;
    UniformRunFailsExactly(env, s, calls, gTol, iters);
    forall i | 0 <= i < |s.crossovers|
      ensures Hits(Planned(env, s.crossovers[i].val, gTol, iters), s.solutions) <==> ZeroBelow(env, s.crossovers[i].val)
    {
      if s.crossovers[i].val.root.None? {
        HitsExactlyForZero(env, s.crossovers[i].val, s.solutions, gTol, iters);
      }
    }
    hide Planned, ZeroBelow, Hits;
  }

  /** With intervals of their own, two crossovers meet only if one starts from zero damping. */
  lemma OwnIntervalsDoNotShare(env: Analysis, s: SearchState, gTol: real, iters: nat)
    requires Valid(env, s) && OwnIntervals(s) && gTol >= 0.0 && iters > 0
    ensures SomeShare(env, s.crossovers, gTol, iters) ==> SomeZeroBelow(env, s.crossovers)
  {
    hide HasKey, SpanClear, Planned, Between;
    var cs := s.crossovers;
    if !SomeZeroBelow(env, cs) {
      forall i, j | 0 <= i < |cs| && 0 <= j < |cs| && i != j
        ensures !Shares(Planned(env, cs[i].val, gTol, iters), Planned(env, cs[j].val, gTol, iters))
      {
        PlannedBetween(env, cs[i].val, gTol, iters);
        PlannedBetween(env, cs[j].val, gTol, iters);
        if cs[i].val.root.None? && cs[j].val.root.None? {
          assert SpansDisjoint(cs[i].val, cs[j].val);
        }
      }
    }
  }

  lemma PlannedBetween(env: Analysis, c: Crossover, gTol: real, iters: nat)
    requires !ZeroBelow(env, c) && (c.root.None? ==> c.lower.refVal != c.upper.refVal)
    ensures forall v <- Planned(env, c, gTol, iters) :: Between(v, c.lower.refVal, c.upper.refVal) && c.root.None?
  {
    if Planned(env, c, gTol, iters) != [] {
      ProperTrials(env, c, gTol, iters);
    }
  }

  /** Two crossovers with one bracket have the same first trial point, so a run that evaluates every crossover fails an
      insertion, in whatever order it comes to them. */
  lemma SharedBracketFails(env: Analysis, s: SearchState, i: nat, j: nat, calls: seq<Call>, gTol: real, iters: nat)
    requires Valid(env, s) && EndsStored(s.crossovers, s.solutions) && Uniform(calls, gTol, iters) && !s.assertFailed
    requires i < |s.crossovers| && j < |s.crossovers| && i != j
    requires s.crossovers[i].val.root.None? && s.crossovers[j].val.root.None?
    requires StartBracket(env, s.crossovers[i].val) == StartBracket(env, s.crossovers[j].val)
    ensures Unevaluated(Run(env, s, calls).crossovers) == 0 ==> Run(env, s, calls).assertFailed
  {
    hide Run;
    UniformRunFailsExactly(env, s, calls, gTol, iters);
    SameBracketShares(env, s.crossovers[i].val, s.crossovers[j].val, gTol, iters);
  }

  lemma SameBracketShares(env: Analysis, c: Crossover, d: Crossover, gTol: real, iters: nat)
    requires WellFormed(env, c) && WellFormed(env, d) && c.root.None? && d.root.None? && gTol >= 0.0 && iters > 0
    requires StartBracket(env, c) == StartBracket(env, d)
    ensures Shares(Planned(env, c, gTol, iters), Planned(env, d, gTol, iters))
  {
    var t, u := Planned(env, c, gTol, iters), Planned(env, d, gTol, iters);
    assert t[0] == Trial(StartBracket(env, c)) == u[0];
    assert t[0] in t && t[0] in u;
  }

  /** One mode with damping v - 1 at velocity v. */
  function RampRoot(v: real): FlutterRoot {
    FlutterRoot(0.0, 0.0, v, 0.0, Complex(v - 1.0, 0.0), false, [], [])
  }

  function RampAnalysis(): Analysis {
    Analysis(1, (v, prev) => [RampRoot(v)], (r: FlutterRoot) => r.root.re)
  }

  function RampSolution(v: real): Solution {
    Solution(v, [RampRoot(v)])
  }

  /** Its crossover between the velocities 1 and 2 has damping zero at 1: the first trial point is 1 again. */
  lemma ZeroDampingAtLowerEndFails(gTol: real, iters: nat)
    requires gTol >= 0.0 && iters > 0
    ensures var c := Crossover(RampSolution(1.0), RampSolution(2.0), 0, None);
            var s := SearchState([Pair(1.0, RampSolution(1.0)), Pair(2.0, RampSolution(2.0))], [Pair(1.0, c)], false);
            Valid(RampAnalysis(), s) && Evaluate(RampAnalysis(), s, 0, gTol, iters).assertFailed
  {
    var env, c := RampAnalysis(), Crossover(RampSolution(1.0), RampSolution(2.0), 0, None);
    var s := SearchState([Pair(1.0, RampSolution(1.0)), Pair(2.0, RampSolution(2.0))], [Pair(1.0, c)], false);
    assert StartBracket(env, c) == Bracket(1.0, 0.0, 2.0, 1.0);
    assert s.solutions[0].key == 1.0;
    assert HasKey(s.solutions, 1.0);
    assert Valid(env, s);
    InsertionFailsExactly(env, s, 0, gTol, iters);
  }

  // ---------------------------------------------------------------------------------------------
  // Which roots a run finds
  // ---------------------------------------------------------------------------------------------

  const NO_ROOT := FlutterRoot(0.0, 0.0, 0.0, 0.0, Complex(0.0, 0.0), true, [], [])

  /** The root of a crossover, found already or to be found by its own search. */
  ghost function RootOf(env: Analysis, c: Crossover, gTol: real, iters: nat): FlutterRoot {
    if c.root.Some? then c.root.value
    else if WellPosed(env) && WellFormed(env, c) && gTol >= 0.0 && iters > 0 then RootFor(env, c, gTol, iters)
    else NO_ROOT
  }

  ghost function RootsOf(env: Analysis, cs: seq<Pair<Crossover>>, gTol: real, iters: nat): (r: seq<FlutterRoot>)
    ensures |r| == |cs|
  {
    seq(|cs|, i requires 0 <= i < |cs| => RootOf(env, cs[i].val, gTol, iters))
  }

  lemma RootsConcat(env: Analysis, a: seq<Pair<Crossover>>, b: seq<Pair<Crossover>>, gTol: real, iters: nat)
    ensures RootsOf(env, a + b, gTol, iters) == RootsOf(env, a, gTol, iters) + RootsOf(env, b, gTol, iters)
  {
    hide RootOf;
  }

  lemma RootsOfMiddle(env: Analysis, a: seq<Pair<Crossover>>, m: Pair<Crossover>, b: seq<Pair<Crossover>>, gTol: real,
                      iters: nat)
    ensures multiset(RootsOf(env, a + ([m] + b), gTol, iters))
         == multiset(RootsOf(env, a + b, gTol, iters)) + multiset{RootOf(env, m.val, gTol, iters)}
  {
    RootsConcat(env, a, [m] + b, gTol, iters);
    RootsConcat(env, [m], b, gTol, iters);
    RootsConcat(env, a, b, gTol, iters);
    assert RootsOf(env, [m], gTol, iters) == [RootOf(env, m.val, gTol, iters)];
    hide RootsOf, RootOf;
  }

  lemma MoveKeepsRoots(env: Analysis, cs: seq<Pair<Crossover>>, i: nat, e: Pair<Crossover>, gTol: real, iters: nat)
    requires i < |cs| && RootOf(env, e.val, gTol, iters) == RootOf(env, cs[i].val, gTol, iters)
    ensures multiset(RootsOf(env, Insert(RemoveAt(cs, i), e), gTol, iters)) == multiset(RootsOf(env, cs, gTol, iters))
  {
    hide RootsOf, RootOf, UpperBound;
    var rest := RemoveAt(cs, i);
    var p := UpperBound(rest, e.key);
    assert cs == cs[..i] + ([cs[i]] + cs[i + 1..]) && rest == rest[..p] + rest[p..];
    RootsOfMiddle(env, cs[..i], cs[i], cs[i + 1..], gTol, iters);
    RootsOfMiddle(env, rest[..p], e, rest[p..], gTol, iters);
  }

  /** An evaluation turns a root to be found into a root found. */
  lemma EvaluateKeepsRoots(env: Analysis, s: SearchState, i: nat, gTol: real, iters: nat)
    requires Valid(env, s) && i < |s.crossovers| && s.crossovers[i].val.root.None? && gTol >= 0.0 && iters > 0
    ensures multiset(RootsOf(env, Evaluate(env, s, i, gTol, iters).crossovers, gTol, iters))
         == multiset(RootsOf(env, s.crossovers, gTol, iters))
  {
    hide RootsOf, RootFor, Insert, RemoveAt, RecordAll;
    var c := s.crossovers[i].val;
    var root := RootFor(env, c, gTol, iters);
    MoveKeepsRoots(env, s.crossovers, i, Pair(root.V, c.(root := Some(root))), gTol, iters);
  }

  lemma {:induction false} FindCriticalKeepsRoots(env: Analysis, s: SearchState, gTol: real, iters: nat)
    requires Valid(env, s) && gTol >= 0.0 && iters > 0
    ensures multiset(RootsOf(env, FindCritical(env, s, gTol, iters).crossovers, gTol, iters))
         == multiset(RootsOf(env, s.crossovers, gTol, iters))
    decreases Unevaluated(s.crossovers)
  {
    hide RootsOf;
    if s.crossovers != [] && s.crossovers[0].val.root.None? {
      EvaluateKeeps(env, s, 0, gTol, iters);
      EvaluateKeepsRoots(env, s, 0, gTol, iters);
      FindCriticalKeepsRoots(env, Evaluate(env, s, 0, gTol, iters), gTol, iters);
    }
  }

  lemma {:induction false} RunKeepsRoots(env: Analysis, s: SearchState, calls: seq<Call>, gTol: real, iters: nat)
    requires Valid(env, s) && Uniform(calls, gTol, iters)
    ensures multiset(RootsOf(env, Run(env, s, calls).crossovers, gTol, iters))
         == multiset(RootsOf(env, s.crossovers, gTol, iters))
    decreases |calls|
  {
    hide RootsOf;
    if calls != [] {
      var c := calls[0];
      assert c in calls;
      if c.FindNextRoot? {
        var p := FirstUnevaluated(s.crossovers);
        if p < |s.crossovers| {
          EvaluateKeepsRoots(env, s, p, gTol, iters);
        }
      } else {
        FindCriticalKeepsRoots(env, s, gTol, iters);
      }
      RunKeepsRoots(env, Step(env, s, c), calls[1..], gTol, iters);
      hide Valid, Evaluate, FindCritical;
    }
  }

  lemma {:induction false} AllFound(env: Analysis, cs: seq<Pair<Crossover>>, gTol: real, iters: nat)
    requires forall i | 0 <= i < |cs| :: cs[i].val.root.Some?
    ensures FoundRoots(cs) == RootsOf(env, cs, gTol, iters)
  {
    if cs != [] {
      AllFound(env, cs[..|cs| - 1], gTol, iters);
    }
  }

  /** Every run that evaluates all crossovers finds the same roots, in whatever order it evaluates them: those found
      before, and for every other crossover the root that its own search ends with. */
  lemma CompleteRunFindsAll(env: Analysis, s: SearchState, calls: seq<Call>, gTol: real, iters: nat)
    requires Valid(env, s) && Uniform(calls, gTol, iters)
    ensures Unevaluated(Run(env, s, calls).crossovers) == 0 ==>
              multiset(FoundRoots(Run(env, s, calls).crossovers)) == multiset(RootsOf(env, s.crossovers, gTol, iters))
  {
    hide Run, RootsOf;
    var r := Run(env, s, calls);
    RunKeepsRoots(env, s, calls, gTol, iters);
    NoneLeft(r.crossovers);
    if Unevaluated(r.crossovers) == 0 {
      AllFound(env, r.crossovers, gTol, iters);
    }
  }

  // ---------------------------------------------------------------------------------------------
  // Which crossovers a search for the critical root evaluates
  // ---------------------------------------------------------------------------------------------

  /** The search for the critical root comes to crossover k: every entry before it is unevaluated and its root will not
      be stored before k. */
  ghost predicate Reached(env: Analysis, cs: seq<Pair<Crossover>>, k: nat, gTol: real, iters: nat)
    requires k < |cs|
  {
    forall j | 0 <= j < k :: cs[j].val.root.None? && RootOf(env, cs[j].val, gTol, iters).V >= cs[k].key
  }

  /** Some root found satisfies p. */
  ghost predicate SomeFound(cs: seq<Pair<Crossover>>, p: FlutterRoot -> bool) {
    exists i :: 0 <= i < |cs| && cs[i].val.root.Some? && p(cs[i].val.root.value)
  }

  ghost predicate ReachedWith(env: Analysis, cs: seq<Pair<Crossover>>, k: nat, p: FlutterRoot -> bool, gTol: real,
                              iters: nat)
  {
    && k < |cs| && cs[k].val.root.None?
    && Reached(env, cs, k, gTol, iters)
    && p(RootOf(env, cs[k].val, gTol, iters))
  }

  /** Some unevaluated crossover that the search comes to ends with a root that satisfies p. */
  ghost predicate SomeReached(env: Analysis, cs: seq<Pair<Crossover>>, p: FlutterRoot -> bool, gTol: real, iters: nat) {
    exists k: nat :: ReachedWith(env, cs, k, p, gTol, iters)
  }

  /** Where the entry behind the front one, at position k, goes when the front one moves to position q. */
  function Behind(q: nat, k: nat): nat
    requires k > 0
  {
    if k - 1 < q then k - 1 else k
  }

  /** What moving the front entry does to the list. */
  lemma FrontMoved(cs: seq<Pair<Crossover>>, e: Pair<Crossover>)
    requires Sorted(cs) && cs != []
    ensures var r, q := Insert(RemoveAt(cs, 0), e), UpperBound(RemoveAt(cs, 0), e.key);
            && |r| == |cs| && q < |r| && r[q] == e
            && (forall k | 0 < k < |cs| :: r[Behind(q, k)] == cs[k] && (k - 1 < q <==> cs[k].key <= e.key))
            && (forall m | 0 <= m < |r| && m != q :: r[m] == cs[if m < q then m + 1 else m])
  {
    hide UpperBound, Sorted, Insert, RemoveAt;
    var r, q := Insert(RemoveAt(cs, 0), e), UpperBound(RemoveAt(cs, 0), e.key);
    forall k | 0 < k < |cs|
      ensures r[Behind(q, k)] == cs[k] && (k - 1 < q <==> cs[k].key <= e.key)
    {
      BehindByKey(cs, e.key, k);
      MovedEntries(cs, 0, e, Behind(q, k));
    }
    forall m | 0 <= m < |r| && m != q
      ensures r[m] == cs[if m < q then m + 1 else m]
    {
      MovedEntries(cs, 0, e, m);
    }
  }

  lemma BehindByKey(cs: seq<Pair<Crossover>>, key: real, k: nat)
    requires Sorted(cs) && 0 < k < |cs|
    ensures k - 1 < UpperBound(RemoveAt(cs, 0), key) <==> cs[k].key <= key
  {
    hide UpperBound;
    var rest := RemoveAt(cs, 0);
    var q := UpperBound(rest, key);
    assert rest[k - 1] == cs[k];
    if k - 1 >= q {
      assert rest[q] == cs[q + 1] && cs[q + 1].key <= cs[k].key;
    }
  }

  /** The front entry is evaluated and stored under the velocity of its root. */
  ghost predicate FrontEvaluated(env: Analysis, cs: seq<Pair<Crossover>>, e: Pair<Crossover>, gTol: real, iters: nat) {
    && Sorted(cs) && cs != [] && cs[0].val.root.None?
    && e.val.root == Some(RootOf(env, cs[0].val, gTol, iters)) && e.key == e.val.root.value.V
  }

  /** The front entry went behind entry k. */
  lemma ReachedShifts(env: Analysis, cs: seq<Pair<Crossover>>, r: seq<Pair<Crossover>>, k: nat, gTol: real, iters: nat)
    requires 0 < k < |cs| == |r| && forall m | 0 <= m < k :: r[m] == cs[m + 1]
    requires cs[0].val.root.None? && RootOf(env, cs[0].val, gTol, iters).V >= cs[k].key
    ensures Reached(env, cs, k, gTol, iters) <==> Reached(env, r, k - 1, gTol, iters)
  {
    hide RootOf;
    if Reached(env, r, k - 1, gTol, iters) {
      forall j | 0 <= j < k
        ensures cs[j].val.root.None? && RootOf(env, cs[j].val, gTol, iters).V >= cs[k].key
      {
        assert j > 0 ==> r[j - 1] == cs[j];
      }
    }
  }

  lemma ReachedMoves(env: Analysis, cs: seq<Pair<Crossover>>, e: Pair<Crossover>, k: nat, gTol: real, iters: nat)
    requires FrontEvaluated(env, cs, e, gTol, iters) && 0 < k < |cs|
    ensures var r, q := Insert(RemoveAt(cs, 0), e), UpperBound(RemoveAt(cs, 0), e.key);
            Behind(q, k) < |r|
            && (Reached(env, cs, k, gTol, iters) <==> Reached(env, r, Behind(q, k), gTol, iters))
  {
    hide RootOf, UpperBound, RemoveAt, Insert, Sorted;
    FrontMoved(cs, e);
    var r, q := Insert(RemoveAt(cs, 0), e), UpperBound(RemoveAt(cs, 0), e.key);
    if k - 1 < q {
      ReachedShifts(env, cs, r, k, gTol, iters);
    } else {
      assert r[q].val.root.Some?;
    }
  }

  /** The root found at the front satisfies p, or one found before does. */
  lemma FrontFound(env: Analysis, cs: seq<Pair<Crossover>>, e: Pair<Crossover>, p: FlutterRoot -> bool, gTol: real,
                   iters: nat)
    requires FrontEvaluated(env, cs, e, gTol, iters)
    ensures SomeFound(Insert(RemoveAt(cs, 0), e), p) <==> SomeFound(cs, p) || p(RootOf(env, cs[0].val, gTol, iters))
  {
    FrontMoved(cs, e);
    var r, q := Insert(RemoveAt(cs, 0), e), UpperBound(RemoveAt(cs, 0), e.key);
    hide RootOf, UpperBound, RemoveAt, Insert, Sorted;
    if SomeFound(cs, p) {
      var k :| 0 <= k < |cs| && cs[k].val.root.Some? && p(cs[k].val.root.value);
      assert r[Behind(q, k)] == cs[k];
    }
    if p(RootOf(env, cs[0].val, gTol, iters)) {
      assert r[q].val.root.Some? && p(r[q].val.root.value);
    }
  }

  /** An entry behind the front is reached with p before if and only if it is so afterwards. */
  lemma BehindReached(env: Analysis, cs: seq<Pair<Crossover>>, e: Pair<Crossover>, k: nat, p: FlutterRoot -> bool,
                      gTol: real, iters: nat)
    requires FrontEvaluated(env, cs, e, gTol, iters) && 0 < k < |cs|
    ensures var r, q := Insert(RemoveAt(cs, 0), e), UpperBound(RemoveAt(cs, 0), e.key);
            ReachedWith(env, cs, k, p, gTol, iters) <==> ReachedWith(env, r, Behind(q, k), p, gTol, iters)
  {
    hide RootOf, UpperBound, RemoveAt, Insert, Sorted, Reached;
    FrontMoved(cs, e);
    ReachedMoves(env, cs, e, k, gTol, iters);
  }

  /** The front is reached, and no entry that is evaluated. */
  lemma FrontReach(env: Analysis, cs: seq<Pair<Crossover>>, e: Pair<Crossover>, p: FlutterRoot -> bool, gTol: real,
                   iters: nat)
    requires FrontEvaluated(env, cs, e, gTol, iters)
    ensures var r, q := Insert(RemoveAt(cs, 0), e), UpperBound(RemoveAt(cs, 0), e.key);
            && (ReachedWith(env, cs, 0, p, gTol, iters) <==> p(RootOf(env, cs[0].val, gTol, iters)))
            && !ReachedWith(env, r, q, p, gTol, iters)
            && (forall k: nat :: ReachedWith(env, cs, k, p, gTol, iters) ==> k < |cs|)
            && (forall k: nat :: ReachedWith(env, r, k, p, gTol, iters) ==> k < |r| == |cs|)
  {
    hide RootOf, UpperBound, RemoveAt, Insert, Sorted;
    FrontMoved(cs, e);
  }

  /** The crossovers still reached are those reached before, but for the front. */
  lemma FrontReached(env: Analysis, cs: seq<Pair<Crossover>>, e: Pair<Crossover>, p: FlutterRoot -> bool, gTol: real,
                     iters: nat)
    requires FrontEvaluated(env, cs, e, gTol, iters)
    ensures SomeReached(env, cs, p, gTol, iters)
       <==> SomeReached(env, Insert(RemoveAt(cs, 0), e), p, gTol, iters) || p(RootOf(env, cs[0].val, gTol, iters))
  {
    FrontReach(env, cs, e, p, gTol, iters);
    var r, q := Insert(RemoveAt(cs, 0), e), UpperBound(RemoveAt(cs, 0), e.key);
    hide FrontEvaluated, RootOf, UpperBound, RemoveAt, Insert, Sorted, ReachedWith;
    if SomeReached(env, cs, p, gTol, iters) {
      var k: nat :| ReachedWith(env, cs, k, p, gTol, iters);
      if k > 0 {
        BehindReached(env, cs, e, k, p, gTol, iters);
      }
    }
    if SomeReached(env, r, p, gTol, iters) {
      var m: nat :| ReachedWith(env, r, m, p, gTol, iters);
      BehindReached(env, cs, e, if m < q then m + 1 else m, p, gTol, iters);
    }
  }

  lemma NothingReached(env: Analysis, cs: seq<Pair<Crossover>>, p: FlutterRoot -> bool, gTol: real, iters: nat)
    requires cs == [] || cs[0].val.root.Some?
    ensures !SomeReached(env, cs, p, gTol, iters)
  {
  }

  /** A search for the critical root adds exactly the roots of the crossovers it comes to: some root found in the end
      satisfies p if and only if one did before or that of a crossover reached does. */
  lemma {:induction false} CriticalFindsReached(env: Analysis, s: SearchState, p: FlutterRoot -> bool, gTol: real,
                                                iters: nat)
    requires Valid(env, s) && gTol >= 0.0 && iters > 0
    ensures SomeFound(FindCritical(env, s, gTol, iters).crossovers, p)
       <==> SomeFound(s.crossovers, p) || SomeReached(env, s.crossovers, p, gTol, iters)
    decreases Unevaluated(s.crossovers)
  {
    hide SomeFound, SomeReached, WellFormed, RootFor, Insert, RemoveAt, RecordAll;
    var cs := s.crossovers;
    if cs != [] && cs[0].val.root.None? {
      var root := RootFor(env, cs[0].val, gTol, iters);
      var e := Pair(root.V, cs[0].val.(root := Some(root)));
      assert FrontEvaluated(env, cs, e, gTol, iters);
      EvaluateKeeps(env, s, 0, gTol, iters);
      CriticalFindsReached(env, Evaluate(env, s, 0, gTol, iters), p, gTol, iters);
      FrontFound(env, cs, e, p, gTol, iters);
      FrontReached(env, cs, e, p, gTol, iters);
    } else {
      NothingReached(env, cs, p, gTol, iters);
    }
  }
}
