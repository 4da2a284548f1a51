/** What runs of searches over U-g crossovers end with: exactly when an insertion fails, and exactly when the root in
    front has no velocity because a search met an eigenvalue whose real part is not positive. */
module UGSearches {
  import opened ComplexAlgebra
  import opened OrderedContainers
  import opened FlutterRoots
  import opened RegulaFalsi
  import opened CrossoverSearch
  import opened CompleteRuns
  import opened UGDetection
  import CD = CrossoverDetection
  import ScanFailures

  // ---------------------------------------------------------------------------------------------
  // Failing insertions
  // ---------------------------------------------------------------------------------------------

  /** The state a scan leaves when nothing was detected before. */
  ghost function ScanState(sols: CD.Scan, n: nat, withStart: bool): SearchState
    requires CD.IsScan(sols, n) && |sols| > 1
  {
    SearchState(sols, CD.InsertAll([], AllEntries(sols, n, n, withStart)), false)
  }

  lemma KnownIsSearchable(env: Analysis, sols: CD.Scan, n: nat, withStart: bool, e: Pair<Crossover>)
    requires env.nRoots == n && forall r :: env.damping(r) == Damping(r)
    requires CD.IsScan(sols, n) && AllAt(sols) && Known(sols, n, withStart, e) && !StartsUnstable(sols, n, e)
    ensures ScanFailures.Searchable(env, sols, e.val)
  {
    KnownIsWellFormed(env, sols, n, withStart, e);
    if i: nat, j: nat :| Brackets(sols, n, i, j, e) {
      CD.NothingBetween(sols, j, e.val);
    }
  }

  /** Exactly when a run that evaluates everything detected fails an insertion: some crossover has damping exactly zero
      at its first end, or two are to be analysed at one reduced frequency. */
  lemma ScanRunFailsExactly(env: Analysis, sols: CD.Scan, n: nat, withStart: bool, calls: seq<Call>, gTol: real,
                            iters: nat)
    requires WellPosed(env) && env.nRoots == n && forall r :: env.damping(r) == Damping(r)
    requires CD.IsScan(sols, n) && AllAt(sols) && |sols| > 1 && Uniform(calls, gTol, iters)
    requires forall i: nat | i < n :: HighestEntry(sols, n, i, withStart) == []
    ensures Valid(env, ScanState(sols, n, withStart))
    ensures Unevaluated(Run(env, ScanState(sols, n, withStart), calls).crossovers) == 0 ==>
              (Run(env, ScanState(sols, n, withStart), calls).assertFailed
               <==> || SomeZeroBelow(env, AllEntries(sols, n, n, withStart))
                    || SomeShare(env, AllEntries(sols, n, n, withStart), gTol, iters))
  {
    hide AllEntries, HighestEntry, Known, StartsUnstable, AllAt, CD.InsertAll, Run, SomeShare, SomeZeroBelow,
         ScanFailures.Searchable;
    var es := AllEntries(sols, n, n, withStart);
    EntriesSound(sols, n, n, withStart);
    forall e <- es
      ensures ScanFailures.Searchable(env, sols, e.val)
    {
      if StartsUnstable(sols, n, e) {
        OnlyHighestStarts(sols, n, n, withStart, e);
      }
      KnownIsSearchable(env, sols, n, withStart, e);
    }
    hide Valid;
    ScanFailures.ListRunFailsExactly(env, sols, es, calls, gTol, iters);
  }

  // ---------------------------------------------------------------------------------------------
  // Roots without a velocity
  // ---------------------------------------------------------------------------------------------

  /** Every analysis returns roots at its reduced frequency, and their damping is g. */
  ghost predicate IsUGAnalysis(env: Analysis) {
    && WellPosed(env)
    && (forall r :: env.damping(r) == Damping(r))
    && forall v, prev :: SolutionAt(Solution(v, env.At(v, prev)))
  }

  /** At reduced frequency v the mode of the crossover has an eigenvalue whose real part is not positive. */
  predicate UnphysicalAt(env: Analysis, c: Crossover, v: real) {
    c.rootNum < |env.At(v, c.lower.roots)| && env.At(v, c.lower.roots)[c.rootNum].root.re <= 0.0
  }

  /** The search analyses such a reduced frequency. */
  ghost predicate MeetsUnphysical(env: Analysis, c: Crossover, gTol: real, iters: nat) {
    exists v: real :: v in Planned(env, c, gTol, iters) && UnphysicalAt(env, c, v)
  }

  predicate NoVelocity(r: FlutterRoot) {
    r.V == 0.0
  }

  lemma AnalysedRootIsAt(env: Analysis, c: Crossover, v: real)
    requires IsUGAnalysis(env) && c.rootNum < |env.At(v, c.lower.roots)|
    ensures RootAt(env.At(v, c.lower.roots)[c.rootNum], v)
  {
    var s := Solution(v, env.At(v, c.lower.roots));
    assert SolutionAt(s);
    assert s.roots[c.rootNum] in s.roots;
  }

  /** A search ends with a root without a velocity if and only if it analyses a reduced frequency at which the
      eigenvalue of the mode has no positive real part: such a root is undamped, so the search stops there. */
  lemma EndsUnphysicalExactly(env: Analysis, c: Crossover, gTol: real, iters: nat)
    requires IsUGAnalysis(env) && WellFormed(env, c) && c.root.None? && gTol >= 0.0 && iters > 0
    ensures var r := RootFor(env, c, gTol, iters);
            RootAt(r, r.kr) && (NoVelocity(r) <==> MeetsUnphysical(env, c, gTol, iters))
  {
    hide SolutionAt, Trials;
    var t := TrialsFor(env, c, gTol, iters);
    var last := t[|t| - 1];
    LastTrialConverged(DampingAt(env, c.lower.roots, c.rootNum), StartBracket(env, c), gTol, iters);
    AnalysedRootIsAt(env, c, last);
    if NoVelocity(RootFor(env, c, gTol, iters)) {
      assert last in t && UnphysicalAt(env, c, last);
    }
    if MeetsUnphysical(env, c, gTol, iters) {
      var v: real :| v in t && UnphysicalAt(env, c, v);
      var k :| 0 <= k < |t| && t[k] == v;
      AnalysedRootIsAt(env, c, v);
      assert DampingAt(env, c.lower.roots, c.rootNum)(t[k]) == 0.0;
    }
  }

  ghost predicate RootsAt(cs: seq<Pair<Crossover>>) {
    forall i | 0 <= i < |cs| && cs[i].val.root.Some? :: RootAt(cs[i].val.root.value, cs[i].val.root.value.kr)
  }

  /** Of the crossovers stored by root velocity, one without a velocity comes first. */
  lemma NoVelocityComesFirst(cs: seq<Pair<Crossover>>)
    requires Sorted(cs) && KeyedByRoot(cs) && RootsAt(cs) && cs != [] && cs[0].val.root.Some?
    ensures NoVelocity(cs[0].val.root.value) <==> SomeFound(cs, NoVelocity)
  {
    if SomeFound(cs, NoVelocity) {
      var k :| 0 <= k < |cs| && cs[k].val.root.Some? && NoVelocity(cs[k].val.root.value);
      assert cs[0].key <= cs[k].key;
    }
  }

  /** Every root found or to be found is at its reduced frequency. */
  lemma RootOfIsAt(env: Analysis, s: SearchState, i: nat, gTol: real, iters: nat)
    requires IsUGAnalysis(env) && Valid(env, s) && RootsAt(s.crossovers) && gTol >= 0.0 && iters > 0
    requires i < |s.crossovers|
    ensures var c := s.crossovers[i].val;
            var r := RootOf(env, c, gTol, iters);
            && RootAt(r, r.kr)
            && (c.root.None? ==> (NoVelocity(r) <==> MeetsUnphysical(env, c, gTol, iters)))
  {
    hide RootAt, RootFor, MeetsUnphysical, IsUGAnalysis;
    EntryIsWellFormed(env, s, i);
    if s.crossovers[i].val.root.None? {
      EndsUnphysicalExactly(env, s.crossovers[i].val, gTol, iters);
    }
  }

  /** A state with the same roots, found or to be found, has them at their reduced frequencies too. */
  lemma SameRootsAreAt(env: Analysis, s: SearchState, r: SearchState, gTol: real, iters: nat)
    requires IsUGAnalysis(env) && Valid(env, s) && RootsAt(s.crossovers) && gTol >= 0.0 && iters > 0
    requires multiset(RootsOf(env, r.crossovers, gTol, iters)) == multiset(RootsOf(env, s.crossovers, gTol, iters))
    ensures RootsAt(r.crossovers) && |r.crossovers| == |s.crossovers|
  {
    hide RootAt, Valid, IsUGAnalysis;
    var found, all := RootsOf(env, r.crossovers, gTol, iters), RootsOf(env, s.crossovers, gTol, iters);
    assert |multiset(found)| == |multiset(all)|;
    forall i | 0 <= i < |r.crossovers| && r.crossovers[i].val.root.Some?
      ensures RootAt(r.crossovers[i].val.root.value, r.crossovers[i].val.root.value.kr)
    {
      assert found[i] == r.crossovers[i].val.root.value && found[i] in multiset(all);
      var j :| 0 <= j < |all| && all[j] == found[i];
      RootOfIsAt(env, s, j, gTol, iters);
    }
  }

  /** The roots recorded by a scan are at their reduced frequency. */
  lemma ScanRootsAt(sols: CD.Scan, n: nat, withStart: bool)
    requires CD.IsScan(sols, n) && AllAt(sols) && |sols| > 1
    ensures RootsAt(ScanState(sols, n, withStart).crossovers)
  {
    hide AllEntries, RootAt, CD.InsertAll;
    var es := AllEntries(sols, n, n, withStart);
    var cs := CD.InsertAll([], es);
    EntriesSound(sols, n, n, withStart);
    ScanFailures.InsertAllMembers(es);
    forall i | 0 <= i < |cs| && cs[i].val.root.Some?
      ensures RootAt(cs[i].val.root.value, cs[i].val.root.value.kr)
    {
      assert cs[i] in cs && Diverges(sols, n, cs[i]);
      assert sols[0] in sols;
      RootInSolution(sols[0].val, cs[i].val.rootNum);
    }
  }

  lemma RootInSolution(s: Solution, i: nat)
    requires SolutionAt(s) && i < |s.roots|
    ensures RootAt(s.roots[i], s.roots[i].kr)
  {
    assert s.roots[i] in s.roots;
  }

  /** Some crossover has been evaluated to a root without a velocity, or is unevaluated, is reached by a search for the
      critical root, and meets an eigenvalue without a positive real part. */
  ghost predicate CriticalMeetsUnphysical(env: Analysis, cs: seq<Pair<Crossover>>, gTol: real, iters: nat) {
    || SomeFound(cs, NoVelocity)
    || exists k: nat :: k < |cs| && ReachedUnphysical(env, cs, k, gTol, iters)
  }

  ghost predicate ReachedUnphysical(env: Analysis, cs: seq<Pair<Crossover>>, k: nat, gTol: real, iters: nat)
    requires k < |cs|
  {
    && cs[k].val.root.None?
    && Reached(env, cs, k, gTol, iters)
    && MeetsUnphysical(env, cs[k].val, gTol, iters)
  }

  lemma ReachedEndsUnphysical(env: Analysis, s: SearchState, gTol: real, iters: nat)
    requires IsUGAnalysis(env) && Valid(env, s) && RootsAt(s.crossovers) && gTol >= 0.0 && iters > 0
    ensures SomeReached(env, s.crossovers, NoVelocity, gTol, iters)
       <==> exists k: nat :: k < |s.crossovers| && ReachedUnphysical(env, s.crossovers, k, gTol, iters)
  {
    hide Reached, RootOf, MeetsUnphysical, Valid, RootsAt, IsUGAnalysis, RootAt;
    var cs := s.crossovers;
    forall k: nat | k < |cs|
      ensures ReachedWith(env, cs, k, NoVelocity, gTol, iters) <==> ReachedUnphysical(env, cs, k, gTol, iters)
    {
      RootOfIsAt(env, s, k, gTol, iters);
    }
    if k: nat :| k < |cs| && ReachedUnphysical(env, cs, k, gTol, iters) {
      assert ReachedWith(env, cs, k, NoVelocity, gTol, iters);
    }
  }

  /** Exactly when a search for the critical root returns one without a velocity. */
  lemma CriticalIsUnphysicalExactly(env: Analysis, s: SearchState, gTol: real, iters: nat)
    requires IsUGAnalysis(env) && Valid(env, s) && gTol >= 0.0 && iters > 0
    requires KeyedByRoot(s.crossovers) && RootsAt(s.crossovers) && s.crossovers != []
    ensures var r := FindCritical(env, s, gTol, iters);
            && r.crossovers != [] && r.crossovers[0].val.root.Some? && RootsAt(r.crossovers)
            && (NoVelocity(r.crossovers[0].val.root.value)
                <==> CriticalMeetsUnphysical(env, s.crossovers, gTol, iters))
  {
    hide FindCritical, RootsOf, RootsAt, IsUGAnalysis, SomeFound, SomeReached, ReachedUnphysical, NoVelocity;
    var r := FindCritical(env, s, gTol, iters);
    FindCriticalKeeps(env, s, gTol, iters);
    FindCriticalKeepsRoots(env, s, gTol, iters);
    SameRootsAreAt(env, s, r, gTol, iters);
    assert Sorted(r.crossovers);
    NoVelocityComesFirst(r.crossovers);
    CriticalFindsReached(env, s, NoVelocity, gTol, iters);
    ReachedEndsUnphysical(env, s, gTol, iters);
  }

  lemma {:induction false} RunKeepsKeyed(env: Analysis, s: SearchState, calls: seq<Call>)
    requires Valid(env, s) && KeyedByRoot(s.crossovers) && forall c | c in calls :: Legal(c)
    ensures KeyedByRoot(Run(env, s, calls).crossovers) && Sorted(Run(env, s, calls).crossovers)
    decreases |calls|
  {
    hide FindNext, FindCritical, KeyedByRoot;
    if calls != [] {
      var c := calls[0];
      assert c in calls;
      FindNextKeeps(env, s, c.gTol, c.iters);
      FindCriticalKeeps(env, s, c.gTol, c.iters);
      RunKeepsKeyed(env, Step(env, s, c), calls[1..]);
    }
  }

  /** Some crossover has been evaluated to a root without a velocity, or is unevaluated and meets such an eigenvalue. */
  ghost predicate SomeMeetsUnphysical(env: Analysis, cs: seq<Pair<Crossover>>, gTol: real, iters: nat) {
    exists i: nat :: i < |cs| && EndsUnphysical(env, cs[i].val, gTol, iters)
  }

  ghost predicate EndsUnphysical(env: Analysis, c: Crossover, gTol: real, iters: nat) {
    if c.root.Some? then NoVelocity(c.root.value) else MeetsUnphysical(env, c, gTol, iters)
  }

  /** Exactly when the root in front has no velocity after a run that evaluates every crossover. */
  lemma CompleteRunIsUnphysicalExactly(env: Analysis, s: SearchState, calls: seq<Call>, gTol: real, iters: nat)
    requires IsUGAnalysis(env) && Valid(env, s) && Uniform(calls, gTol, iters)
    requires KeyedByRoot(s.crossovers) && RootsAt(s.crossovers) && s.crossovers != []
    ensures var r := Run(env, s, calls);
            Unevaluated(r.crossovers) == 0 ==>
              && r.crossovers != [] && r.crossovers[0].val.root.Some?
              && (NoVelocity(r.crossovers[0].val.root.value) <==> SomeMeetsUnphysical(env, s.crossovers, gTol, iters))
  {
    hide Run, RootsOf, RootsAt, IsUGAnalysis, NoVelocity, Valid, KeyedByRoot, RootOf, FoundRoots;
    var r := Run(env, s, calls);
    RunKeepsRoots(env, s, calls, gTol, iters);
    RunKeepsKeyed(env, s, calls);
    SameRootsAreAt(env, s, r, gTol, iters);
    NoneLeft(r.crossovers);
    if Unevaluated(r.crossovers) == 0 {
      NoVelocityComesFirst(r.crossovers);
      FoundIffMeets(env, s, r, gTol, iters);
    }
  }

  lemma FoundIffMeets(env: Analysis, s: SearchState, r: SearchState, gTol: real, iters: nat)
    requires IsUGAnalysis(env) && Valid(env, s) && RootsAt(s.crossovers) && gTol >= 0.0 && iters > 0
    requires multiset(RootsOf(env, r.crossovers, gTol, iters)) == multiset(RootsOf(env, s.crossovers, gTol, iters))
    requires forall i | 0 <= i < |r.crossovers| :: r.crossovers[i].val.root.Some?
    ensures SomeFound(r.crossovers, NoVelocity) <==> SomeMeetsUnphysical(env, s.crossovers, gTol, iters)
  {
    hide Valid, RootsAt, IsUGAnalysis, NoVelocity, MeetsUnphysical;
    var found, all := RootsOf(env, r.crossovers, gTol, iters), RootsOf(env, s.crossovers, gTol, iters);
    forall i | 0 <= i < |all|
      ensures NoVelocity(all[i]) <==> EndsUnphysical(env, s.crossovers[i].val, gTol, iters)
    {
      RootOfIsAt(env, s, i, gTol, iters);
    }
    if SomeFound(r.crossovers, NoVelocity) {
      var i :| 0 <= i < |r.crossovers| && r.crossovers[i].val.root.Some? && NoVelocity(r.crossovers[i].val.root.value);
      assert found[i] == r.crossovers[i].val.root.value;
      assert found[i] in multiset(all);
      var j: nat :| j < |all| && all[j] == found[i];
      assert EndsUnphysical(env, s.crossovers[j].val, gTol, iters);
    }
    if SomeMeetsUnphysical(env, s.crossovers, gTol, iters) {
      var j: nat :| j < |all| && EndsUnphysical(env, s.crossovers[j].val, gTol, iters);
      assert all[j] in multiset(found);
      var i: nat :| i < |found| && found[i] == all[j];
      assert r.crossovers[i].val.root.value == found[i];
    }
  }

  // ---------------------------------------------------------------------------------------------
  // A bracket with physical ends and an unphysical middle
  // ---------------------------------------------------------------------------------------------

  /** Eigenvalue 1 - i/2 above the reduced frequency 1.5, 1 + i/2 below it, and -1 there. */
  function DippingUGRoot(kr: real): FlutterRoot {
    if kr == 1.5 then FlutterRoot(kr, 0.0, 0.0, 0.0, Complex(-1.0, 0.0), true, [], [])
    else
      var g := if kr > 1.5 then -0.5 else 0.5;
      FlutterRoot(kr, g, 1.0, kr, Complex(1.0, g), false, [], [])
  }

  function DippingAnalysis(): Analysis {
    Analysis(1, (kr, prev) => [DippingUGRoot(kr)], r => Damping(r))
  }

  function DippingCrossover(): Crossover {
    Crossover(Solution(2.0, [DippingUGRoot(2.0)]), Solution(1.0, [DippingUGRoot(1.0)]), 0, None)
  }

  /** The bracket from 2 to 1 has physical ends with dampings -1/2 and 1/2; its first trial point 1.5 is unphysical, and
      the search returns it, whatever the tolerance. */
  lemma PhysicalBracketEndsUnphysical(gTol: real, iters: nat)
    requires gTol >= 0.0 && iters > 0
    ensures IsUGAnalysis(DippingAnalysis()) && WellFormed(DippingAnalysis(), DippingCrossover())
    ensures Planned(DippingAnalysis(), DippingCrossover(), gTol, iters) == [1.5]
    ensures MeetsUnphysical(DippingAnalysis(), DippingCrossover(), gTol, iters)
    ensures RootFor(DippingAnalysis(), DippingCrossover(), gTol, iters).V == 0.0
  {
    var env, c := DippingAnalysis(), DippingCrossover();
    forall v, prev
      ensures SolutionAt(Solution(v, env.At(v, prev)))
    {
      assert RootAt(DippingUGRoot(v), v);
    }
    assert StartBracket(env, c) == Bracket(2.0, -0.5, 1.0, 0.5);
    assert Trial(StartBracket(env, c)) == 1.5;
    assert DampingAt(env, c.lower.roots, 0)(1.5) == 0.0;
    assert Planned(env, c, gTol, iters) == [1.5];
    assert 1.5 in Planned(env, c, gTol, iters) && UnphysicalAt(env, c, 1.5);
    EndsUnphysicalExactly(env, c, gTol, iters);
  }
}
