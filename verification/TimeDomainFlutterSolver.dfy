/** The time-domain flutter solver: scanning, crossover detection, the searches over the stored crossovers and
    the queries on the roots found. */
module TimeDomainFlutter {
  import opened Scalars
  import opened OrderedContainers
  import opened ModeTracking
  import opened FlutterRoots
  import opened FlutterSolutions
  import opened RegulaFalsi
  import opened CrossoverSearch
  import opened CrossoverObjects
  import opened CompleteRuns
  import opened CrossoverDetection
  import opened ScanFailures
  import opened SolutionTracking
  import opened UntrackedSearch
  import opened VelocitySweep

  /** The start value of the frequency maximum. */
  const LOWEST_FREQUENCY := -10000000000000000000000000000000000000000000000000000000000000000000000000000000000000000000000000000.0

  /** The roots at velocity v tracked against the previous ones. */
  function TrackedRoots(v: real, eig: EigenSolution, prev: seq<FlutterRoot>): seq<FlutterRoot> {
    var cur := TimeDomainRoots(v, eig);
    if |prev| == |cur| then Tracked(SymmetricScore(eig.size, eig.B), prev, cur, 0) else cur
  }

  class TimeDomainFlutterSolver {
    /** Assembly and eigensolution at a velocity. */
    const eigen: real -> EigenSolution
    const nRoots: nat
    const vLower: real
    const vUpper: real
    const nVDivs: nat

    var flutterSolutions: seq<Pair<Solution>>
    var flutterCrossovers: CrossoverMap
    var assertFailed: bool

    constructor (eigen: real -> EigenSolution, nRoots: nat, vLower: real, vUpper: real, nVDivs: nat)
      requires nRoots > 0 && forall v :: |eigen(v).triples| == nRoots
      ensures this.eigen == eigen && this.nRoots == nRoots
      ensures this.vLower == vLower && this.vUpper == vUpper && this.nVDivs == nVDivs
      ensures flutterSolutions == [] && flutterCrossovers == [] && !assertFailed && Consistent()
    {
      this.eigen, this.nRoots, this.vLower, this.vUpper, this.nVDivs := eigen, nRoots, vLower, vUpper, nVDivs;
      flutterSolutions, flutterCrossovers, assertFailed := [], [], false;
      new;
      EnvIsWellPosed();
    }

    ghost predicate EigenContract() {
      nRoots > 0 && forall v :: |eigen(v).triples| == nRoots
    }

    ghost function Env(): Analysis {
      Analysis(nRoots, (v, prev) => TrackedRoots(v, eigen(v), prev), r => Damping(r))
    }

    ghost function State(): SearchState
      reads this, Objects(flutterCrossovers)
    {
      SearchState(flutterSolutions, Values(flutterCrossovers), assertFailed)
    }

    ghost predicate Consistent()
      reads this, Objects(flutterCrossovers)
    {
      EigenContract() && Distinct(flutterCrossovers) && Valid(Env(), State())
    }

    lemma EnvIsWellPosed()
      requires EigenContract()
      ensures WellPosed(Env()) && Env().nRoots == nRoots
      ensures forall r :: Env().damping(r) == Damping(r)
    {
    }

    /** The roots of a solution are those of the eigensolution at its velocity, and follow the previous ones. */
    ghost predicate FollowsRoots(prev: seq<FlutterRoot>, s: Solution) {
      Follows(TwoSided, TimeDomainRootsAt(s.refVal), eigen(s.refVal), prev, s.roots)
    }

    /** The same, or without previous roots those of the eigensolution as they came. */
    ghost predicate IsAnalysed(prev: Option<seq<FlutterRoot>>, s: Solution) {
      if prev.Some? then FollowsRoots(prev.value, s)
      else Belong(TimeDomainRootsAt(s.refVal), eigen(s.refVal).triples, s.roots)
    }

    lemma AnalysisFollows(v: real, prev: seq<FlutterRoot>)
      requires EigenContract()
      ensures |prev| == nRoots ==> FollowsRoots(prev, Solution(v, Env().At(v, prev)))
      ensures IsAnalysed(None, Solution(v, TimeDomainRoots(v, eigen(v))))
    {
      hide Follows, SymmetricScore, Tracked;
      if |prev| == nRoots {
        TrackedFollows(v, eigen(v), prev);
      }
      FirstTimeDomainRoots(v, eigen(v));
    }

    lemma TrialFollows(prev: seq<FlutterRoot>, s: Solution)
      requires EigenContract() && |prev| == nRoots && s.roots == Env().At(s.refVal, prev)
      ensures FollowsRoots(prev, s)
    {
      hide FollowsRoots, Env;
      AnalysisFollows(s.refVal, prev);
    }

    lemma AnalysisIs(v: real, prev: Option<seq<FlutterRoot>>)
      requires EigenContract() && (prev.Some? ==> |prev.value| == nRoots)
      ensures IsAnalysed(prev, Solution(v, if prev.Some? then Env().At(v, prev.value)
                                        else TimeDomainRoots(v, eigen(v))))
    {
      hide FollowsRoots, SymmetricScore, Tracked, TimeDomainRoot;
      AnalysisFollows(v, if prev.Some? then prev.value else []);
    }

    /** Eigensolution at a velocity, sorted against the previous solution if there is one. */
    method Analyze(vRef: real, prev: Option<seq<FlutterRoot>>) returns (sol: TimeDomainFlutterSolution)
      requires EigenContract() && (prev.Some? ==> |prev.value| == nRoots)
      ensures fresh(sol) && sol.refVal == vRef && |sol.roots| == nRoots
      ensures sol.roots == if prev.Some? then Env().At(vRef, prev.value) else TimeDomainRoots(vRef, eigen(vRef))
      ensures IsAnalysed(prev, Solution(vRef, sol.roots))
    {
      hide IsAnalysed, FollowsRoots, SymmetricScore, StrictlyPrefers, Exceeds, Tracked, TimeDomainRoot;
      AnalysisIs(vRef, prev);
      sol := new TimeDomainFlutterSolution(vRef, eigen(vRef));
      if prev.Some? {
        sol.Sort(prev.value);
      }
    }

    /** Analyses a velocity and adds the solution under it; an existing key keeps its solution and fails the
        assertion. */
    method AnalyzeAndAdd(v: real, prev: Option<seq<FlutterRoot>>) returns (newSol: Solution)
      requires EigenContract() && (prev.Some? ==> |prev.value| == nRoots)
      modifies this`flutterSolutions, this`assertFailed
      ensures newSol.refVal == v && |newSol.roots| == nRoots
      ensures newSol.roots == if prev.Some? then Env().At(v, prev.value) else TimeDomainRoots(v, eigen(v))
      ensures IsAnalysed(prev, newSol)
      ensures flutterSolutions == InsertUnique(old(flutterSolutions), Pair(v, newSol))
      ensures assertFailed == (old(assertFailed) || HasKey(old(flutterSolutions), v))
    {
      hide IsAnalysed;
      var sol := Analyze(v, prev);
      newSol := Solution(v, sol.roots);
      if HasKey(flutterSolutions, v) {
        assertFailed := true;
      } else {
        flutterSolutions := Insert(flutterSolutions, Pair(v, newSol));
      }
    }

    // -------------------------------------------------------------------------------------------
    // Searching one bracket
    // -------------------------------------------------------------------------------------------

    method BisectionSearch(lower: Solution, upper: Solution, rootNum: nat, gTol: real, maxIters: nat)
      returns (converged: bool, newSol: Solution)
      requires EigenContract() && StrictlySorted(flutterSolutions)
      requires |lower.roots| == |upper.roots| == nRoots && rootNum < nRoots
      requires WellFormed(Env(), Crossover(lower, upper, rootNum, None)) && gTol >= 0.0 && maxIters > 0
      modifies this`flutterSolutions, this`assertFailed
      ensures SearchOutcome(Env(), Crossover(lower, upper, rootNum, None), gTol, maxIters,
                            old(flutterSolutions), old(assertFailed), flutterSolutions, assertFailed, newSol)
      ensures |newSol.roots| == nRoots && (converged <==> Abs(Damping(newSol.roots[rootNum])) <= gTol)
      ensures FollowsRoots(lower.roots, newSol)
    {
      EnvIsWellPosed();
      hide *;
      ghost var env, c := Env(), Crossover(lower, upper, rootNum, None);
      ghost var before, done: seq<real>, collided := flutterSolutions, [], false;
      SearchStarts(env, c, gTol, maxIters);
      RecordNone(env, lower.roots, before);
      var lowerV, lowerG := lower.refVal, Damping(lower.roots[rootNum]);
      var upperV, upperG := upper.refVal, Damping(upper.roots[rootNum]);
      newSol := lower;
      var nIters := 0;
      while nIters < maxIters
        invariant nIters <= maxIters && nIters == |done| && lowerG <= 0.0 < upperG
        invariant Searching(env, c, gTol, maxIters, done, Bracket(lowerV, lowerG, upperV, upperG))
        invariant flutterSolutions == RecordAll(env, lower.roots, before, done)
        invariant collided == Collides(before, done) && assertFailed == (old(assertFailed) || collided)
        invariant nIters > 0 ==> newSol == Solution(done[nIters - 1], env.At(done[nIters - 1], lower.roots))
        invariant nIters > 0 ==> |newSol.roots| == nRoots && Abs(Damping(newSol.roots[rootNum])) > gTol
      {
        var newV := LinearZero(lowerV, lowerG, upperV, upperG);
        RecordOne(env, lower.roots, before, done, newV);
        collided := collided || HasKey(flutterSolutions, newV);
        newSol := AnalyzeAndAdd(newV, Some(lower.roots));
        var g := Damping(newSol.roots[rootNum]);
        SearchContinues(env, c, gTol, maxIters, done, Bracket(lowerV, lowerG, upperV, upperG), newV, g);
        done := done + [newV];
        if Abs(g) <= gTol {
          TrialFollows(lower.roots, newSol);
          SearchEnds(env, c, gTol, maxIters, before, old(assertFailed), flutterSolutions, assertFailed, newSol, done);
          return true, newSol;
        }
        if g < 0.0 {
          lowerV, lowerG := newV, g;
        } else {
          upperV, upperG := newV, g;
        }
        nIters := nIters + 1;
      }
      TrialFollows(lower.roots, newSol);
      SearchExhausted(env, c, gTol, maxIters, done, Bracket(lowerV, lowerG, upperV, upperG));
      SearchEnds(env, c, gTol, maxIters, before, old(assertFailed), flutterSolutions, assertFailed, newSol, done);
      converged := false;
    }

    ghost predicate AllAnalysed(objs: set<FlutterRootCrossover>)
      reads objs
    {
      forall c <- objs :: c.root.Some? ==> RootIsAnalysed(c)
    }

    /** Of all crossovers in the list before, only the unevaluated one at position it has changed: it has a root, its
        mode of an eigensolution that follows its first end, and is now stored under the velocity of that root. */
    twostate predicate EvaluatesOnly(before: CrossoverMap, it: nat)
      reads this, Objects(before)
    {
      && it < |before| && old(before[it].val.root) == None && RootIsAnalysed(before[it].val)
      && multiset(flutterCrossovers)
         == multiset(before) - multiset{before[it]} + multiset{Pair(before[it].val.root.value.V, before[it].val)}
      && forall c <- Objects(before) | c != before[it].val :: c.root == old(c.root)
    }

    /** The root of the crossover is its mode of an eigensolution that follows its first end. */
    ghost predicate RootIsAnalysed(c: FlutterRootCrossover)
      reads c
    {
      && c.root.Some?
      && exists s: Solution ::
           FollowsRoots(c.lower.roots, s) && c.rootNum < |s.roots| && c.root == Some(s.roots[c.rootNum])
    }

    method RefineAndMove(it: nat, gTol: real, nIters: nat)
      requires Consistent() && it < |flutterCrossovers| && flutterCrossovers[it].val.root.None? && gTol >= 0.0
               && nIters > 0
      modifies this`flutterSolutions, this`flutterCrossovers, this`assertFailed, flutterCrossovers[it].val
      ensures Consistent() && Objects(flutterCrossovers) == old(Objects(flutterCrossovers))
      ensures old(flutterCrossovers[it].val).root.Some?
      ensures Evaluates(Env(), old(State()), it, gTol, nIters, State(), old(flutterCrossovers[it].val).root.value)
      ensures var cross := old(flutterCrossovers)[it];
              && RootIsAnalysed(cross.val)
              && multiset(flutterCrossovers)
                 == multiset(old(flutterCrossovers)) - multiset{cross}
                    + multiset{Pair(cross.val.root.value.V, cross.val)}
    {
      hide FollowsRoots, Valid, WellFormed, StrictlySorted, Evaluates, SearchOutcome, Insert, RemoveAt, Values,
           Env, EigenContract, Distinct, HoldsAll;
      EnvIsWellPosed();
      ghost var before := State();
      var cross := flutterCrossovers[it].val;
      ghost var c := cross.Value();
      assert before.crossovers[it].val == c == Crossover(cross.lower, cross.upper, cross.rootNum, None);
      EntryIsWellFormed(Env(), before, it);
      var converged, sol := BisectionSearch(cross.lower, cross.upper, cross.rootNum, gTol, nIters);
      OutcomeEvaluates(Env(), before, it, gTol, nIters, flutterSolutions, assertFailed, sol);
      assert Values(flutterCrossovers) == before.crossovers;
      var root := sol.roots[cross.rootNum];
      flutterCrossovers := AssignAndReinsert(flutterCrossovers, it, root);
      ghost var after := State();
      assert after == SearchState(flutterSolutions, Insert(RemoveAt(before.crossovers, it),
                                                           Pair(root.V, c.(root := Some(root)))), assertFailed);
      assert Evaluates(Env(), before, it, gTol, nIters, after, root) && Valid(Env(), after);
      hide State;
    }

    /** The common step of the two searches: refine the crossover at position it, assign its root, and move it to
        the velocity of that root. */
    method EvaluateCrossover(it: nat, gTol: real, nIters: nat)
      requires Consistent() && it < |flutterCrossovers| && flutterCrossovers[it].val.root.None? && gTol >= 0.0
               && nIters > 0
      modifies this`flutterSolutions, this`flutterCrossovers, this`assertFailed, flutterCrossovers[it].val
      ensures Consistent() && Objects(flutterCrossovers) == old(Objects(flutterCrossovers))
      ensures old(flutterCrossovers[it].val).root.Some?
      ensures Evaluates(Env(), old(State()), it, gTol, nIters, State(), old(flutterCrossovers[it].val).root.value)
      ensures EvaluatesOnly(old(flutterCrossovers), it)
      ensures old(AllAnalysed(Objects(flutterCrossovers))) ==> AllAnalysed(Objects(flutterCrossovers))
    {
      hide Consistent, Evaluates, Env, State, RootIsAnalysed;
      ghost var cross := flutterCrossovers[it].val;
      RefineAndMove(it, gTol, nIters);
      assert forall c | c in old(Objects(flutterCrossovers)) && c != cross && old(c.root.Some? ==> RootIsAnalysed(c)) ::
               c.root.Some? ==> RootIsAnalysed(c);
    }

    // -------------------------------------------------------------------------------------------
    // find_next_root, find_critical_root
    // -------------------------------------------------------------------------------------------

    /** `found` tells that a crossover was evaluated; whether the damping converged is not reported. */
    method FindNextRoot(gTol: real, nIters: nat) returns (found: bool, root: Option<FlutterRoot>)
      requires Consistent() && gTol >= 0.0 && nIters > 0
      modifies this`flutterSolutions, this`flutterCrossovers, this`assertFailed, Objects(flutterCrossovers)
      ensures Consistent() && Objects(flutterCrossovers) == old(Objects(flutterCrossovers))
      ensures State() == FindNext(Env(), old(State()), gTol, nIters)
      ensures found <==> old(Unevaluated(State().crossovers)) > 0
      ensures root == NextRoot(Env(), old(State()), gTol, nIters)
      ensures found ==>
                exists it: nat | it < |old(flutterCrossovers)| ::
                  && EvaluatesOnly(old(flutterCrossovers), it) && old(flutterCrossovers)[it].val.root == root
                  && forall k | 0 <= k < it :: old(flutterCrossovers[k].val.root) != None
    {
      hide EvaluatesOnly, Evaluates, FindNext, NextRoot, Unevaluated, Valid, Env, EigenContract, Distinct;
      ghost var before := State();
      var it := 0;
      while it < |flutterCrossovers|
        invariant it <= |flutterCrossovers|
        invariant forall k | 0 <= k < it :: flutterCrossovers[k].val.root.Some?
      {
        var cross := flutterCrossovers[it].val;
        if cross.root == None {
          assert it == FirstUnevaluated(before.crossovers);
          EvaluateCrossover(it, gTol, nIters);
          NextIsEvaluated(Env(), before, it, gTol, nIters, State(), cross.root.value);
          return true, cross.root;
        }
        it := it + 1;
      }
      NothingIsNext(Env(), before, gTol, nIters);
      return false, None;
    }

    method EvaluateFront(gTol: real, nIters: nat)
      requires Consistent() && |flutterCrossovers| > 0 && flutterCrossovers[0].val.root.None? && gTol >= 0.0
               && nIters > 0
      modifies this`flutterSolutions, this`flutterCrossovers, this`assertFailed, Objects(flutterCrossovers)
      ensures Consistent() && Objects(flutterCrossovers) == old(Objects(flutterCrossovers))
      ensures |flutterCrossovers| > 0 && Unevaluated(State().crossovers) < old(Unevaluated(State().crossovers))
      ensures FindCritical(Env(), State(), gTol, nIters) == FindCritical(Env(), old(State()), gTol, nIters)
      ensures old(AllAnalysed(Objects(flutterCrossovers))) ==> AllAnalysed(Objects(flutterCrossovers))
    {
      hide AllAnalysed, EvaluatesOnly, Evaluates, FindCritical, Valid, Env, Unevaluated;
      ghost var before, cross := State(), flutterCrossovers[0].val;
      EvaluateCrossover(0, gTol, nIters);
      EvaluatedInFront(Env(), before, gTol, nIters, State(), cross.root.value);
    }

    /** Evaluates crossovers in front until the first one has a root, and returns that root. */
    method FindCriticalRoot(gTol: real, nIters: nat) returns (found: bool, root: Option<FlutterRoot>)
      requires Consistent() && gTol >= 0.0 && nIters > 0
      modifies this`flutterSolutions, this`flutterCrossovers, this`assertFailed, Objects(flutterCrossovers)
      ensures Consistent() && Objects(flutterCrossovers) == old(Objects(flutterCrossovers))
      ensures State() == FindCritical(Env(), old(State()), gTol, nIters)
      ensures found <==> old(flutterCrossovers) != []
      ensures if found then |flutterCrossovers| > 0 && root.Some? && root == flutterCrossovers[0].val.root
              else root.None?
      ensures old(AllAnalysed(Objects(flutterCrossovers))) ==> AllAnalysed(Objects(flutterCrossovers))
    {
      hide AllAnalysed, FindCritical, Valid, Env, EigenContract, Unevaluated, Distinct;
      if |flutterCrossovers| == 0 {
        CriticalIsDone(Env(), State(), gTol, nIters);
        return false, None;
      }
      while flutterCrossovers[0].val.root == None
        invariant Consistent() && |flutterCrossovers| > 0
        invariant Objects(flutterCrossovers) == old(Objects(flutterCrossovers))
        invariant FindCritical(Env(), State(), gTol, nIters) == FindCritical(Env(), old(State()), gTol, nIters)
        invariant old(AllAnalysed(Objects(flutterCrossovers))) ==> AllAnalysed(Objects(flutterCrossovers))
        decreases Unevaluated(State().crossovers)
      {
        EvaluateFront(gTol, nIters);
      }
      CriticalIsDone(Env(), State(), gTol, nIters);
      return true, flutterCrossovers[0].val.root;
    }

    // -------------------------------------------------------------------------------------------
    // Scanning and crossover detection
    // -------------------------------------------------------------------------------------------

    /** The velocities and solutions of the scan. */
    ghost function ScanSweep(): Sweep {
      Sweep(vLower, vUpper, nVDivs, TimeDomainRoots(vLower, eigen(vLower)))
    }

    /** Scans the velocity range unless solutions are already stored, and detects the crossovers. */
    method ScanForRoots()
      requires EigenContract() && Distinct(flutterCrossovers) && nVDivs > 0 && vLower != vUpper
      modifies this`flutterSolutions, this`flutterCrossovers, this`assertFailed
      ensures old(flutterSolutions) != [] ==>
                && flutterSolutions == old(flutterSolutions)
                && flutterCrossovers == old(flutterCrossovers) && assertFailed == old(assertFailed)
      ensures old(flutterSolutions) == [] ==>
                assertFailed == old(assertFailed) && Scanned(old(Values(flutterCrossovers)))
      ensures old(flutterSolutions) == [] && old(flutterCrossovers) == [] && !assertFailed ==> ReadyToSearch()
      ensures fresh(Objects(flutterCrossovers) - old(Objects(flutterCrossovers)))
    {
      if |flutterSolutions| != 0 {
        return;
      }
      hide EigenContract, IsScan, ReadyToSearch, FollowsAlong, FindsWhatSamplesShow;
      ScanAll();
      if old(flutterCrossovers) == [] && !assertFailed {
        AfterScan();
      }
    }

    /** The scan analysed equally spaced velocities from the lower limit to the upper one, and stored them from the
        lowest up: the roots at the lower limit are those of its eigensolution, all others follow the roots one step
        before. */
    ghost predicate FollowsAlong(sols: seq<Pair<Solution>>)
      requires nVDivs > 0
    {
      && |sols| == nVDivs + 1
      && (forall j: nat | j <= nVDivs ::
            SampleAt(sols, j).refVal == vLower + j as real * ((vUpper - vLower) / nVDivs as real))
      && IsAnalysed(None, SampleAt(sols, 0))
      && forall j: nat | j < nVDivs :: FollowsRoots(SampleAt(sols, j).roots, SampleAt(sols, j + 1))
    }

    /** The solution of step j of the scan. */
    function SampleAt(sols: seq<Pair<Solution>>, j: nat): Solution
      requires |sols| == nVDivs + 1 && j <= nVDivs
    {
      sols[if vLower < vUpper then j else nVDivs - j].val
    }

    /** The crossovers found are those that the samples show. */
    ghost predicate FindsWhatSamplesShow(before: seq<Pair<Crossover>>)
      reads this, Objects(flutterCrossovers)
    {
      forall e :: e in Values(flutterCrossovers)
             <==> e in before || exists i: nat, j: nat :: Detectable(flutterSolutions, i, j, e)
    }

    lemma SweepFollows(sols: seq<Pair<Solution>>)
      requires EigenContract() && nVDivs > 0 && vLower != vUpper
      requires sols == RecordVisits(ScanSweep().Visits(Env(), nVDivs))
      ensures FollowsAlong(sols)
    {
      hide IsAnalysed, FollowsRoots, RecordVisits, Sweep.Visits, EigenContract, Sweep.V, Sweep.Roots, Env;
      var m, env := ScanSweep(), Env();
      SweepIsStored(m, env);
      forall j: nat | j <= nVDivs
        ensures SampleAt(sols, j) == Solution(m.V(j), m.Roots(env, j))
        ensures m.V(j) == vLower + j as real * ((vUpper - vLower) / nVDivs as real)
      {
        assert sols[StoredAt(m, j)] == Pair(m.V(j), m.At(env, j));
        VelocityOfStep(j);
      }
      SweepSteps(m, 0);
      StepFollows(0);
      forall j: nat | j < nVDivs
        ensures FollowsRoots(SampleAt(sols, j).roots, SampleAt(sols, j + 1))
      {
        StepFollows(j);
      }
    }

    lemma VelocityOfStep(j: nat)
      requires nVDivs > 0
      ensures ScanSweep().V(j) == vLower + j as real * ((vUpper - vLower) / nVDivs as real)
    {
    }

    /** Each step of the sweep follows the one before, and the first is the eigensolution at the lower limit. */
    lemma StepFollows(j: nat)
      requires EigenContract() && nVDivs > 0
      ensures FollowsRoots(ScanSweep().Roots(Env(), j), ScanSweep().At(Env(), j + 1))
      ensures IsAnalysed(None, ScanSweep().At(Env(), 0))
    {
      hide IsAnalysed, FollowsRoots;
      var m, env := ScanSweep(), Env();
      EnvIsWellPosed();
      SweepSteps(m, 0);
      AnalysisFollows(vLower, []);
      RootsSized(m, env, j);
      AnalysisFollows(m.V(j + 1), m.Roots(env, j));
      hide Sweep.V, Env, EigenContract;
    }

    lemma SamplesShow(before: seq<Pair<Crossover>>)
      requires IsScan(flutterSolutions, nRoots) && |flutterSolutions| > 1
      requires HoldsAll(flutterCrossovers, before, AllEntries(flutterSolutions, nRoots, nRoots))
      ensures FindsWhatSamplesShow(before)
    {
      hide Detectable, AllEntries, InsertAll, IsScan;
      forall e
        ensures e in Values(flutterCrossovers)
           <==> e in before || exists i: nat, j: nat :: Detectable(flutterSolutions, i, j, e)
      {
        DetectedExactly(flutterSolutions, nRoots, e);
        InsertAllHolds(before, AllEntries(flutterSolutions, nRoots, nRoots), e);
      }
    }

    method ScanAll()
      requires EigenContract() && Distinct(flutterCrossovers) && nVDivs > 0 && vLower != vUpper
               && flutterSolutions == []
      modifies this`flutterSolutions, this`flutterCrossovers, this`assertFailed
      ensures assertFailed == old(assertFailed) && Scanned(old(Values(flutterCrossovers)))
      ensures fresh(Objects(flutterCrossovers) - old(Objects(flutterCrossovers)))
    {
      hide RecordVisits, Repeats, Values, Env, IsScan, HoldsAll, AllEntries, Sweep.Visits, TimeDomainRoots,
           FollowsAlong, FindsWhatSamplesShow;
      var vVals := ScanVelocities();
      SampleRange(vVals);
      EnvIsWellPosed();
      SweepDoesNotRepeat(ScanSweep(), Env(), nVDivs);
      SweepIsScan(ScanSweep(), Env());
      IdentifyCrossoverPoints();
      SweepFollows(flutterSolutions);
      SamplesShow(old(Values(flutterCrossovers)));
    }

    /** The stored solutions are those of the scan, and its crossovers were added to those there before. */
    ghost predicate Scanned(before: seq<Pair<Crossover>>)
      requires nVDivs > 0
      reads this, Objects(flutterCrossovers)
    {
      && flutterSolutions == RecordVisits(ScanSweep().Visits(Env(), nVDivs))
      && IsScan(flutterSolutions, nRoots) && |flutterSolutions| == nVDivs + 1
      && HoldsAll(flutterCrossovers, before, AllEntries(flutterSolutions, nRoots, nRoots))
      && FollowsAlong(flutterSolutions) && FindsWhatSamplesShow(before)
    }

    /** A run of legal calls after which every crossover is evaluated. */
    ghost predicate RunsToTheEnd(calls: seq<Call>)
      requires Consistent()
      reads this, Objects(flutterCrossovers)
    {
      (forall c | c in calls :: Legal(c)) && Unevaluated(Run(Env(), State(), calls).crossovers) == 0
    }

    /** Which runs of one tolerance and iteration limit that evaluate all crossovers fail an insertion. */
    ghost predicate UniformRunsFailExactly()
      requires Consistent() && IsScan(flutterSolutions, nRoots)
      reads this, Objects(flutterCrossovers)
    {
      forall calls: seq<Call>, gTol, iters | Uniform(calls, gTol, iters) && RunsToTheEnd(calls) ::
        Run(Env(), State(), calls).assertFailed
        <==> || ZeroAtSomeEnd(flutterSolutions, nRoots)
             || ShareAtSomePair(Env(), flutterSolutions, nRoots, gTol, iters)
    }

    /** With one crossing mode per interval, the same of runs with any tolerances. */
    ghost predicate OneModeRunsFailExactly()
      requires Consistent() && IsScan(flutterSolutions, nRoots)
      reads this, Objects(flutterCrossovers)
    {
      forall calls: seq<Call> | RunsToTheEnd(calls) ::
        Run(Env(), State(), calls).assertFailed <==> ZeroAtSomeEnd(flutterSolutions, nRoots)
    }

    /** What a first scan leaves: the searches are defined exactly when no counted mode starts unstable; separated
        samples rule out a failing insertion in every run; a run that evaluates every crossover fails one if and only if
        a crossover has damping exactly zero at its lower end or two modes that cross in one interval are to be analysed
        at one velocity. */
    ghost predicate ReadyToSearch()
      reads this, Objects(flutterCrossovers)
    {
      && IsScan(flutterSolutions, nRoots) && |flutterSolutions| > 1
      && State() == ScanState(flutterSolutions, nRoots)
      && (Consistent() <==> forall i: nat | i < nRoots :: StartEntry(flutterSolutions, nRoots, i) == [])
      && (Separated(flutterSolutions, nRoots) ==> Safe(Env(), State()))
      && (Consistent() ==> UniformRunsFailExactly())
      && (OneModePerInterval(flutterSolutions, nRoots) ==> Consistent() && OneModeRunsFailExactly())
    }

    lemma AfterScan()
      requires EigenContract() && IsScan(flutterSolutions, nRoots) && |flutterSolutions| > 1 && !assertFailed
      requires HoldsAll(flutterCrossovers, [], AllEntries(flutterSolutions, nRoots, nRoots))
      ensures ReadyToSearch()
    {
      EnvIsWellPosed();
      hide Env, EigenContract, Valid, IsScan, OneModePerInterval, StartEntry, InsertAll, AllEntries, Separated,
           Safe, OneModeRunsFailExactly, UniformRunsFailExactly;
      ScanIsSearchable(Env(), flutterSolutions, nRoots, false);
      if Consistent() {
        UniformRunsAfterScan();
      }
      if Separated(flutterSolutions, nRoots) {
        SeparatedScanIsSafe(Env(), flutterSolutions, nRoots);
      }
      if OneModePerInterval(flutterSolutions, nRoots) {
        ScanHasOwnIntervals(Env(), flutterSolutions, nRoots);
        OneModeRunsAfterScan();
      }
    }

    lemma UniformRunsAfterScan()
      requires Consistent() && IsScan(flutterSolutions, nRoots) && |flutterSolutions| > 1
      requires State() == ScanState(flutterSolutions, nRoots)
      requires forall i: nat | i < nRoots :: StartEntry(flutterSolutions, nRoots, i) == []
      ensures UniformRunsFailExactly()
    {
      EnvIsWellPosed();
      hide Env, EigenContract, Valid, IsScan, InsertAll, AllEntries, StartEntry, ZeroAtSomeEnd, ShareAtSomePair,
           Run, Unevaluated, Uniform;
      forall calls: seq<Call>, gTol, iters | Uniform(calls, gTol, iters) && RunsToTheEnd(calls)
        ensures Run(Env(), State(), calls).assertFailed
           <==> || ZeroAtSomeEnd(flutterSolutions, nRoots)
                || ShareAtSomePair(Env(), flutterSolutions, nRoots, gTol, iters)
      {
        ScanRunFailsExactly(Env(), flutterSolutions, nRoots, calls, gTol, iters);
      }
    }

    lemma OneModeRunsAfterScan()
      requires Consistent() && IsScan(flutterSolutions, nRoots) && |flutterSolutions| > 1
      requires State() == ScanState(flutterSolutions, nRoots) && OneModePerInterval(flutterSolutions, nRoots)
      ensures OneModeRunsFailExactly()
    {
      EnvIsWellPosed();
      hide Env, EigenContract, Valid, IsScan, OneModePerInterval, InsertAll, AllEntries, ZeroAtSomeEnd, Run,
           Unevaluated;
      forall calls: seq<Call> | RunsToTheEnd(calls)
        ensures Run(Env(), State(), calls).assertFailed <==> ZeroAtSomeEnd(flutterSolutions, nRoots)
      {
        OneModeScanFailsExactly(Env(), flutterSolutions, nRoots, calls);
      }
    }

    method ScanVelocities() returns (vVals: array<real>)
      requires nVDivs > 0
      ensures fresh(vVals) && vVals.Length == nVDivs + 1
      ensures forall k | 0 <= k <= nVDivs :: vVals[k] == ScanSweep().V(k)
    {
      hide Sweep.V;
      ghost var m := ScanSweep();
      var currentV, deltaV := vLower, (vUpper - vLower) / nVDivs as real;
      SweepSteps(m, 0);
      assert deltaV == m.dV();
      vVals := new real[nVDivs + 1];
      for i := 0 to nVDivs + 1
        invariant currentV == m.V(i)
        invariant forall k | 0 <= k < i :: vVals[k] == m.V(k)
      {
        vVals[i] := currentV;
        currentV := currentV + deltaV;
        SweepSteps(m, i);
      }
      vVals[nVDivs] := vUpper;
    }

    method SampleRange(vVals: array<real>)
      requires EigenContract() && nVDivs > 0 && flutterSolutions == []
      requires vVals.Length == nVDivs + 1 && forall k | 0 <= k <= nVDivs :: vVals[k] == ScanSweep().V(k)
      modifies this`flutterSolutions, this`assertFailed
      ensures Recorded(ScanSweep().Visits(Env(), nVDivs), old(assertFailed), flutterSolutions, assertFailed)
    {
      hide RecordVisits, Repeats, Sweep.V, Env, InsertUnique, HasKey, IsAnalysed;
      EnvIsWellPosed();
      ghost var m, env, done := ScanSweep(), Env(), [];
      var prevSol: Option<seq<FlutterRoot>> := None;
      NothingRecorded(assertFailed);
      SweepSteps(m, 0);
      for i := 0 to nVDivs + 1
        invariant Recorded(done, old(assertFailed), flutterSolutions, assertFailed)
        invariant i == 0 ==> done == [] && prevSol == None
        invariant i > 0 ==> done == m.Visits(env, i - 1) && prevSol == Some(m.Roots(env, i - 1))
      {
        if i > 0 {
          RootsSized(m, env, i - 1);
        }
        RecordedNext(done, old(assertFailed), flutterSolutions, assertFailed, m.At(env, i));
        var sol := AnalyzeAndAdd(vVals[i], prevSol);
        assert sol == m.At(env, i);
        done := done + [m.At(env, i)];
        prevSol := Some(sol.roots);
      }
    }

    lemma NeglectedDoNotCount()
      requires IsScan(flutterSolutions, nRoots)
      ensures forall i: nat | i < nRoots :: Neglected(flutterSolutions, i, nRoots) <==> !Counts(flutterSolutions, i)
    {
      hide Neglected, Counts;
      forall i: nat | i < nRoots {
        CountsUnlessNeglected(flutterSolutions, nRoots, i);
      }
    }

    /** Whether each mode is neglected: it trails along zero damping or has negative frequency throughout. */
    method ModesToNeglect() returns (modesToNeglect: seq<bool>)
      requires IsScan(flutterSolutions, nRoots) && |flutterSolutions| > 0
      ensures |modesToNeglect| == nRoots
      ensures forall i | 0 <= i < nRoots :: modesToNeglect[i] <==> Neglected(flutterSolutions, i, nRoots)
      ensures forall i | 0 <= i < nRoots :: modesToNeglect[i] <==> !Counts(flutterSolutions, i)
    {
      modesToNeglect := [];
      for i := 0 to nRoots
        invariant |modesToNeglect| == i
        invariant forall k | 0 <= k < i :: modesToNeglect[k] <==> Neglected(flutterSolutions, k, nRoots)
      {
        var maxG, maxW := 0.0, LOWEST_FREQUENCY;
        for j := 0 to |flutterSolutions|
          invariant maxG >= 0.0
          invariant maxG < TOL <==> forall k | 0 <= k < j :: Abs(G(flutterSolutions, i, k)) < TOL
          invariant maxW < 0.0 <==> forall k | 0 <= k < j :: flutterSolutions[k].val.roots[i].root.im < 0.0
        {
          var root := flutterSolutions[j].val.roots[i].root;
          assert Abs(root.re) == Abs(G(flutterSolutions, i, j));
          if Abs(root.re) > maxG {
            maxG := Abs(root.re);
          }
          if root.im > maxW {
            maxW := root.im;
          }
        }
        modesToNeglect := modesToNeglect + [maxG < TOL || maxW < 0.0];
      }
      NeglectedDoNotCount();
    }

    /** Adds one crossover to those found so far. */
    method AddCrossover(lower: Solution, upper: Solution, i: nat,
                        ghost start: seq<Pair<Crossover>>, ghost found: seq<Pair<Crossover>>)
      requires i < |lower.roots| && HoldsAll(flutterCrossovers, start, found)
      modifies this`flutterCrossovers
      ensures HoldsAll(flutterCrossovers, start, found + [Entry(lower, upper, i)])
      ensures fresh(Objects(flutterCrossovers) - old(Objects(flutterCrossovers)))
    {
      var cross := new FlutterRootCrossover(lower, upper, i);
      var e := Pair(lower.roots[i].V, cross);
      HoldsOneMore(flutterCrossovers, start, found, e);
      hide HoldsAll, Insert;
      flutterCrossovers := Insert(flutterCrossovers, e);
    }

    /** Detects the crossovers of all modes on the stored solutions. */
    method IdentifyCrossoverPoints()
      requires IsScan(flutterSolutions, nRoots) && |flutterSolutions| > 1 && Distinct(flutterCrossovers)
      modifies this`flutterCrossovers
      ensures HoldsAll(flutterCrossovers, old(Values(flutterCrossovers)), AllEntries(flutterSolutions, nRoots, nRoots))
      ensures fresh(Objects(flutterCrossovers) - old(Objects(flutterCrossovers)))
    {
      hide Neglected, ModeEntries, HoldsAll, Values, Distinct;
      HoldsNone(flutterCrossovers);
      ghost var sols, start, before := flutterSolutions, Values(flutterCrossovers), Objects(flutterCrossovers);
      var modesToNeglect := ModesToNeglect();
      for i := 0 to nRoots
        invariant HoldsAll(flutterCrossovers, start, AllEntries(sols, nRoots, i))
        invariant fresh(Objects(flutterCrossovers) - before)
      {
        IdentifyForMode(i, modesToNeglect[i], start, AllEntries(sols, nRoots, i));
      }
    }

    /** The crossovers of one mode: every pair of neighbouring solutions, then the first solution. */
    method IdentifyForMode(i: nat, neglect: bool, ghost start: seq<Pair<Crossover>>, ghost found: seq<Pair<Crossover>>)
      requires IsScan(flutterSolutions, nRoots) && |flutterSolutions| > 1
      requires i < nRoots && (neglect <==> Neglected(flutterSolutions, i, nRoots))
      requires HoldsAll(flutterCrossovers, start, found)
      modifies this`flutterCrossovers
      ensures HoldsAll(flutterCrossovers, start, found + ModeEntries(flutterSolutions, nRoots, i))
      ensures fresh(Objects(flutterCrossovers) - old(Objects(flutterCrossovers)))
    {
      hide Neglected, HoldsAll;
      var sols := flutterSolutions;
      ghost var before := Objects(flutterCrossovers);
      assert found + PairEntries(sols, nRoots, i, 0) == found;
      for j := 0 to |sols| - 1
        invariant HoldsAll(flutterCrossovers, start, found + PairEntries(sols, nRoots, i, j))
        invariant fresh(Objects(flutterCrossovers) - before)
      {
        var ifProcess := (Abs(sols[j].val.refVal) > TOL || Abs(sols[j + 1].val.refVal) > TOL) && !neglect;
        ghost var sofar := found + PairEntries(sols, nRoots, i, j);
        assert found + PairEntries(sols, nRoots, i, j + 1) == sofar + PairEntry(sols, nRoots, i, j);
        if ifProcess {
          var lower, upper := sols[j].val, sols[j + 1].val;
          if Damping(lower.roots[i]) <= 0.0 && Damping(upper.roots[i]) > 0.0 {
            AddCrossover(lower, upper, i, start, sofar);
          } else if Damping(lower.roots[i]) > 0.0 && Damping(upper.roots[i]) <= 0.0 {
            AddCrossover(upper, lower, i, start, sofar);
          } else {
            assert sofar + [] == sofar;
          }
        } else {
          assert sofar + [] == sofar;
        }
      }
      IdentifyStart(i, neglect, start, found + PairEntries(sols, nRoots, i, |sols| - 1));
      assert found + ModeEntries(sols, nRoots, i)
          == found + PairEntries(sols, nRoots, i, |sols| - 1) + StartEntry(sols, nRoots, i);
    }

    /** A mode that is unstable at the first velocity. */
    method IdentifyStart(i: nat, neglect: bool, ghost start: seq<Pair<Crossover>>, ghost found: seq<Pair<Crossover>>)
      requires IsScan(flutterSolutions, nRoots) && |flutterSolutions| > 1
      requires i < nRoots && (neglect <==> Neglected(flutterSolutions, i, nRoots))
      requires HoldsAll(flutterCrossovers, start, found)
      modifies this`flutterCrossovers
      ensures HoldsAll(flutterCrossovers, start, found + StartEntry(flutterSolutions, nRoots, i))
      ensures fresh(Objects(flutterCrossovers) - old(Objects(flutterCrossovers)))
    {
      hide Neglected, HoldsAll;
      var sols := flutterSolutions;
      var ifProcess := (Abs(sols[0].val.refVal) > TOL || Abs(sols[1].val.refVal) > TOL) && !neglect;
      if ifProcess && Damping(sols[0].val.roots[i]) > 0.0 {
        AddCrossover(sols[0].val, sols[0].val, i, start, found);
      } else {
        assert found + [] == found;
      }
    }

    // -------------------------------------------------------------------------------------------
    // The critical root without mode tracking
    // -------------------------------------------------------------------------------------------

    /** Real matrices have conjugate roots, so the upper half plane holds at least one. */
    ghost predicate UpperHalfContract() {
      forall v :: HasUpperHalf(TimeDomainRoots(v, eigen(v)))
    }

    lemma TrackingKeepsUpperHalf(v: real, prev: seq<FlutterRoot>)
      requires UpperHalfContract()
      ensures HasUpperHalf(Env().At(v, prev))
    {
      var cur, eig := TimeDomainRoots(v, eigen(v)), eigen(v);
      assert HasUpperHalf(cur);
      if |prev| == |cur| {
        TrackedPermutes(SymmetricScore(eig.size, eig.B), prev, cur, 0);
        var r :| r in cur && InUpperHalf(r);
        assert r in multiset(Env().At(v, prev));
      }
    }

    /** Analyses and stores a velocity, and looks for its critical root. */
    method AnalyzeCritical(v: real, prev: Option<seq<FlutterRoot>>, gTol: real)
      returns (newSol: Solution, nUnstable: nat, critical: FlutterRoot)
      requires EigenContract() && UpperHalfContract() && (prev.Some? ==> |prev.value| == nRoots)
      modifies this`flutterSolutions, this`assertFailed
      ensures newSol.refVal == v && |newSol.roots| == nRoots
      ensures newSol.roots == if prev.Some? then Env().At(v, prev.value) else TimeDomainRoots(v, eigen(v))
      ensures flutterSolutions == InsertUnique(old(flutterSolutions), Pair(v, newSol))
      ensures assertFailed == (old(assertFailed) || HasKey(old(flutterSolutions), v))
      ensures nUnstable > 0 <==> Unstable(gTol, newSol.roots)
      ensures CriticalRoot(gTol, newSol.roots) == Some(critical)
              && CriticalDamping(gTol, newSol.roots) == critical.root.re
    {
      hide TimeDomainRoots, InsertUnique, HasKey;
      newSol := AnalyzeAndAdd(v, prev);
      var sol := new TimeDomainFlutterSolution(v, eigen(v));
      sol.roots := newSol.roots;
      nUnstable := sol.NUnstableRootsInUpperComplexHalf(gTol);
      var c := sol.GetCriticalRoot(gTol);
      if prev.Some? {
        TrackingKeepsUpperHalf(v, prev.value);
      }
      assert HasUpperHalf(newSol.roots);
      critical := newSol.roots[c];
    }

    /** Marches from the lower velocity to the first unstable one, or to the upper velocity. */
    method MarchToInstability(gTol: real)
      returns (lowerV: real, lowerRoot: FlutterRoot, upperV: real, upperRoot: FlutterRoot, sol: Solution,
               nUnstable: nat,
               ghost visits: seq<Solution>)
      requires EigenContract() && UpperHalfContract() && flutterSolutions == []
      requires nVDivs > 0
      modifies this`flutterSolutions, this`assertFailed
      ensures Recorded(visits, old(assertFailed), flutterSolutions, assertFailed)
      ensures Marched(ScanSweep(), Env(), gTol, visits, Bracket(lowerV, lowerRoot.root.re, upperV, upperRoot.root.re),
                      sol.roots)
      ensures |sol.roots| == nRoots && (nUnstable > 0 <==> Unstable(gTol, sol.roots))
      ensures CriticalRoot(gTol, sol.roots) == Some(upperRoot)
    {
      hide Env, EigenContract, UpperHalfContract, TimeDomainRoots, RecordVisits, Repeats, InsertUnique, HasKey;
      hide Sweep.V, Sweep.Visits, Stop, CriticalDamping, CriticalRoot, Unstable, Marching, Recorded, AtStep, Marched;
      EnvIsWellPosed();
      ghost var m, env := ScanSweep(), Env();
      NothingRecorded(assertFailed);
      MarchBegins(m, env, gTol);
      ghost var j := 1;
      var dV := (vUpper - vLower) / nVDivs as real;
      lowerV := vLower;
      sol, nUnstable, lowerRoot := AnalyzeCritical(lowerV, None, gTol);
      visits := [sol];
      RecordedNext([], old(assertFailed), [], old(assertFailed), sol);
      assert [] + [sol] == [sol];
      upperV, upperRoot := lowerV, lowerRoot;
      var cont := true;
      while cont
        invariant 0 < j <= nVDivs && |sol.roots| == nRoots
        invariant Recorded(visits, old(assertFailed), flutterSolutions, assertFailed)
        invariant cont ==>
                    && Marching(m, env, gTol, j, visits)
                    && AtStep(m, env, gTol, j - 1, lowerV, sol.roots, lowerRoot.root.re)
        invariant !cont ==> Marched(m, env, gTol, visits, Bracket(lowerV, lowerRoot.root.re, upperV, upperRoot.root.re),
                                    sol.roots)
        invariant !cont ==>
                    && (nUnstable > 0 <==> Unstable(gTol, sol.roots))
                    && CriticalRoot(gTol, sol.roots) == Some(upperRoot)
        decreases cont, nVDivs - j
      {
        ghost var before, lowerRoots, sols, failed := visits, sol.roots, flutterSolutions, assertFailed;
        upperV := lowerV + dV;
        sol, nUnstable, upperRoot := AnalyzeCritical(upperV, Some(sol.roots), gTol);
        RecordedNext(before, old(assertFailed), sols, failed, sol);
        visits := before + [sol];
        MarchStep(m, env, gTol, j, before, lowerV, lowerRoots, lowerRoot.root.re, upperV, sol.roots, upperRoot.root.re);
        if nUnstable > 0 || upperV >= vUpper {
          cont := false;
        } else {
          lowerV, lowerRoot := upperV, upperRoot;
          j := j + 1;
        }
      }
    }

    /** Refines the bracket until the critical damping is positive and within the tolerance. */
    method RefineBracket(gTol: real, nBisectionIters: nat, lower: (real, real), upper: (real, real), start: Solution,
                         startRoot: FlutterRoot, ghost before: seq<Solution>, ghost failed: bool)
      returns (r: Outcome, ghost s: seq<Solution>)
      requires EigenContract() && UpperHalfContract() && |start.roots| == nRoots
      requires Recorded(before, failed, flutterSolutions, assertFailed)
      requires CriticalRoot(gTol, start.roots) == Some(startRoot)
      modifies this`flutterSolutions, this`assertFailed
      ensures s == Refine(Env(), gTol, Bracket(lower.0, lower.1, upper.0, upper.1), start.roots, nBisectionIters)
      ensures Recorded(before + s, failed, flutterSolutions, assertFailed)
      ensures r == RefineOutcome(gTol, nBisectionIters, start.roots, s)
    {
      hide Env, EigenContract, UpperHalfContract, TimeDomainRoots, RecordVisits, Repeats, InsertUnique, HasKey;
      hide Refine, CriticalDamping, CriticalRoot, Unstable, DampedZero, Refining, Recorded;
      ghost var env := Env();
      var lowerV, lowerG, upperV, upperG := lower.0, lower.1, upper.0, upper.1;
      ghost var whole := Refine(env, gTol, Bracket(lowerV, lowerG, upperV, upperG), start.roots, nBisectionIters);
      RefineBegins(env, gTol, nBisectionIters, Bracket(lowerV, lowerG, upperV, upperG), start.roots);
      var sol, root := start, startRoot;
      s := [];
      assert before + s == before;
      var nIters := 0;
      while nIters < nBisectionIters
        invariant nIters == |s| <= nBisectionIters && |sol.roots| == nRoots
        invariant Refining(env, gTol, nBisectionIters, whole, s, Bracket(lowerV, lowerG, upperV, upperG), sol.roots)
        invariant Recorded(before + s, failed, flutterSolutions, assertFailed)
        invariant sol.roots == (if s == [] then start.roots else s[|s| - 1].roots)
                  && CriticalRoot(gTol, sol.roots) == Some(root)
        invariant s == [] || !Accepted(gTol, CriticalDamping(gTol, sol.roots))
      {
        if upperG == lowerG {
          RefineEnds(env, gTol, nBisectionIters, whole, s, Bracket(lowerV, lowerG, upperV, upperG), sol.roots);
          return DivisionByZero, s;
        }
        ghost var prev, sols, hit := sol.roots, flutterSolutions, assertFailed;
        var newV := DampedZero(lowerV, lowerG, upperV, upperG);
        var n;
        sol, n, root := AnalyzeCritical(newV, Some(sol.roots), gTol);
        RecordedNext(before + s, failed, sols, hit, sol);
        assert before + s + [sol] == before + (s + [sol]);
        var g := root.root.re;
        RefineContinues(env, gTol, nBisectionIters, whole, s, Bracket(lowerV, lowerG, upperV, upperG), prev, newV,
                        sol.roots, g);
        s := s + [sol];
        if g > 0.0 && g <= gTol {
          return Found(Some(root)), s;
        }
        if g < 0.0 {
          lowerV, lowerG := newV, g;
        } else {
          upperV, upperG := newV, g;
        }
        nIters := nIters + 1;
      }
      RefineEnds(env, gTol, nBisectionIters, whole, s, Bracket(lowerV, lowerG, upperV, upperG), sol.roots);
      r := NotConverged(Some(root));
    }

    /** What a call reports: the march went through equally spaced velocities, the refinement through the damped
        velocities of its brackets, every eigensolution followed the one before it, and the outcome tells what was met
        among them. */
    ghost predicate Reports(r: Outcome, gTol: real, iters: nat, marched: seq<Solution>, refined: seq<Solution>)
      requires nVDivs > 0
    {
      && Concludes(r, gTol, iters, marched, refined) && RefinesBracket(r, gTol, marched, refined)
      && (forall j: nat | j < |marched| ::
            marched[j].refVal == vLower + j as real * ((vUpper - vLower) / nVDivs as real))
      && IsAnalysed(None, marched[0])
      && (forall j | 0 < j < |marched| :: FollowsRoots(marched[j - 1].roots, marched[j]))
      && (forall k | 0 <= k < |refined| :: FollowsRoots((marched + refined)[|marched| + k - 1].roots, refined[k]))
      && (vLower > 0.0 ==> !HasUnstable(gTol, marched[0].roots))
      && (r.NoInstability? ==> marched[|marched| - 1].refVal >= vUpper)
      && (r.NotConverged? ==> r.root.Some?)
    }

    lemma VisitsFollow(k: nat)
      requires EigenContract() && nVDivs > 0
      ensures var s := ScanSweep().Visits(Env(), k);
              && IsAnalysed(None, s[0])
              && (forall j: nat | j < |s| ::
                    s[j] == ScanSweep().At(Env(), j)
                    && s[j].refVal == vLower + j as real * ((vUpper - vLower) / nVDivs as real))
              && forall j | 0 < j < |s| :: FollowsRoots(s[j - 1].roots, s[j])
    {
      hide IsAnalysed, FollowsRoots, Env, EigenContract, Sweep.V, Sweep.Roots, Sweep.Visits;
      var m, env := ScanSweep(), Env();
      StepFollows(0);
      forall j: nat | j <= k
        ensures m.Visits(env, k)[j] == m.At(env, j)
        ensures m.V(j) == vLower + j as real * ((vUpper - vLower) / nVDivs as real)
      {
        VisitsAre(m, env, k, j);
        VelocityOfStep(j);
      }
      forall j | 0 < j <= k
        ensures FollowsRoots(m.At(env, j - 1).roots, m.At(env, j))
      {
        StepFollows(j - 1);
      }
    }

    lemma RefinementsFollow(gTol: real, iters: nat, j: nat)
      requires EigenContract() && nVDivs > 0 && j < |Refinements(ScanSweep(), Env(), gTol, iters)|
      ensures var refined := Refinements(ScanSweep(), Env(), gTol, iters);
              var marched := Marches(ScanSweep(), Env(), gTol);
              && |marched| > 0
              && FollowsRoots((marched + refined)[|marched| + j - 1].roots, refined[j])
      decreases j
    {
      hide FollowsRoots, Env, Sweep.V, Sweep.Roots, Sweep.Visits, Refine, Unstable, CriticalDamping, TimeDomainRoots;
      var m, env := ScanSweep(), Env();
      var k := Stop(m, env, gTol, 1);
      var refined := Refinements(m, env, gTol, iters);
      EnvIsWellPosed();
      RootsSized(m, env, k);
      VisitsAre(m, env, k, k);
      RefineVelocity(env, gTol, MarchBracket(m, env, gTol, k), m.Roots(env, k), iters, j);
      if j > 0 {
        RefinementsFollow(gTol, iters, j - 1);
        RefinementsSized(gTol, iters, j - 1);
      }
      AnalysisFollows(refined[j].refVal, if j == 0 then m.Roots(env, k) else refined[j - 1].roots);
    }

    lemma RefinementsSized(gTol: real, iters: nat, j: nat)
      requires EigenContract() && nVDivs > 0 && j < |Refinements(ScanSweep(), Env(), gTol, iters)|
      ensures |Refinements(ScanSweep(), Env(), gTol, iters)[j].roots| == nRoots
      decreases j
    {
      hide Env, Sweep.V, Sweep.Roots, Refine, Unstable, CriticalDamping;
      var m, env := ScanSweep(), Env();
      var k := Stop(m, env, gTol, 1);
      EnvIsWellPosed();
      RootsSized(m, env, k);
      RefineVelocity(env, gTol, MarchBracket(m, env, gTol, k), m.Roots(env, k), iters, j);
      if j > 0 {
        RefinementsSized(gTol, iters, j - 1);
      }
    }

    lemma SweepHasUpperHalf(j: nat)
      requires UpperHalfContract() && nVDivs > 0
      ensures HasUpperHalf(ScanSweep().Roots(Env(), j))
    {
      if j > 0 {
        TrackingKeepsUpperHalf(ScanSweep().V(j), ScanSweep().Roots(Env(), j - 1));
      }
      hide Env, TimeDomainRoots, Sweep.V;
    }

    lemma UpperHalfHasCritical(tol: real, roots: seq<FlutterRoot>)
      requires HasUpperHalf(roots)
      ensures CriticalRoot(tol, roots).Some?
    {
      CountAndCriticalAgree(tol, roots);
    }

    /** Every solution of the call has a critical root. */
    lemma OutcomeHasRoot(gTol: real, iters: nat)
      requires EigenContract() && UpperHalfContract() && nVDivs > 0
      ensures var r := UntrackedOutcome(ScanSweep(), Env(), gTol, iters); r.NotConverged? ==> r.root.Some?
    {
      hide Env, Sweep.V, Sweep.Roots, Refine, Unstable, CriticalDamping, CriticalRoot, Accepted, HasUpperHalf,
           UpperHalfContract, EigenContract;
      var m, env := ScanSweep(), Env();
      var k := Stop(m, env, gTol, 1);
      SweepHasUpperHalf(k);
      UpperHalfHasCritical(gTol, m.Roots(env, k));
      var s := Refinements(m, env, gTol, iters);
      if s != [] {
        var j := |s| - 1;
        RefineVelocity(env, gTol, MarchBracket(m, env, gTol, k), m.Roots(env, k), iters, j);
        TrackingKeepsUpperHalf(s[j].refVal, if j == 0 then m.Roots(env, k) else s[j - 1].roots);
        UpperHalfHasCritical(gTol, s[j].roots);
      }
    }

    /** The call of the specification reports what it should. */
    lemma OutcomeIsReported(gTol: real, iters: nat)
      requires EigenContract() && UpperHalfContract() && nVDivs > 0
      requires vLower > 0.0 ==> !Unstable(gTol, TimeDomainRoots(vLower, eigen(vLower)))
      ensures Reports(UntrackedOutcome(ScanSweep(), Env(), gTol, iters), gTol, iters,
                      Marches(ScanSweep(), Env(), gTol), Refinements(ScanSweep(), Env(), gTol, iters))
    {
      hide FollowsRoots, IsAnalysed, Env, EigenContract, UpperHalfContract, Sweep.V, Sweep.Visits, Refine,
           Unstable, CriticalDamping, Concludes, RefinesBracket, Stop, TimeDomainRoots;
      var m, env := ScanSweep(), Env();
      OutcomeMeaning(m, env, gTol, iters);
      OutcomeRefines(m, env, gTol, iters);
      OutcomeHasRoot(gTol, iters);
      var k := Stop(m, env, gTol, 1);
      VisitsFollow(k);
      forall j: nat | j < |Refinements(m, env, gTol, iters)| {
        RefinementsFollow(gTol, iters, j);
      }
      StopIsFirstUnstable(m, env, gTol, 1);
      UnstableMeaning(gTol, m.first);
    }

    /** The critical root in the velocity range, without mode tracking over the whole range. */
    method AnalyzeAndFindCriticalRootWithoutTracking(gTol: real, nBisectionIters: nat)
      returns (r: Outcome, ghost marched: seq<Solution>, ghost refined: seq<Solution>)
      requires EigenContract() && UpperHalfContract()
      requires flutterSolutions == [] && flutterCrossovers == []
      requires nVDivs > 0
      requires vLower > 0.0 ==> !Unstable(gTol, TimeDomainRoots(vLower, eigen(vLower)))
      modifies this`flutterSolutions, this`assertFailed
      ensures Recorded(AllVisits(ScanSweep(), Env(), gTol, nBisectionIters), old(assertFailed), flutterSolutions,
                       assertFailed)
      ensures r == UntrackedOutcome(ScanSweep(), Env(), gTol, nBisectionIters)
      ensures Recorded(marched + refined, old(assertFailed), flutterSolutions, assertFailed)
      ensures Reports(r, gTol, nBisectionIters, marched, refined)
    {
      hide Reports, Env, EigenContract, UpperHalfContract, Recorded, Marched, Refine, Unstable, AllVisits,
           UntrackedOutcome, RefineOutcome;
      var lowerV, lowerRoot, upperV, upperRoot, sol, nUnstable, visits := MarchToInstability(gTol);
      MarchEnds(ScanSweep(), Env(), gTol, nBisectionIters, visits,
                Bracket(lowerV, lowerRoot.root.re, upperV, upperRoot.root.re), sol.roots);
      marched := Marches(ScanSweep(), Env(), gTol);
      refined := Refinements(ScanSweep(), Env(), gTol, nBisectionIters);
      OutcomeMeaning(ScanSweep(), Env(), gTol, nBisectionIters);
      OutcomeIsReported(gTol, nBisectionIters);
      if nUnstable == 0 {
        r := NoInstability;
        return;
      }
      ghost var s;
      r, s := RefineBracket(gTol, nBisectionIters, (lowerV, lowerRoot.root.re), (upperV, upperRoot.root.re), sol,
                            upperRoot, visits, old(assertFailed));
    }

    // -------------------------------------------------------------------------------------------
    // Queries
    // -------------------------------------------------------------------------------------------

    method NRootsFound() returns (n: nat)
      ensures n == old(|FoundRoots(State().crossovers)|)
    {
      hide FoundRoots, Valid;
      n := 0;
      ghost var vs := State().crossovers;
      NothingFound(vs);
      for i := 0 to |flutterCrossovers|
        invariant n == |FoundRoots(vs[..i])|
      {
        FoundNext(vs, i);
        if flutterCrossovers[i].val.root.Some? {
          n := n + 1;
        }
      }
      assert vs[..|vs|] == vs;
    }

    /** The n-th root found, in ascending velocity. */
    method GetRoot(n: nat) returns (root: FlutterRoot)
      requires n < |FoundRoots(State().crossovers)|
      ensures root == old(FoundRoots(State().crossovers))[n]
    {
      hide FoundRoots, Valid;
      var rootNum := 0;
      ghost var vs := State().crossovers;
      NothingFound(vs);
      assert vs[..|vs|] == vs;
      var i := 0;
      while true
        invariant i <= |vs| && rootNum == |FoundRoots(vs[..i])| <= n
        decreases |vs| - i
      {
        FoundNext(vs, i);
        FoundPrefix(vs, i + 1);
        if flutterCrossovers[i].val.root.Some? {
          if rootNum == n {
            return flutterCrossovers[i].val.root.value;
          }
          rootNum := rootNum + 1;
        }
        i := i + 1;
      }
    }
  }

  lemma MarchBegins(m: Sweep, env: Analysis, tol: real)
    requires m.divs > 0
    ensures Marching(m, env, tol, 1, [Solution(m.lo, m.first)])
    ensures AtStep(m, env, tol, 0, m.lo, m.first, CriticalDamping(tol, m.first))
  {
    SweepSteps(m, 0);
    MarchStarts(m, env, tol);
  }

  lemma RefineBegins(env: Analysis, tol: real, iters: nat, b: Bracket, prev: seq<FlutterRoot>)
    ensures Refining(env, tol, iters, Refine(env, tol, b, prev, iters), [], b, prev)
  {
  }

  lemma NothingRecorded(failed: bool)
    ensures Recorded([], failed, [], failed)
  {
  }
}
