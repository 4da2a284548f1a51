/** The U-g flutter solver: the scan, crossover detection, the searches over the stored crossovers and the queries on
    the roots found. Solutions are stored by reduced frequency and brackets lie on that axis; the damping of a root is
    g; crossovers are stored by velocity. */
module UGFlutter {
  import opened Scalars
  import opened OrderedContainers
  import opened ModeTracking
  import opened FlutterRoots
  import opened FlutterSolutions
  import opened RegulaFalsi
  import opened SolutionTracking
  import opened CrossoverSearch
  import opened CrossoverObjects
  import opened CompleteRuns
  import opened UGDetection
  import opened UGSearches
  import opened VelocitySweep
  import CD = CrossoverDetection

  /** The ends of every crossover agree with their roots. */
  ghost predicate AllAgree(objs: set<FlutterRootCrossover>) {
    forall c <- objs :: EndsAgree(c.lower, c.upper, c.rootNum)
  }

  ghost predicate AllRootsAt(objs: set<FlutterRootCrossover>)
    reads objs
  {
    forall c <- objs :: c.root.Some? ==> RootAt(c.root.value, c.root.value.kr)
  }

  /** A root without a velocity is undamped, so the search takes it for converged. */
  lemma UnphysicalIsUndamped(s: Solution, i: nat, gTol: real)
    requires SolutionAt(s) && i < |s.roots| && gTol >= 0.0
    ensures RootAt(s.roots[i], s.roots[i].kr) && s.roots[i].kr == s.refVal
    ensures s.roots[i].V == 0.0 ==> Abs(Damping(s.roots[i])) <= gTol
  {
    assert s.roots[i] in s.roots;
  }

  lemma ValuesAgree(cs: CrossoverMap)
    requires forall e <- Values(cs) :: EndsAgree(e.val.lower, e.val.upper, e.val.rootNum)
    ensures AllAgree(Objects(cs))
  {
    hide EndsAgree;
    forall c <- Objects(cs)
      ensures EndsAgree(c.lower, c.upper, c.rootNum)
    {
      var k :| 0 <= k < |cs| && cs[k].val == c;
      assert Values(cs)[k] in Values(cs);
    }
  }

  class UGFlutterSolver {
    /** Assembly and eigensolution at a reduced frequency, the exact square root and the reference length. */
    const eigen: real -> EigenSolution
    const sqrt: real -> real
    const bRef: NonZero
    const nRoots: nat
    const krLower: real
    const krUpper: real
    const nKrDivs: nat
    const includeHighestKrUnstable: bool

    var flutterSolutions: seq<Pair<Solution>>
    var flutterCrossovers: CrossoverMap
    var assertFailed: bool

    constructor (eigen: real -> EigenSolution, sqrt: real -> real, bRef: NonZero, nRoots: nat, krLower: real,
                 krUpper: real, nKrDivs: nat, includeHighestKrUnstable: bool)
      requires nRoots > 0 && ExactSqrt(sqrt) && forall kr :: |eigen(kr).triples| == nRoots
      ensures this.eigen == eigen && this.sqrt == sqrt && this.bRef == bRef && this.nRoots == nRoots
      ensures this.krLower == krLower && this.krUpper == krUpper && this.nKrDivs == nKrDivs
      ensures this.includeHighestKrUnstable == includeHighestKrUnstable
      ensures flutterSolutions == [] && flutterCrossovers == [] && !assertFailed && Consistent()
    {
      this.eigen, this.sqrt, this.bRef, this.nRoots := eigen, sqrt, bRef, nRoots;
      this.krLower, this.krUpper, this.nKrDivs := krLower, krUpper, nKrDivs;
      this.includeHighestKrUnstable := includeHighestKrUnstable;
      flutterSolutions, flutterCrossovers, assertFailed := [], [], false;
      new;
      EnvIsWellPosed();
    }

    ghost predicate EigenContract() {
      nRoots > 0 && ExactSqrt(sqrt) && forall kr :: |eigen(kr).triples| == nRoots
    }

    ghost function Env(): Analysis {
      Analysis(nRoots, (kr, prev) => TrackedUGRoots(sqrt, kr, bRef, eigen(kr), prev), r => Damping(r))
    }

    ghost function State(): SearchState
      reads this, Objects(flutterCrossovers)
    {
      SearchState(flutterSolutions, Values(flutterCrossovers), assertFailed)
    }

    ghost predicate Consistent()
      reads this, Objects(flutterCrossovers)
    {
      && EigenContract() && Distinct(flutterCrossovers) && Valid(Env(), State())
      && AllAgree(Objects(flutterCrossovers))
    }

    lemma EnvIsWellPosed()
      requires EigenContract()
      ensures WellPosed(Env()) && Env().nRoots == nRoots
      ensures forall r :: Env().damping(r) == Damping(r)
    {
    }

    lemma EnvIsUGAnalysis()
      requires EigenContract()
      ensures IsUGAnalysis(Env())
    {
      EnvIsWellPosed();
      forall v, prev
        ensures SolutionAt(Solution(v, Env().At(v, prev)))
      {
        RootsCarryFrequency(v, prev);
      }
    }

    lemma RootsCarryFrequency(kr: real, prev: seq<FlutterRoot>)
      requires EigenContract()
      ensures SolutionAt(Solution(kr, Env().At(kr, prev)))
      ensures SolutionAt(Solution(kr, UGRoots(sqrt, kr, bRef, eigen(kr))))
    {
      UGRootsAreAt(sqrt, kr, bRef, eigen(kr), prev);
    }

    /** The roots of a solution are those of the eigensolution at its reduced frequency, and follow the
        previous ones. */
    ghost predicate FollowsRoots(prev: seq<FlutterRoot>, s: Solution) {
      Follows(OneSided, UGRootsAt(s.refVal, bRef), eigen(s.refVal), prev, s.roots)
    }

    /** The same, or without previous roots those of the eigensolution as they came. */
    ghost predicate IsAnalysed(prev: Option<seq<FlutterRoot>>, s: Solution) {
      if prev.Some? then FollowsRoots(prev.value, s)
      else Belong(UGRootsAt(s.refVal, bRef), eigen(s.refVal).triples, s.roots)
    }

    lemma AnalysisFollows(kr: real, prev: seq<FlutterRoot>)
      requires EigenContract()
      ensures |prev| == nRoots ==> FollowsRoots(prev, Solution(kr, Env().At(kr, prev)))
      ensures IsAnalysed(None, Solution(kr, UGRoots(sqrt, kr, bRef, eigen(kr))))
    {
      hide Follows, OneSidedScore, Tracked, UGRoot;
      var cur := UGRoots(sqrt, kr, bRef, eigen(kr));
      TrackedUGFollows(sqrt, kr, bRef, eigen(kr), cur, cur);
      if |prev| == nRoots {
        TrackedUGFollows(sqrt, kr, bRef, eigen(kr), prev, cur);
      }
    }

    lemma TrialFollows(prev: seq<FlutterRoot>, s: Solution)
      requires EigenContract() && |prev| == nRoots && s.roots == Env().At(s.refVal, prev)
      ensures FollowsRoots(prev, s)
    {
      hide FollowsRoots, Env;
      AnalysisFollows(s.refVal, prev);
    }

    lemma AnalysisIs(kr: real, prev: Option<seq<FlutterRoot>>)
      requires EigenContract() && (prev.Some? ==> |prev.value| == nRoots)
      ensures IsAnalysed(prev, Solution(kr, if prev.Some? then Env().At(kr, prev.value)
                                            else UGRoots(sqrt, kr, bRef, eigen(kr))))
    {
      hide FollowsRoots, Tracked, OneSidedScore, UGRoot;
      AnalysisFollows(kr, if prev.Some? then prev.value else []);
    }

    /** Eigensolution at a reduced frequency, sorted against the previous solution if there is one. */
    method Analyze(krRef: real, prev: Option<seq<FlutterRoot>>) returns (sol: UGFlutterSolution)
      requires EigenContract() && (prev.Some? ==> |prev.value| == nRoots)
      ensures fresh(sol) && sol.refVal == krRef && |sol.roots| == nRoots
      ensures sol.roots == if prev.Some? then Env().At(krRef, prev.value) else UGRoots(sqrt, krRef, bRef, eigen(krRef))
      ensures IsAnalysed(prev, Solution(krRef, sol.roots))
    {
      hide StrictlyPrefers, Exceeds, LeftProduct, Quotient, UGRoot, IsAnalysed, FollowsRoots, Tracked,
           OneSidedScore, ExactSqrt;
      AnalysisIs(krRef, prev);
      sol := new UGFlutterSolution(sqrt, krRef, bRef, eigen(krRef));
      assert sol.roots == UGRoots(sqrt, krRef, bRef, eigen(krRef));
      if prev.Some? {
        sol.Sort(prev.value);
      }
    }

    /** Analyses a reduced frequency and adds the solution under it; an existing key keeps its solution and fails the
        assertion. */
    method AnalyzeAndAdd(v: real, prev: Option<seq<FlutterRoot>>) returns (newSol: Solution)
      requires EigenContract() && (prev.Some? ==> |prev.value| == nRoots)
      modifies this`flutterSolutions, this`assertFailed
      ensures newSol.refVal == v && |newSol.roots| == nRoots
      ensures newSol.roots == if prev.Some? then Env().At(v, prev.value) else UGRoots(sqrt, v, bRef, eigen(v))
      ensures SolutionAt(newSol) && IsAnalysed(prev, newSol)
      ensures flutterSolutions == InsertUnique(old(flutterSolutions), Pair(v, newSol))
      ensures assertFailed == (old(assertFailed) || HasKey(old(flutterSolutions), v))
    {
      hide IsAnalysed;
      var sol := Analyze(v, prev);
      newSol := Solution(v, sol.roots);
      RootsCarryFrequency(v, if prev.Some? then prev.value else []);
      if HasKey(flutterSolutions, v) {
        assertFailed := true;
      } else {
        flutterSolutions := Insert(flutterSolutions, Pair(v, newSol));
      }
    }

    method BisectionSearch(lower: Solution, upper: Solution, rootNum: nat, gTol: real, maxIters: nat)
      returns (converged: bool, newSol: Solution)
      requires EigenContract() && StrictlySorted(flutterSolutions)
      requires |lower.roots| == |upper.roots| == nRoots && rootNum < nRoots
      requires WellFormed(Env(), Crossover(lower, upper, rootNum, None)) && gTol >= 0.0 && maxIters > 0
      requires EndsAgree(lower, upper, rootNum)
      modifies this`flutterSolutions, this`assertFailed
      ensures SearchOutcome(Env(), Crossover(lower, upper, rootNum, None), gTol, maxIters,
                            old(flutterSolutions), old(assertFailed), flutterSolutions, assertFailed, newSol)
      ensures |newSol.roots| == nRoots && (converged <==> Abs(Damping(newSol.roots[rootNum])) <= gTol)
      ensures var r := newSol.roots[rootNum]; r.kr == newSol.refVal && RootAt(r, r.kr) && (r.V == 0.0 ==> converged)
      ensures FollowsRoots(lower.roots, newSol)
    {
      EnvIsWellPosed();
      assert lower.roots[rootNum].kr == lower.refVal && upper.roots[rootNum].kr == upper.refVal;
      hide *;
      ghost var env, c := Env(), Crossover(lower, upper, rootNum, None);
      ghost var before, done: seq<real>, collided := flutterSolutions, [], false;
      SearchStarts(env, c, gTol, maxIters);
      RecordNone(env, lower.roots, before);
      var lowerKr, lowerG := lower.roots[rootNum].kr, Damping(lower.roots[rootNum]);
      var upperKr, upperG := upper.roots[rootNum].kr, Damping(upper.roots[rootNum]);
      newSol := lower;
      var nIters := 0;
      while nIters < maxIters
        invariant nIters <= maxIters && nIters == |done| && lowerG <= 0.0 < upperG
        invariant Searching(env, c, gTol, maxIters, done, Bracket(lowerKr, lowerG, upperKr, upperG))
        invariant flutterSolutions == RecordAll(env, lower.roots, before, done)
        invariant collided == Collides(before, done) && assertFailed == (old(assertFailed) || collided)
        invariant nIters > 0 ==> newSol == Solution(done[nIters - 1], env.At(done[nIters - 1], lower.roots))
        invariant nIters > 0 ==> |newSol.roots| == nRoots && Abs(Damping(newSol.roots[rootNum])) > gTol
        invariant nIters > 0 ==> SolutionAt(newSol)
      {
        var newKr := LinearZero(lowerKr, lowerG, upperKr, upperG);
        RecordOne(env, lower.roots, before, done, newKr);
        collided := collided || HasKey(flutterSolutions, newKr);
        newSol := AnalyzeAndAdd(newKr, Some(lower.roots));
        var g := Damping(newSol.roots[rootNum]);
        SearchContinues(env, c, gTol, maxIters, done, Bracket(lowerKr, lowerG, upperKr, upperG), newKr, g);
        done := done + [newKr];
        UnphysicalIsUndamped(newSol, rootNum, gTol);
        if Abs(g) <= gTol {
          TrialFollows(lower.roots, newSol);
          SearchEnds(env, c, gTol, maxIters, before, old(assertFailed), flutterSolutions, assertFailed, newSol, done);
          return true, newSol;
        }
        if g < 0.0 {
          lowerKr, lowerG := newKr, g;
        } else {
          upperKr, upperG := newKr, g;
        }
        nIters := nIters + 1;
      }
      TrialFollows(lower.roots, newSol);
      SearchExhausted(env, c, gTol, maxIters, done, Bracket(lowerKr, lowerG, upperKr, upperG));
      UnphysicalIsUndamped(newSol, rootNum, gTol);
      SearchEnds(env, c, gTol, maxIters, before, old(assertFailed), flutterSolutions, assertFailed, newSol, done);
      converged := false;
    }

    lemma EntryAgrees(it: nat)
      requires Consistent() && it < |flutterCrossovers|
      ensures var c := flutterCrossovers[it].val; EndsAgree(c.lower, c.upper, c.rootNum)
    {
      assert flutterCrossovers[it].val in Objects(flutterCrossovers);
    }

    /** The root of the crossover is its mode of an eigensolution that follows its first end. */
    ghost predicate RootIsAnalysed(c: FlutterRootCrossover)
      reads c
    {
      && c.root.Some?
      && exists s: Solution ::
           FollowsRoots(c.lower.roots, s) && c.rootNum < |s.roots| && c.root == Some(s.roots[c.rootNum])
    }

    /** Of all crossovers in the list before, only the unevaluated one at position it has changed: it has a root, its
        mode of an eigensolution that follows its first end, and is now stored under the velocity of that root. */
    twostate predicate EvaluatesOnly(before: CrossoverMap, it: nat)
      reads this, Objects(before)
    {
      && it < |before| && old(before[it].val.root) == None && RootIsAnalysed(before[it].val)
      && multiset(flutterCrossovers)
         == multiset(before) - multiset{before[it]} + multiset{Pair(before[it].val.root.value.V, before[it].val)}
      && forall c <- Objects(before) | c != before[it].val :: c.root == old(c.root)
    }

    method RefineAndMove(it: nat, gTol: real, nIters: nat)
      requires Consistent() && it < |flutterCrossovers| && flutterCrossovers[it].val.root.None? && gTol >= 0.0
               && nIters > 0
      modifies this`flutterSolutions, this`flutterCrossovers, this`assertFailed, flutterCrossovers[it].val
      ensures Consistent() && Objects(flutterCrossovers) == old(Objects(flutterCrossovers))
      ensures old(flutterCrossovers[it].val).root.Some?
      ensures Evaluates(Env(), old(State()), it, gTol, nIters, State(), old(flutterCrossovers[it].val).root.value)
      ensures var r := old(flutterCrossovers[it].val).root.value; RootAt(r, r.kr)
      ensures var cross := old(flutterCrossovers)[it];
              && RootIsAnalysed(cross.val)
              && multiset(flutterCrossovers)
                 == multiset(old(flutterCrossovers)) - multiset{cross}
                    + multiset{Pair(cross.val.root.value.V, cross.val)}
    {
      hide FollowsRoots, Valid, WellFormed, StrictlySorted, EndsAgree, Evaluates, SearchOutcome, Insert, RemoveAt,
           Values, Env, EigenContract, AllAgree, Distinct, HoldsAll, RootAt;
      EnvIsWellPosed();
      ghost var before := State();
      var cross := flutterCrossovers[it].val;
      ghost var c := cross.Value();
      assert before.crossovers[it].val == c == Crossover(cross.lower, cross.upper, cross.rootNum, None);
      EntryIsWellFormed(Env(), before, it);
      EntryAgrees(it);
      var converged, sol := BisectionSearch(cross.lower, cross.upper, cross.rootNum, gTol, nIters);
      OutcomeEvaluates(Env(), before, it, gTol, nIters, flutterSolutions, assertFailed, sol);
      assert Values(flutterCrossovers) == before.crossovers;
      var root := sol.roots[cross.rootNum];
      flutterCrossovers := AssignAndReinsert(flutterCrossovers, it, root);
      ghost var after := State();
      assert after == SearchState(flutterSolutions, Insert(RemoveAt(before.crossovers, it),
                                                           Pair(root.V, c.(root := Some(root)))), assertFailed);
      assert Evaluates(Env(), before, it, gTol, nIters, after, root) && Valid(Env(), after);
      assert cross.root == Some(root) && RootAt(root, root.kr);
      hide State;
    }

    /** The common step of the two searches: refine the crossover at position it, assign its root, and move it to the
        velocity of that root. */
    method EvaluateCrossover(it: nat, gTol: real, nIters: nat)
      requires Consistent() && it < |flutterCrossovers| && flutterCrossovers[it].val.root.None?
      requires gTol >= 0.0 && nIters > 0
      modifies this`flutterSolutions, this`flutterCrossovers, this`assertFailed, flutterCrossovers[it].val
      ensures Consistent() && Objects(flutterCrossovers) == old(Objects(flutterCrossovers))
      ensures old(flutterCrossovers[it].val).root.Some?
      ensures Evaluates(Env(), old(State()), it, gTol, nIters, State(), old(flutterCrossovers[it].val).root.value)
      ensures var r := old(flutterCrossovers[it].val).root.value; RootAt(r, r.kr)
      ensures old(AllRootsAt(Objects(flutterCrossovers))) ==> AllRootsAt(Objects(flutterCrossovers))
      ensures EvaluatesOnly(old(flutterCrossovers), it)
    {
      hide Consistent, Evaluates, RootAt, Env, State, RootIsAnalysed;
      ghost var cross := flutterCrossovers[it].val;
      RefineAndMove(it, gTol, nIters);
      assert forall c | c in old(Objects(flutterCrossovers)) && c != cross :: c.root == old(c.root);
    }

    /** `found` tells that a crossover was evaluated; whether the damping converged is not reported. */
    method FindNextRoot(gTol: real, nIters: nat) returns (found: bool, root: Option<FlutterRoot>)
      requires Consistent() && gTol >= 0.0 && nIters > 0
      modifies this`flutterSolutions, this`flutterCrossovers, this`assertFailed, Objects(flutterCrossovers)
      ensures Consistent() && Objects(flutterCrossovers) == old(Objects(flutterCrossovers))
      ensures State() == FindNext(Env(), old(State()), gTol, nIters)
      ensures found <==> old(Unevaluated(State().crossovers)) > 0
      ensures root == NextRoot(Env(), old(State()), gTol, nIters)
      ensures root.Some? ==> RootAt(root.value, root.value.kr)
      ensures old(AllRootsAt(Objects(flutterCrossovers))) ==> AllRootsAt(Objects(flutterCrossovers))
      ensures found ==>
                exists it: nat | it < |old(flutterCrossovers)| ::
                  && EvaluatesOnly(old(flutterCrossovers), it) && old(flutterCrossovers)[it].val.root == root
                  && forall k | 0 <= k < it :: old(flutterCrossovers[k].val.root) != None
    {
      hide EvaluatesOnly, Evaluates, FindNext, NextRoot, Unevaluated, Valid, Env, EigenContract, Distinct;
      ghost var before := State();
      var it := 0;
      while it < |flutterCrossovers|
        invariant it <= |flutterCrossovers|
        invariant forall k | 0 <= k < it :: flutterCrossovers[k].val.root.Some?
      {
        var cross := flutterCrossovers[it].val;
        if cross.root == None {
          assert it == FirstUnevaluated(before.crossovers);
          EvaluateCrossover(it, gTol, nIters);
          NextIsEvaluated(Env(), before, it, gTol, nIters, State(), cross.root.value);
          return true, cross.root;
        }
        it := it + 1;
      }
      NothingIsNext(Env(), before, gTol, nIters);
      return false, None;
    }

    method EvaluateFront(gTol: real, nIters: nat)
      requires Consistent() && |flutterCrossovers| > 0 && flutterCrossovers[0].val.root.None? && gTol >= 0.0
               && nIters > 0
      modifies this`flutterSolutions, this`flutterCrossovers, this`assertFailed, Objects(flutterCrossovers)
      ensures Consistent() && Objects(flutterCrossovers) == old(Objects(flutterCrossovers))
      ensures |flutterCrossovers| > 0 && Unevaluated(State().crossovers) < old(Unevaluated(State().crossovers))
      ensures FindCritical(Env(), State(), gTol, nIters) == FindCritical(Env(), old(State()), gTol, nIters)
      ensures old(AllRootsAt(Objects(flutterCrossovers))) ==> AllRootsAt(Objects(flutterCrossovers))
    {
      hide AllRootsAt, EvaluatesOnly, Evaluates, FindCritical, Valid, Env, Unevaluated;
      ghost var before, cross := State(), flutterCrossovers[0].val;
      EvaluateCrossover(0, gTol, nIters);
      EvaluatedInFront(Env(), before, gTol, nIters, State(), cross.root.value);
    }

    /** Evaluates crossovers in front until the first one has a root, and returns that root. */
    method FindCriticalRoot(gTol: real, nIters: nat) returns (found: bool, root: Option<FlutterRoot>)
      requires Consistent() && gTol >= 0.0 && nIters > 0
      modifies this`flutterSolutions, this`flutterCrossovers, this`assertFailed, Objects(flutterCrossovers)
      ensures Consistent() && Objects(flutterCrossovers) == old(Objects(flutterCrossovers))
      ensures State() == FindCritical(Env(), old(State()), gTol, nIters)
      ensures found <==> old(flutterCrossovers) != []
      ensures if found then |flutterCrossovers| > 0 && root.Some? && root == flutterCrossovers[0].val.root
              else root.None?
      ensures old(AllRootsAt(Objects(flutterCrossovers))) ==> AllRootsAt(Objects(flutterCrossovers))
      ensures old(flutterCrossovers != [] && KeyedByRoot(State().crossovers)
                  && AllRootsAt(Objects(flutterCrossovers))) ==>
                (root.value.V == 0.0 <==> old(CriticalMeetsUnphysical(Env(), State().crossovers, gTol, nIters)))
    {
      hide FindCritical, Valid, Env, EigenContract, Unevaluated, Distinct, AllRootsAt, AllAgree, KeyedByRoot,
           CriticalMeetsUnphysical;
      if |flutterCrossovers| == 0 {
        CriticalIsDone(Env(), State(), gTol, nIters);
        return false, None;
      }
      ghost var start := State();
      CriticalOutcome(gTol, nIters);
      while flutterCrossovers[0].val.root == None
        invariant Consistent() && |flutterCrossovers| > 0
        invariant Objects(flutterCrossovers) == old(Objects(flutterCrossovers))
        invariant FindCritical(Env(), State(), gTol, nIters) == FindCritical(Env(), old(State()), gTol, nIters)
        invariant old(AllRootsAt(Objects(flutterCrossovers))) ==> AllRootsAt(Objects(flutterCrossovers))
        decreases Unevaluated(State().crossovers)
      {
        EvaluateFront(gTol, nIters);
      }
      CriticalIsDone(Env(), State(), gTol, nIters);
      assert State() == FindCritical(Env(), start, gTol, nIters);
      assert State().crossovers[0].val.root == flutterCrossovers[0].val.root;
      return true, flutterCrossovers[0].val.root;
    }

    /** When the root in front will have no velocity. */
    lemma CriticalOutcome(gTol: real, nIters: nat)
      requires Consistent() && flutterCrossovers != [] && gTol >= 0.0 && nIters > 0
      ensures KeyedByRoot(State().crossovers) && AllRootsAt(Objects(flutterCrossovers)) ==>
                var cs := FindCritical(Env(), State(), gTol, nIters).crossovers;
                && cs != [] && cs[0].val.root.Some?
                && (cs[0].val.root.value.V == 0.0
                    <==> CriticalMeetsUnphysical(Env(), State().crossovers, gTol, nIters))
    {
      EnvIsUGAnalysis();
      hide Env, Valid, EigenContract, IsUGAnalysis, CriticalMeetsUnphysical, FindCritical, KeyedByRoot, RootAt;
      if KeyedByRoot(State().crossovers) && AllRootsAt(Objects(flutterCrossovers)) {
        assert RootsAt(State().crossovers) by {
          forall i | 0 <= i < |flutterCrossovers| && State().crossovers[i].val.root.Some?
            ensures var r := State().crossovers[i].val.root.value; RootAt(r, r.kr)
          {
            assert flutterCrossovers[i].val in Objects(flutterCrossovers);
          }
        }
        CriticalIsUnphysicalExactly(Env(), State(), gTol, nIters);
      }
    }

    // -------------------------------------------------------------------------------------------
    // Scanning and crossover detection
    // -------------------------------------------------------------------------------------------

    /** The reduced frequencies and solutions of the scan, from the highest down. */
    ghost function ScanSweep(): Sweep {
      Sweep(krUpper, krLower, nKrDivs, UGRoots(sqrt, krUpper, bRef, eigen(krUpper)))
    }

    /** The stored solutions are those of the scan, and its crossovers were added to those there before. */
    ghost predicate Scanned(before: seq<Pair<Crossover>>)
      requires nKrDivs > 0
      reads this, Objects(flutterCrossovers)
    {
      && flutterSolutions == RecordVisits(ScanSweep().Visits(Env(), nKrDivs))
      && CD.IsScan(flutterSolutions, nRoots) && |flutterSolutions| == nKrDivs + 1 && AllAt(flutterSolutions)
      && HoldsAll(flutterCrossovers, before,
                  AllEntries(flutterSolutions, nRoots, nRoots, includeHighestKrUnstable))
      && FollowsAlong(flutterSolutions) && FindsWhatSamplesShow(before)
    }

    /** The solution of step j of the scan. */
    function SampleAt(sols: seq<Pair<Solution>>, j: nat): Solution
      requires |sols| == nKrDivs + 1 && j <= nKrDivs
    {
      sols[if krUpper < krLower then j else nKrDivs - j].val
    }

    /** The scan analysed equally spaced reduced frequencies from the upper limit to the lower one, and stored them from
        the lowest up: the roots at the upper limit are those of its eigensolution, all others follow the roots one step
        before. */
    ghost predicate FollowsAlong(sols: seq<Pair<Solution>>)
      requires nKrDivs > 0
    {
      && |sols| == nKrDivs + 1
      && (forall j: nat | j <= nKrDivs ::
            SampleAt(sols, j).refVal == krUpper + j as real * ((krLower - krUpper) / nKrDivs as real))
      && IsAnalysed(None, SampleAt(sols, 0))
      && forall j: nat | j < nKrDivs :: FollowsRoots(SampleAt(sols, j).roots, SampleAt(sols, j + 1))
    }

    /** The crossovers found are those that the samples show. */
    ghost predicate FindsWhatSamplesShow(before: seq<Pair<Crossover>>)
      reads this, Objects(flutterCrossovers)
    {
      forall e :: e in Values(flutterCrossovers)
             <==> || e in before
                  || (exists i: nat, j: nat :: Detectable(flutterSolutions, includeHighestKrUnstable, i, j, e))
                  || (exists i: nat :: IsDivergence(flutterSolutions, i, e))
    }

    lemma SamplesShow(before: seq<Pair<Crossover>>)
      requires CD.IsScan(flutterSolutions, nRoots) && |flutterSolutions| > 1
      requires HoldsAll(flutterCrossovers, before,
                        AllEntries(flutterSolutions, nRoots, nRoots, includeHighestKrUnstable))
      ensures FindsWhatSamplesShow(before)
    {
      hide Detectable, IsDivergence, AllEntries, CD.InsertAll, CD.IsScan;
      forall e
        ensures e in Values(flutterCrossovers)
           <==> || e in before
                || (exists i: nat, j: nat :: Detectable(flutterSolutions, includeHighestKrUnstable, i, j, e))
                || (exists i: nat :: IsDivergence(flutterSolutions, i, e))
      {
        DetectedExactly(flutterSolutions, nRoots, includeHighestKrUnstable, e);
        CD.InsertAllHolds(before, AllEntries(flutterSolutions, nRoots, nRoots, includeHighestKrUnstable), e);
      }
    }

    lemma SweepFollows(sols: seq<Pair<Solution>>)
      requires EigenContract() && nKrDivs > 0 && krLower != krUpper
      requires sols == RecordVisits(ScanSweep().Visits(Env(), nKrDivs))
      ensures FollowsAlong(sols)
    {
      hide IsAnalysed, FollowsRoots, RecordVisits, Sweep.Visits, EigenContract, Sweep.V, Sweep.Roots, Env, UGRoots;
      var m, env := ScanSweep(), Env();
      SweepIsStored(m, env);
      forall j: nat | j <= nKrDivs
        ensures SampleAt(sols, j) == Solution(m.V(j), m.Roots(env, j))
        ensures m.V(j) == krUpper + j as real * ((krLower - krUpper) / nKrDivs as real)
      {
        assert sols[StoredAt(m, j)] == Pair(m.V(j), m.At(env, j));
        FrequencyOfStep(j);
      }
      SweepSteps(m, 0);
      StepFollows(0);
      forall j: nat | j < nKrDivs
        ensures FollowsRoots(SampleAt(sols, j).roots, SampleAt(sols, j + 1))
      {
        StepFollows(j);
      }
    }

    lemma FrequencyOfStep(j: nat)
      requires nKrDivs > 0
      ensures ScanSweep().V(j) == krUpper + j as real * ((krLower - krUpper) / nKrDivs as real)
    {
    }

    /** Each step of the sweep follows the one before, and the first is the eigensolution at the upper limit. */
    lemma StepFollows(j: nat)
      requires EigenContract() && nKrDivs > 0
      ensures FollowsRoots(ScanSweep().Roots(Env(), j), ScanSweep().At(Env(), j + 1))
      ensures IsAnalysed(None, ScanSweep().At(Env(), 0))
    {
      hide IsAnalysed, FollowsRoots, UGRoots;
      var m, env := ScanSweep(), Env();
      EnvIsWellPosed();
      SweepSteps(m, 0);
      AnalysisFollows(krUpper, []);
      RootsSized(m, env, j);
      AnalysisFollows(m.V(j + 1), m.Roots(env, j));
      hide Sweep.V, Env, EigenContract;
    }

    /** What a run of one tolerance and iteration limit that evaluates all crossovers comes to: an insertion fails if
        and only if a crossover has damping exactly zero at its first end or two are to be analysed at one reduced
        frequency; and the root in front has no velocity if and only if some crossover meets an eigenvalue without a
        positive real part. */
    ghost predicate UniformRunsAreDecided()
      requires Consistent() && CD.IsScan(flutterSolutions, nRoots) && |flutterSolutions| > 1
      reads this, Objects(flutterCrossovers)
    {
      forall calls: seq<Call>, gTol, iters |
        Uniform(calls, gTol, iters) && Unevaluated(Run(Env(), State(), calls).crossovers) == 0 ::
        var r, es := Run(Env(), State(), calls), AllEntries(flutterSolutions, nRoots, nRoots, includeHighestKrUnstable);
        && (r.assertFailed <==> SomeZeroBelow(Env(), es) || SomeShare(Env(), es, gTol, iters))
        && (flutterCrossovers != [] ==>
              && r.crossovers != [] && r.crossovers[0].val.root.Some?
              && (NoVelocity(r.crossovers[0].val.root.value)
                  <==> SomeMeetsUnphysical(Env(), State().crossovers, gTol, iters)))
    }

    lemma UniformRunsAfterScan()
      requires Consistent() && CD.IsScan(flutterSolutions, nRoots) && |flutterSolutions| > 1 && AllAt(flutterSolutions)
      requires State() == UGSearches.ScanState(flutterSolutions, nRoots, includeHighestKrUnstable)
      requires KeyedByRoot(State().crossovers)
      requires forall i: nat | i < nRoots ::
                 HighestEntry(flutterSolutions, nRoots, i, includeHighestKrUnstable) == []
      ensures UniformRunsAreDecided()
    {
      EnvIsWellPosed();
      EnvIsUGAnalysis();
      ScanRootsAt(flutterSolutions, nRoots, includeHighestKrUnstable);
      hide Env, EigenContract, Valid, CD.IsScan, HighestEntry, AllEntries, CD.InsertAll, KeyedByRoot, AllAt,
           RootsAt, IsUGAnalysis, Run, Unevaluated, SomeZeroBelow, SomeShare, SomeMeetsUnphysical, NoVelocity, AllAgree,
           Values, Distinct, WellPosed, Uniform;
      forall calls: seq<Call>, gTol, iters |
        Uniform(calls, gTol, iters) && Unevaluated(Run(Env(), State(), calls).crossovers) == 0
        ensures var r := Run(Env(), State(), calls);
                var es := AllEntries(flutterSolutions, nRoots, nRoots, includeHighestKrUnstable);
                && (r.assertFailed <==> SomeZeroBelow(Env(), es) || SomeShare(Env(), es, gTol, iters))
                && (flutterCrossovers != [] ==>
                      && r.crossovers != [] && r.crossovers[0].val.root.Some?
                      && (NoVelocity(r.crossovers[0].val.root.value)
                          <==> SomeMeetsUnphysical(Env(), State().crossovers, gTol, iters)))
      {
        ScanRunFailsExactly(Env(), flutterSolutions, nRoots, includeHighestKrUnstable, calls, gTol, iters);
        if flutterCrossovers != [] {
          CompleteRunIsUnphysicalExactly(Env(), State(), calls, gTol, iters);
        }
      }
    }

    /** After a first scan the searches are defined if and only if no unstable start was recorded, and then it is
        decided what complete runs come to. */
    ghost predicate ReadyToSearch()
      reads this, Objects(flutterCrossovers)
    {
      && CD.IsScan(flutterSolutions, nRoots) && |flutterSolutions| > 1
      && KeyedByRoot(State().crossovers)
      && (Consistent() <==>
            forall i: nat | i < nRoots :: HighestEntry(flutterSolutions, nRoots, i, includeHighestKrUnstable) == [])
      && (Consistent() && !assertFailed ==> UniformRunsAreDecided())
    }

    /** Scans the range of reduced frequencies unless solutions are already stored, and detects the crossovers. */
    method ScanForRoots()
      requires EigenContract() && Distinct(flutterCrossovers) && nKrDivs > 0 && krLower != krUpper
      modifies this`flutterSolutions, this`flutterCrossovers, this`assertFailed
      ensures old(flutterSolutions) != [] ==>
                && flutterSolutions == old(flutterSolutions)
                && flutterCrossovers == old(flutterCrossovers) && assertFailed == old(assertFailed)
      ensures old(flutterSolutions) == [] ==>
                assertFailed == old(assertFailed) && Scanned(old(Values(flutterCrossovers)))
      ensures old(flutterSolutions) == [] && old(flutterCrossovers) == [] ==>
                ReadyToSearch() && AllRootsAt(Objects(flutterCrossovers))
      ensures fresh(Objects(flutterCrossovers) - old(Objects(flutterCrossovers)))
    {
      if |flutterSolutions| != 0 {
        return;
      }
      hide EigenContract, CD.IsScan, ReadyToSearch, FollowsAlong, FindsWhatSamplesShow;
      ScanAll();
      if old(flutterCrossovers) == [] {
        AfterScan();
      }
    }

    lemma AfterScan()
      requires EigenContract() && nKrDivs > 0 && Scanned([])
      ensures ReadyToSearch()
    {
      EnvIsWellPosed();
      hide Env, EigenContract, Valid, CD.IsScan, HighestEntry, AllEntries, EndsAgree, CD.InsertAll, RecordVisits,
           KeyedByRoot, AllAt, Sweep.Visits, AllAgree, Values, UniformRunsAreDecided, ScanSweep, FollowsAlong,
           FindsWhatSamplesShow;
      ScanIsSearchable(Env(), flutterSolutions, nRoots, includeHighestKrUnstable, assertFailed);
      ValuesAgree(flutterCrossovers);
      if Consistent() && !assertFailed {
        UniformRunsAfterScan();
      }
    }

    method ScanAll()
      requires EigenContract() && Distinct(flutterCrossovers) && nKrDivs > 0 && krLower != krUpper
      requires flutterSolutions == []
      modifies this`flutterSolutions, this`flutterCrossovers, this`assertFailed
      ensures assertFailed == old(assertFailed) && Scanned(old(Values(flutterCrossovers)))
      ensures fresh(Objects(flutterCrossovers) - old(Objects(flutterCrossovers)))
      ensures AllRootsAt(Objects(flutterCrossovers) - old(Objects(flutterCrossovers)))
    {
      hide RecordVisits, Repeats, Values, Env, CD.IsScan, HoldsAll, AllEntries, Sweep.Visits, UGRoots, SolutionAt,
           FollowsAlong, FindsWhatSamplesShow;
      var kVals := ScanFrequencies();
      SampleRange(kVals);
      EnvIsWellPosed();
      SweepDoesNotRepeat(ScanSweep(), Env(), nKrDivs);
      CD.SweepIsScan(ScanSweep(), Env());
      ScanIsAt();
      IdentifyCrossoverPoints();
      SweepFollows(flutterSolutions);
      SamplesShow(old(Values(flutterCrossovers)));
    }

    lemma ScanIsAt()
      requires EigenContract() && nKrDivs > 0 && krLower != krUpper
      ensures AllAt(RecordVisits(ScanSweep().Visits(Env(), nKrDivs)))
    {
      hide SolutionAt, UGRoots, Sweep.Visits, RecordVisits, AllAt;
      RootsCarryFrequency(krUpper, []);
      forall v, prev
        ensures SolutionAt(Solution(v, Env().At(v, prev)))
      {
        RootsCarryFrequency(v, prev);
      }
      hide Env;
      SweepIsAt(ScanSweep(), Env());
    }

    method ScanFrequencies() returns (kVals: array<real>)
      requires nKrDivs > 0
      ensures fresh(kVals) && kVals.Length == nKrDivs + 1
      ensures forall k | 0 <= k <= nKrDivs :: kVals[k] == ScanSweep().V(k)
    {
      hide Sweep.V;
      ghost var m := ScanSweep();
      var currentKr, deltaKr := krUpper, (krUpper - krLower) / nKrDivs as real;
      SweepSteps(m, 0);
      NegatedQuotient(krUpper - krLower, nKrDivs as real);
      assert -deltaKr == m.dV();
      kVals := new real[nKrDivs + 1];
      for i := 0 to nKrDivs + 1
        invariant currentKr == m.V(i)
        invariant forall k | 0 <= k < i :: kVals[k] == m.V(k)
      {
        kVals[i] := currentKr;
        currentKr := currentKr - deltaKr;
        SweepSteps(m, i);
      }
      kVals[nKrDivs] := krLower;
    }

    method SampleRange(kVals: array<real>)
      requires EigenContract() && nKrDivs > 0 && flutterSolutions == []
      requires kVals.Length == nKrDivs + 1 && forall k | 0 <= k <= nKrDivs :: kVals[k] == ScanSweep().V(k)
      modifies this`flutterSolutions, this`assertFailed
      ensures Recorded(ScanSweep().Visits(Env(), nKrDivs), old(assertFailed), flutterSolutions, assertFailed)
    {
      hide RecordVisits, Repeats, Sweep.V, Env, InsertUnique, HasKey, SolutionAt, IsAnalysed;
      EnvIsWellPosed();
      ghost var m, env, done := ScanSweep(), Env(), [];
      var prevSol: Option<seq<FlutterRoot>> := None;
      NothingVisited(assertFailed);
      SweepSteps(m, 0);
      for i := 0 to nKrDivs + 1
        invariant Recorded(done, old(assertFailed), flutterSolutions, assertFailed)
        invariant i == 0 ==> done == [] && prevSol == None
        invariant i > 0 ==> done == m.Visits(env, i - 1) && prevSol == Some(m.Roots(env, i - 1))
      {
        if i > 0 {
          RootsSized(m, env, i - 1);
        }
        RecordedNext(done, old(assertFailed), flutterSolutions, assertFailed, m.At(env, i));
        var sol := AnalyzeAndAdd(kVals[i], prevSol);
        assert sol == m.At(env, i);
        done := done + [m.At(env, i)];
        prevSol := Some(sol.roots);
      }
    }

    lemma NeglectedDoNotCount()
      requires CD.IsScan(flutterSolutions, nRoots)
      ensures forall i: nat | i < nRoots :: Neglected(flutterSolutions, i, nRoots) <==> !Counts(flutterSolutions, i)
    {
      hide Neglected, Counts;
      forall i: nat | i < nRoots {
        CountsUnlessNeglected(flutterSolutions, nRoots, i);
      }
    }

    /** Whether each mode is neglected: it trails along zero damping. */
    method ModesToNeglect() returns (modesToNeglect: seq<bool>)
      requires CD.IsScan(flutterSolutions, nRoots) && |flutterSolutions| > 0
      ensures |modesToNeglect| == nRoots
      ensures forall i | 0 <= i < nRoots :: modesToNeglect[i] <==> Neglected(flutterSolutions, i, nRoots)
      ensures forall i | 0 <= i < nRoots :: modesToNeglect[i] <==> !Counts(flutterSolutions, i)
    {
      modesToNeglect := [];
      for i := 0 to nRoots
        invariant |modesToNeglect| == i
        invariant forall k | 0 <= k < i :: modesToNeglect[k] <==> Neglected(flutterSolutions, k, nRoots)
      {
        var maxG := 0.0;
        for j := 0 to |flutterSolutions|
          invariant maxG >= 0.0
          invariant maxG < TOL <==> forall k | 0 <= k < j :: Abs(G(flutterSolutions, i, k)) < TOL
        {
          var val := Abs(flutterSolutions[j].val.roots[i].g);
          assert val == Abs(G(flutterSolutions, i, j));
          if val > maxG {
            maxG := val;
          }
        }
        modesToNeglect := modesToNeglect + [maxG < TOL];
      }
      NeglectedDoNotCount();
    }

    /** Adds one crossover, evaluated or not, to those found so far. */
    method AddCrossover(lower: Solution, upper: Solution, i: nat, key: real, root: Option<FlutterRoot>,
                        ghost start: seq<Pair<Crossover>>, ghost found: seq<Pair<Crossover>>)
      requires HoldsAll(flutterCrossovers, start, found)
      modifies this`flutterCrossovers
      ensures HoldsAll(flutterCrossovers, start, found + [Pair(key, Crossover(lower, upper, i, root))])
      ensures fresh(Objects(flutterCrossovers) - old(Objects(flutterCrossovers)))
      ensures forall c <- Objects(flutterCrossovers) - old(Objects(flutterCrossovers)) :: c.root == root
    {
      var cross := new FlutterRootCrossover(lower, upper, i);
      cross.root := root;
      var e := Pair(key, cross);
      HoldsOneMore(flutterCrossovers, start, found, e);
      hide HoldsAll, Insert;
      flutterCrossovers := Insert(flutterCrossovers, e);
    }

    /** Detects the crossovers on the stored solutions: divergence roots, then the crossovers of all modes. */
    method IdentifyCrossoverPoints()
      requires CD.IsScan(flutterSolutions, nRoots) && |flutterSolutions| > 1 && AllAt(flutterSolutions)
      requires Distinct(flutterCrossovers)
      modifies this`flutterCrossovers
      ensures HoldsAll(flutterCrossovers, old(Values(flutterCrossovers)),
                       AllEntries(flutterSolutions, nRoots, nRoots, includeHighestKrUnstable))
      ensures fresh(Objects(flutterCrossovers) - old(Objects(flutterCrossovers)))
      ensures AllRootsAt(Objects(flutterCrossovers) - old(Objects(flutterCrossovers)))
    {
      hide Neglected, ModeEntries, HoldsAll, Values, Distinct, AllAt, RootAt;
      HoldsNone(flutterCrossovers);
      ghost var sols, start, before := flutterSolutions, Values(flutterCrossovers), Objects(flutterCrossovers);
      var modesToNeglect := ModesToNeglect();
      IdentifyDivergence(start);
      for i := 0 to nRoots
        invariant HoldsAll(flutterCrossovers, start, AllEntries(sols, nRoots, i, includeHighestKrUnstable))
        invariant fresh(Objects(flutterCrossovers) - before)
        invariant AllRootsAt(Objects(flutterCrossovers) - before)
      {
        IdentifyForMode(i, modesToNeglect[i], start, AllEntries(sols, nRoots, i, includeHighestKrUnstable));
      }
    }

    /** The undamped roots at zero reduced frequency that are not marked non-physical. */
    method IdentifyDivergence(ghost start: seq<Pair<Crossover>>)
      requires CD.IsScan(flutterSolutions, nRoots) && |flutterSolutions| > 1 && AllAt(flutterSolutions)
      requires HoldsAll(flutterCrossovers, start, [])
      modifies this`flutterCrossovers
      ensures HoldsAll(flutterCrossovers, start, AllEntries(flutterSolutions, nRoots, 0, includeHighestKrUnstable))
      ensures fresh(Objects(flutterCrossovers) - old(Objects(flutterCrossovers)))
      ensures AllRootsAt(Objects(flutterCrossovers) - old(Objects(flutterCrossovers)))
    {
      hide Neglected, HoldsAll, RootAt;
      var first := flutterSolutions[0].val;
      ghost var before := Objects(flutterCrossovers);
      assert SolutionAt(first) by { assert flutterSolutions[0] in flutterSolutions; }
      if Abs(first.refVal) < TOL {
        for i := 0 to nRoots
          invariant HoldsAll(flutterCrossovers, start, ZeroEntries(first, i))
          invariant fresh(Objects(flutterCrossovers) - before)
          invariant AllRootsAt(Objects(flutterCrossovers) - before)
        {
          var root := first.roots[i];
          UnphysicalIsUndamped(first, i, 0.0);
          if !root.nonphysical && Abs(root.g) < TOL {
            AddCrossover(first, first, i, root.V, Some(root), start, ZeroEntries(first, i));
          } else {
            assert ZeroEntries(first, i) + [] == ZeroEntries(first, i);
          }
        }
      }
    }

    /** Whether the pair of solutions j, j + 1 is looked at for mode i. */
    method IsProcessed(i: nat, j: nat, neglect: bool) returns (ifProcess: bool)
      requires CD.IsScan(flutterSolutions, nRoots) && i < nRoots && j + 1 < |flutterSolutions|
      requires neglect <==> Neglected(flutterSolutions, i, nRoots)
      ensures ifProcess <==> Processed(flutterSolutions, nRoots, i, j)
    {
      hide Neglected;
      var higher, lower := flutterSolutions[j + 1].val, flutterSolutions[j].val;
      ifProcess :=
        && !higher.roots[i].nonphysical && !lower.roots[i].nonphysical
        && (Abs(higher.refVal) > TOL || Abs(lower.refVal) > TOL)
        && Abs(higher.roots[i].g) < MAX_ALLOWABLE_G && Abs(lower.roots[i].g) < MAX_ALLOWABLE_G
        && !neglect;
    }

    /** The crossovers of one mode: every pair of neighbouring solutions from the highest down, then the highest. */
    method IdentifyForMode(i: nat, neglect: bool, ghost start: seq<Pair<Crossover>>, ghost found: seq<Pair<Crossover>>)
      requires CD.IsScan(flutterSolutions, nRoots) && |flutterSolutions| > 1
      requires i < nRoots && (neglect <==> Neglected(flutterSolutions, i, nRoots))
      requires HoldsAll(flutterCrossovers, start, found)
      modifies this`flutterCrossovers
      ensures HoldsAll(flutterCrossovers, start,
                       found + ModeEntries(flutterSolutions, nRoots, i, includeHighestKrUnstable))
      ensures fresh(Objects(flutterCrossovers) - old(Objects(flutterCrossovers)))
      ensures forall c <- Objects(flutterCrossovers) - old(Objects(flutterCrossovers)) :: c.root == None
    {
      hide Neglected, HoldsAll, Processed;
      var sols := flutterSolutions;
      ghost var before := Objects(flutterCrossovers);
      var j := |sols| - 1;
      assert found + PairEntries(sols, nRoots, i, j) == found;
      while j > 0
        invariant 0 <= j < |sols|
        invariant HoldsAll(flutterCrossovers, start, found + PairEntries(sols, nRoots, i, j))
        invariant fresh(Objects(flutterCrossovers) - before)
        invariant forall c <- Objects(flutterCrossovers) - before :: c.root == None
      {
        ghost var sofar := found + PairEntries(sols, nRoots, i, j);
        j := j - 1;
        assert found + PairEntries(sols, nRoots, i, j) == sofar + PairEntry(sols, nRoots, i, j);
        var ifProcess := IsProcessed(i, j, neglect);
        var lower, upper := sols[j + 1].val, sols[j].val;
        if ifProcess && lower.roots[i].g <= 0.0 && upper.roots[i].g > 0.0 {
          AddCrossover(lower, upper, i, lower.roots[i].V, None, start, sofar);
        } else if ifProcess && lower.roots[i].g > 0.0 && upper.roots[i].g <= 0.0 {
          AddCrossover(upper, lower, i, upper.roots[i].V, None, start, sofar);
        } else {
          assert sofar + [] == sofar;
        }
      }
      IdentifyHighest(i, neglect, start, found + PairEntries(sols, nRoots, i, 0));
      assert found + ModeEntries(sols, nRoots, i, includeHighestKrUnstable)
          == found + PairEntries(sols, nRoots, i, 0) + HighestEntry(sols, nRoots, i, includeHighestKrUnstable);
    }

    /** A mode that is unstable at the highest reduced frequency, if such modes are asked for. */
    method IdentifyHighest(i: nat, neglect: bool, ghost start: seq<Pair<Crossover>>, ghost found: seq<Pair<Crossover>>)
      requires CD.IsScan(flutterSolutions, nRoots) && |flutterSolutions| > 1
      requires i < nRoots && (neglect <==> Neglected(flutterSolutions, i, nRoots))
      requires HoldsAll(flutterCrossovers, start, found)
      modifies this`flutterCrossovers
      ensures HoldsAll(flutterCrossovers, start,
                       found + HighestEntry(flutterSolutions, nRoots, i, includeHighestKrUnstable))
      ensures fresh(Objects(flutterCrossovers) - old(Objects(flutterCrossovers)))
      ensures forall c <- Objects(flutterCrossovers) - old(Objects(flutterCrossovers)) :: c.root == None
    {
      hide Neglected, HoldsAll, Processed;
      ghost var before := Objects(flutterCrossovers);
      var top := |flutterSolutions| - 1;
      var ifProcess := IsProcessed(i, top - 1, neglect);
      var s := flutterSolutions[top].val;
      var gVal := s.roots[i].g;
      if ifProcess && gVal > 0.0 && gVal < MAX_ALLOWABLE_G && includeHighestKrUnstable {
        AddCrossover(s, s, i, s.roots[i].V, None, start, found);
      } else {
        assert found + [] == found;
      }
    }

    // -------------------------------------------------------------------------------------------
    // Queries
    // -------------------------------------------------------------------------------------------

    method NRootsFound() returns (n: nat)
      ensures n == old(|FoundRoots(State().crossovers)|)
    {
      hide FoundRoots, Valid;
      n := 0;
      ghost var vs := State().crossovers;
      NothingFound(vs);
      for i := 0 to |flutterCrossovers|
        invariant n == |FoundRoots(vs[..i])|
      {
        FoundNext(vs, i);
        if flutterCrossovers[i].val.root.Some? {
          n := n + 1;
        }
      }
      assert vs[..|vs|] == vs;
    }

    /** The n-th root found, in ascending velocity. */
    method GetRoot(n: nat) returns (root: FlutterRoot)
      requires n < |FoundRoots(State().crossovers)|
      ensures root == old(FoundRoots(State().crossovers))[n]
    {
      hide FoundRoots, Valid;
      var rootNum := 0;
      ghost var vs := State().crossovers;
      NothingFound(vs);
      assert vs[..|vs|] == vs;
      var i := 0;
      while true
        invariant i <= |vs| && rootNum == |FoundRoots(vs[..i])| <= n
        decreases |vs| - i
      {
        FoundNext(vs, i);
        FoundPrefix(vs, i + 1);
        if flutterCrossovers[i].val.root.Some? {
          if rootNum == n {
            return flutterCrossovers[i].val.root.value;
          }
          rootNum := rootNum + 1;
        }
        i := i + 1;
      }
    }
  }

  lemma NegatedQuotient(a: real, n: real)
    requires n > 0.0
    ensures -(a / n) == -a / n
  {
  }

  lemma NothingVisited(failed: bool)
    ensures Recorded([], failed, [], failed)
  {
  }
}
