/** The search over stored crossovers, shared by the time-domain and the U-g solver: evaluation of one
    crossover, `find_next_root`, `find_critical_root`, and what every run of them keeps. The two solvers
    differ only in how a parameter value is analysed and in which quantity of a root is its damping. */
module CrossoverSearch {
  import opened Scalars
  import opened OrderedContainers
  import opened FlutterRoots
  import opened RegulaFalsi

  datatype Solution = Solution(refVal: real, roots: seq<FlutterRoot>)

  /** A sign change of the damping of one mode between two solutions, and its root once evaluated. */
  datatype Crossover = Crossover(lower: Solution, upper: Solution, rootNum: nat, root: Option<FlutterRoot>)

  /** `analyze(v, prev)` is the eigensolution at v with its roots tracked against `prev`. */
  datatype Analysis = Analysis(nRoots: nat, analyze: (real, seq<FlutterRoot>) -> seq<FlutterRoot>,
                               damping: FlutterRoot -> real)
  {
    function At(v: real, prev: seq<FlutterRoot>): seq<FlutterRoot> {
      analyze(v, prev)
    }
  }

  /** The containers of the solver. `assertFailed` records that a solution was inserted under a key that was
      already present, which stops a debug build; a release build keeps the old entry and goes on. */
  datatype SearchState = SearchState(solutions: seq<Pair<Solution>>, crossovers: seq<Pair<Crossover>>,
                                     assertFailed: bool)

  ghost predicate WellPosed(env: Analysis) {
    env.nRoots > 0 && forall v, prev :: |prev| == env.nRoots ==> |env.At(v, prev)| == env.nRoots
  }

  function StartBracket(env: Analysis, c: Crossover): Bracket
    requires c.rootNum < |c.lower.roots| && c.rootNum < |c.upper.roots|
  {
    Bracket(c.lower.refVal, env.damping(c.lower.roots[c.rootNum]), c.upper.refVal,
            env.damping(c.upper.roots[c.rootNum]))
  }

  /** A crossover that can be evaluated, or has been: its ends hold all modes, and as long as it has no root its
      lower solution has non-positive and its upper solution positive damping. */
  predicate WellFormed(env: Analysis, c: Crossover) {
    && |c.lower.roots| == |c.upper.roots| == env.nRoots
    && c.rootNum < env.nRoots
    && (c.root.None? ==> Signed(StartBracket(env, c)))
  }

  ghost predicate Valid(env: Analysis, s: SearchState) {
    && WellPosed(env)
    && StrictlySorted(s.solutions)
    && Sorted(s.crossovers)
    && forall i | 0 <= i < |s.crossovers| :: WellFormed(env, s.crossovers[i].val)
  }

  /** Every evaluated crossover is stored under the velocity of its root. */
  ghost predicate KeyedByRoot(cs: seq<Pair<Crossover>>) {
    forall i | 0 <= i < |cs| && cs[i].val.root.Some? :: cs[i].key == cs[i].val.root.value.V
  }

  // ---------------------------------------------------------------------------------------------
  // Counting and listing the roots found
  // ---------------------------------------------------------------------------------------------

  function FoundRoots(cs: seq<Pair<Crossover>>): (r: seq<FlutterRoot>)
    ensures |r| <= |cs|
  {
    if cs == [] then []
    else
      var last := cs[|cs| - 1].val.root;
      FoundRoots(cs[..|cs| - 1]) + if last.Some? then [last.value] else []
  }

  function Unevaluated(cs: seq<Pair<Crossover>>): nat {
    |cs| - |FoundRoots(cs)|
  }

  function FirstUnevaluated(cs: seq<Pair<Crossover>>): (p: nat)
    ensures p <= |cs|
    ensures forall i | 0 <= i < p :: cs[i].val.root.Some?
    ensures p < |cs| ==> cs[p].val.root.None?
  {
    if cs == [] || cs[0].val.root.None? then 0 else 1 + FirstUnevaluated(cs[1..])
  }

  // ---------------------------------------------------------------------------------------------
  // Evaluating one crossover
  // ---------------------------------------------------------------------------------------------

  /** The damping of mode i at v, with the modes tracked against `prev`. */
  function DampingAt(env: Analysis, prev: seq<FlutterRoot>, i: nat): DampingCurve {
    v => var roots := env.At(v, prev); if i < |roots| then env.damping(roots[i]) else 0.0
  }

  /** The parameter values analysed for a crossover. */
  function TrialsFor(env: Analysis, c: Crossover, gTol: real, iters: nat): (t: seq<real>)
    requires WellFormed(env, c) && c.root.None? && gTol >= 0.0
    ensures iters > 0 ==> |t| > 0
  {
    Trials(DampingAt(env, c.lower.roots, c.rootNum), StartBracket(env, c), gTol, iters)
  }

  function RecordAll(env: Analysis, prev: seq<FlutterRoot>, sols: seq<Pair<Solution>>,
                     t: seq<real>): seq<Pair<Solution>> {
    if t == [] then sols
    else
      var v := t[|t| - 1];
      InsertUnique(RecordAll(env, prev, sols, t[..|t| - 1]), Pair(v, Solution(v, env.At(v, prev))))
  }

  /** Some trial point is already a key when its solution is inserted. */
  ghost predicate Collides(sols: seq<Pair<Solution>>, t: seq<real>) {
    exists k :: 0 <= k < |t| && (HasKey(sols, t[k]) || t[k] in t[..k])
  }

  function RootFor(env: Analysis, c: Crossover, gTol: real, iters: nat): FlutterRoot
    requires WellPosed(env) && WellFormed(env, c) && c.root.None? && gTol >= 0.0 && iters > 0
  {
    var t := TrialsFor(env, c, gTol, iters);
    env.At(t[|t| - 1], c.lower.roots)[c.rootNum]
  }

  /** Search for the root of crossover i, record the solutions visited, and move the crossover to the
      velocity of its root. */
  ghost function Evaluate(env: Analysis, s: SearchState, i: nat, gTol: real, iters: nat): SearchState
    requires Valid(env, s) && i < |s.crossovers| && s.crossovers[i].val.root.None? && gTol >= 0.0 && iters > 0
  {
    var c := s.crossovers[i].val;
    var t := TrialsFor(env, c, gTol, iters);
    var root := RootFor(env, c, gTol, iters);
    SearchState(RecordAll(env, c.lower.roots, s.solutions, t),
                Insert(RemoveAt(s.crossovers, i), Pair(root.V, c.(root := Some(root)))),
                s.assertFailed || Collides(s.solutions, t))
  }

  lemma {:induction false} FoundConcat(a: seq<Pair<Crossover>>, b: seq<Pair<Crossover>>)
    ensures FoundRoots(a + b) == FoundRoots(a) + FoundRoots(b)
    decreases |b|
  {
    if b == [] {
      assert a + b == a;
    } else {
      var init := b[..|b| - 1];
      FoundConcat(a, init);
      assert (a + b)[..|a + b| - 1] == a + init;
    }
  }

  /** The search loop after the trial points `done`: the remaining bracket yields the remaining trial points. */
  ghost predicate Searching(env: Analysis, c: Crossover, gTol: real, iters: nat, done: seq<real>, b: Bracket) {
    && WellFormed(env, c) && c.root.None? && gTol >= 0.0 && Signed(b) && |done| <= iters
    && TrialsFor(env, c, gTol, iters)
       == done + Trials(DampingAt(env, c.lower.roots, c.rootNum), b, gTol, iters - |done|)
  }

  /** The roots found among the first i + 1 entries, as the queries count them. */
  lemma FoundNext(cs: seq<Pair<Crossover>>, i: nat)
    requires i < |cs|
    ensures var root := cs[i].val.root;
            FoundRoots(cs[..i + 1]) == FoundRoots(cs[..i]) + if root.Some? then [root.value] else []
  {
    assert cs[..i + 1][..i] == cs[..i];
  }

  lemma FoundPrefix(cs: seq<Pair<Crossover>>, i: nat)
    requires i <= |cs|
    ensures FoundRoots(cs[..i]) <= FoundRoots(cs)
  {
    hide FoundRoots;
    assert cs == cs[..i] + cs[i..];
    FoundConcat(cs[..i], cs[i..]);
  }

  /** What one bracket search does to the stored solutions and to the assertion, and the solution it ends with. */
  ghost predicate SearchOutcome(env: Analysis, c: Crossover, gTol: real, iters: nat,
                                before: seq<Pair<Solution>>, failedBefore: bool,
                                after: seq<Pair<Solution>>, failedAfter: bool, newSol: Solution)
  {
    && WellPosed(env) && WellFormed(env, c) && c.root.None? && gTol >= 0.0 && iters > 0
    && var t := TrialsFor(env, c, gTol, iters);
       && after == RecordAll(env, c.lower.roots, before, t)
       && failedAfter == (failedBefore || Collides(before, t))
       && newSol == Solution(t[|t| - 1], env.At(t[|t| - 1], c.lower.roots))
  }

  lemma SearchStarts(env: Analysis, c: Crossover, gTol: real, iters: nat)
    requires WellFormed(env, c) && c.root.None? && gTol >= 0.0
    ensures var b := Bracket(c.lower.refVal, env.damping(c.lower.roots[c.rootNum]),
                             c.upper.refVal, env.damping(c.upper.roots[c.rootNum]));
            Searching(env, c, gTol, iters, [], b) && b.lowerG <= 0.0 < b.upperG
  {
  }

  /** One more trial point with damping g either ends the search or narrows the bracket. */
  lemma SearchContinues(env: Analysis, c: Crossover, gTol: real, iters: nat, done: seq<real>, b: Bracket, v: real,
                        g: real)
    requires Searching(env, c, gTol, iters, done, b) && |done| < iters
    requires b.upperG != b.lowerG && v == LinearZero(b.lowerV, b.lowerG, b.upperV, b.upperG)
    requires c.rootNum < |env.At(v, c.lower.roots)| && g == env.damping(env.At(v, c.lower.roots)[c.rootNum])
    ensures if Abs(g) <= gTol then done + [v] == TrialsFor(env, c, gTol, iters)
            else Searching(env, c, gTol, iters, done + [v],
                           if g < 0.0 then b.(lowerV := v, lowerG := g) else b.(upperV := v, upperG := g))
  {
    hide LinearZero, TrialsFor, Trials, WellFormed;
    var damping, next := DampingAt(env, c.lower.roots, c.rootNum), done + [v];
    assert v == Trial(b) && g == damping(v);
    TrialsUnfold(damping, b, gTol, iters - |done|);
    if Abs(g) > gTol {
      var rest := Trials(damping, Narrow(b, v, g), gTol, iters - |next|);
      hide *;
      assert done + ([v] + rest) == next + rest;
    }
  }

  lemma SearchExhausted(env: Analysis, c: Crossover, gTol: real, iters: nat, done: seq<real>, b: Bracket)
    requires Searching(env, c, gTol, iters, done, b) && |done| == iters
    ensures done == TrialsFor(env, c, gTol, iters)
  {
  }

  /** Recording one more trial point. */
  lemma RecordOne(env: Analysis, prev: seq<FlutterRoot>, before: seq<Pair<Solution>>, done: seq<real>, v: real)
    requires StrictlySorted(before)
    ensures var sols := RecordAll(env, prev, before, done);
            && RecordAll(env, prev, before, done + [v]) == InsertUnique(sols, Pair(v, Solution(v, env.At(v, prev))))
            && (Collides(before, done + [v]) <==> Collides(before, done) || HasKey(sols, v))
  {
    hide RecordAll, Collides, InsertUnique, HasKey;
    RecordKeys(env, prev, before, done);
    RecordNext(env, prev, before, done, v);
    CollidesNext(before, done, v);
  }

  lemma SearchEnds(env: Analysis, c: Crossover, gTol: real, iters: nat, before: seq<Pair<Solution>>, failedBefore: bool,
                   after: seq<Pair<Solution>>, failedAfter: bool, newSol: Solution, done: seq<real>)
    requires WellPosed(env) && WellFormed(env, c) && c.root.None? && gTol >= 0.0 && iters > 0
    requires done == TrialsFor(env, c, gTol, iters) && after == RecordAll(env, c.lower.roots, before, done)
    requires failedAfter == (failedBefore || Collides(before, done))
    requires newSol == Solution(done[|done| - 1], env.At(done[|done| - 1], c.lower.roots))
    ensures SearchOutcome(env, c, gTol, iters, before, failedBefore, after, failedAfter, newSol)
  {
  }

  /** Dropping the root leaves what identifies a crossover. */
  function Identity(c: Crossover): Crossover {
    c.(root := None)
  }

  function Identities(cs: seq<Pair<Crossover>>): (r: seq<Crossover>)
    ensures |r| == |cs|
  {
    seq(|cs|, i requires 0 <= i < |cs| => Identity(cs[i].val))
  }

  lemma RecordNext(env: Analysis, prev: seq<FlutterRoot>, sols: seq<Pair<Solution>>, t: seq<real>, v: real)
    ensures RecordAll(env, prev, sols, t + [v])
         == InsertUnique(RecordAll(env, prev, sols, t), Pair(v, Solution(v, env.At(v, prev))))
  {
    assert (t + [v])[..|t + [v]| - 1] == t;
  }

  lemma CollidesNext(sols: seq<Pair<Solution>>, done: seq<real>, v: real)
    ensures Collides(sols, done + [v]) <==> Collides(sols, done) || HasKey(sols, v) || v in done
  {
    hide HasKey;
    var next := done + [v];
    assert next[..|done|] == done && next[|done|] == v;
    assert forall k | 0 <= k < |done| :: next[k] == done[k] && next[..k] == done[..k];
    if HasKey(sols, v) || v in done {
      assert Collides(sols, next);
    }
    if Collides(sols, done) {
      var k :| 0 <= k < |done| && (HasKey(sols, done[k]) || done[k] in done[..k]);
      assert HasKey(sols, next[k]) || next[k] in next[..k];
    }
  }

  lemma {:induction false} RecordKeys(env: Analysis, prev: seq<FlutterRoot>, sols: seq<Pair<Solution>>, t: seq<real>)
    requires StrictlySorted(sols)
    ensures StrictlySorted(RecordAll(env, prev, sols, t))
    ensures forall k: real :: HasKey(RecordAll(env, prev, sols, t), k) <==> HasKey(sols, k) || k in t
  {
    if t != [] {
      var init := t[..|t| - 1];
      RecordKeys(env, prev, sols, init);
      InsertUniqueKeepsOrder(RecordAll(env, prev, sols, init),
                             Pair(t[|t| - 1], Solution(t[|t| - 1], env.At(t[|t| - 1], prev))));
      assert t == init + [t[|t| - 1]];
    }
  }

  lemma IdentitiesConcat(a: seq<Pair<Crossover>>, b: seq<Pair<Crossover>>)
    ensures Identities(a + b) == Identities(a) + Identities(b)
  {
  }

  lemma OneEntry(m: Pair<Crossover>)
    ensures FoundRoots([m]) == if m.val.root.Some? then [m.val.root.value] else []
    ensures Identities([m]) == [Identity(m.val)]
  {
    assert [m][..0] == [];
  }

  lemma MoveCounts(a: seq<Pair<Crossover>>, m: Pair<Crossover>, b: seq<Pair<Crossover>>)
    ensures |FoundRoots(a + ([m] + b))| == |FoundRoots(a + b)| + if m.val.root.Some? then 1 else 0
    ensures multiset(Identities(a + ([m] + b))) == multiset(Identities(a + b)) + multiset{Identity(m.val)}
  {
    hide FoundRoots, Identities;
    FoundConcat(a, [m] + b);
    FoundConcat([m], b);
    FoundConcat(a, b);
    IdentitiesConcat(a, [m] + b);
    IdentitiesConcat([m], b);
    IdentitiesConcat(a, b);
    OneEntry(m);
  }

  /** Replacing a crossover by its evaluated self, wherever it goes, adds one root and nothing else. */
  lemma MoveParts(cs: seq<Pair<Crossover>>, i: nat, e: Pair<Crossover>)
    requires i < |cs| && cs[i].val.root.None? && e.val.root.Some? && Identity(e.val) == cs[i].val
    ensures var r := Insert(RemoveAt(cs, i), e);
            && |FoundRoots(r)| == |FoundRoots(cs)| + 1
            && multiset(Identities(r)) == multiset(Identities(cs))
  {
    hide FoundRoots, Identities;
    var rest := RemoveAt(cs, i);
    var p := UpperBound(rest, e.key);
    assert cs == cs[..i] + ([cs[i]] + cs[i + 1..]);
    MoveCounts(cs[..i], cs[i], cs[i + 1..]);
    assert rest == rest[..p] + rest[p..];
    MoveCounts(rest[..p], e, rest[p..]);
  }

  /** Where the entry at position k of the list came from, when entry i was moved to position p != k. */
  function Origin(p: nat, i: nat, k: nat): nat
    requires k != p
  {
    var m := if k < p then k else k - 1;
    if m < i then m else m + 1
  }

  /** Removing and inserting leaves every entry other than the one moved, in order. */
  lemma MovedEntries(cs: seq<Pair<Crossover>>, i: nat, e: Pair<Crossover>, k: nat)
    requires i < |cs| && k < |cs|
    ensures var p := UpperBound(RemoveAt(cs, i), e.key);
            var r := Insert(RemoveAt(cs, i), e);
            if k == p then r[k] == e else Origin(p, i, k) < |cs| && Origin(p, i, k) != i && r[k] == cs[Origin(p, i, k)]
  {
    hide UpperBound;
  }

  /** Evaluating a crossover keeps the state valid, raises the number of roots found by one, keeps the
      collection of crossovers, and stores the crossover under its root velocity. */
  lemma EvaluateKeeps(env: Analysis, s: SearchState, i: nat, gTol: real, iters: nat)
    requires Valid(env, s) && i < |s.crossovers| && s.crossovers[i].val.root.None? && gTol >= 0.0 && iters > 0
    ensures var r := Evaluate(env, s, i, gTol, iters);
            && Valid(env, r)
            && |FoundRoots(r.crossovers)| == |FoundRoots(s.crossovers)| + 1
            && Unevaluated(r.crossovers) == Unevaluated(s.crossovers) - 1
            && multiset(Identities(r.crossovers)) == multiset(Identities(s.crossovers))
            && (KeyedByRoot(s.crossovers) ==> KeyedByRoot(r.crossovers))
  {
    hide Insert, RemoveAt, FoundRoots, Identities, TrialsFor, RootFor, RecordAll;
    var c := s.crossovers[i].val;
    var root := RootFor(env, c, gTol, iters);
    var e := Pair(root.V, c.(root := Some(root)));
    RecordKeys(env, c.lower.roots, s.solutions, TrialsFor(env, c, gTol, iters));
    RemoveKeepsOrder(s.crossovers, i);
    InsertKeepsOrder(RemoveAt(s.crossovers, i), e);
    MoveParts(s.crossovers, i, e);
    var r := Insert(RemoveAt(s.crossovers, i), e);
    forall k | 0 <= k < |r|
      ensures WellFormed(env, r[k].val)
      ensures KeyedByRoot(s.crossovers) && r[k].val.root.Some? ==> r[k].key == r[k].val.root.value.V
    {
      MovedEntries(s.crossovers, i, e, k);
    }
  }

  lemma EntryIsWellFormed(env: Analysis, s: SearchState, i: nat)
    requires Valid(env, s) && i < |s.crossovers|
    ensures WellPosed(env) && StrictlySorted(s.solutions) && WellFormed(env, s.crossovers[i].val)
    ensures var c := s.crossovers[i].val; |c.lower.roots| == |c.upper.roots| == env.nRoots && c.rootNum < env.nRoots
  {
  }

  /** r is the state after evaluating crossover i of s, and root the root found. */
  ghost predicate Evaluates(env: Analysis, s: SearchState, i: nat, gTol: real, iters: nat, r: SearchState,
                            root: FlutterRoot) {
    && Valid(env, s) && i < |s.crossovers| && s.crossovers[i].val.root.None? && gTol >= 0.0 && iters > 0
    && r == Evaluate(env, s, i, gTol, iters)
    && root == RootFor(env, s.crossovers[i].val, gTol, iters)
  }

  lemma OutcomeEvaluates(env: Analysis, s: SearchState, i: nat, gTol: real, iters: nat,
                         after: seq<Pair<Solution>>, failed: bool, newSol: Solution)
    requires Valid(env, s) && i < |s.crossovers|
    requires SearchOutcome(env, s.crossovers[i].val, gTol, iters, s.solutions, s.assertFailed, after, failed, newSol)
    ensures var c := s.crossovers[i].val;
            && c.rootNum < |newSol.roots|
            && var root := newSol.roots[c.rootNum];
               var r := SearchState(after, Insert(RemoveAt(s.crossovers, i), Pair(root.V, c.(root := Some(root)))),
                                    failed);
               Evaluates(env, s, i, gTol, iters, r, root) && Valid(env, r)
  {
    hide RecordAll, Collides, TrialsFor, Insert, RemoveAt;
    EvaluateKeeps(env, s, i, gTol, iters);
  }

  // ---------------------------------------------------------------------------------------------
  // find_next_root and find_critical_root
  // ---------------------------------------------------------------------------------------------

  ghost function FindNext(env: Analysis, s: SearchState, gTol: real, iters: nat): SearchState
    requires Valid(env, s) && gTol >= 0.0 && iters > 0
  {
    var p := FirstUnevaluated(s.crossovers);
    if p == |s.crossovers| then s else Evaluate(env, s, p, gTol, iters)
  }

  /** The root that find_next_root returns. */
  ghost function NextRoot(env: Analysis, s: SearchState, gTol: real, iters: nat): Option<FlutterRoot>
    requires Valid(env, s) && gTol >= 0.0 && iters > 0
  {
    var p := FirstUnevaluated(s.crossovers);
    if p == |s.crossovers| then None else Some(RootFor(env, s.crossovers[p].val, gTol, iters))
  }

  /** Evaluate the first crossover until the first one has a root. */
  ghost function FindCritical(env: Analysis, s: SearchState, gTol: real, iters: nat): SearchState
    requires Valid(env, s) && gTol >= 0.0 && iters > 0
    decreases Unevaluated(s.crossovers)
  {
    if s.crossovers == [] || s.crossovers[0].val.root.Some? then s
    else
      EvaluateKeeps(env, s, 0, gTol, iters);
      FindCritical(env, Evaluate(env, s, 0, gTol, iters), gTol, iters)
  }

  lemma CriticalIsDone(env: Analysis, s: SearchState, gTol: real, iters: nat)
    requires Valid(env, s) && gTol >= 0.0 && iters > 0
    requires s.crossovers == [] || s.crossovers[0].val.root.Some?
    ensures FindCritical(env, s, gTol, iters) == s
  {
  }

  /** Evaluating the crossover in front is the first step of find_critical_root. */
  lemma EvaluatedInFront(env: Analysis, s: SearchState, gTol: real, iters: nat, r: SearchState, root: FlutterRoot)
    requires Evaluates(env, s, 0, gTol, iters, r, root)
    ensures Valid(env, s) && Valid(env, r) && |r.crossovers| == |s.crossovers| > 0
    ensures Unevaluated(r.crossovers) < Unevaluated(s.crossovers)
    ensures FindCritical(env, r, gTol, iters) == FindCritical(env, s, gTol, iters)
  {
    EvaluateKeeps(env, s, 0, gTol, iters);
    hide Evaluate, FoundRoots, Valid;
  }

  lemma {:induction false} NoneLeft(cs: seq<Pair<Crossover>>)
    ensures Unevaluated(cs) == 0 <==> FirstUnevaluated(cs) == |cs|
  {
    if cs != [] {
      NoneLeft(cs[1..]);
      FoundConcat([cs[0]], cs[1..]);
      assert cs == [cs[0]] + cs[1..] && [cs[0]][..0] == [];
    }
  }

  /** The root that find_next_root returns is the one now stored, under its velocity, for the first crossover that was
      unevaluated; every other crossover is left as it was. */
  lemma FindNextStores(env: Analysis, s: SearchState, gTol: real, iters: nat)
    requires Valid(env, s) && gTol >= 0.0 && iters > 0 && Unevaluated(s.crossovers) > 0
    ensures var root := NextRoot(env, s, gTol, iters);
            && root.Some?
            && exists p: nat :: p < |s.crossovers| && s.crossovers[p].val.root.None?
                 && (forall i | 0 <= i < p :: s.crossovers[i].val.root.Some?)
                 && multiset(FindNext(env, s, gTol, iters).crossovers)
                    == multiset(s.crossovers) - multiset{s.crossovers[p]}
                       + multiset{Pair(root.value.V, s.crossovers[p].val.(root := root))}
  {
    hide RootFor, TrialsFor, RecordAll, Collides, Insert, RemoveAt, FoundRoots;
    NoneLeft(s.crossovers);
    var p := FirstUnevaluated(s.crossovers);
    var root := RootFor(env, s.crossovers[p].val, gTol, iters);
    MoveExchanges(s.crossovers, p, Pair(root.V, s.crossovers[p].val.(root := Some(root))));
  }

  /** The call evaluates the first unevaluated crossover. */
  lemma NextIsEvaluated(env: Analysis, s: SearchState, p: nat, gTol: real, iters: nat, r: SearchState,
                        root: FlutterRoot)
    requires Evaluates(env, s, p, gTol, iters, r, root) && p == FirstUnevaluated(s.crossovers)
    ensures FindNext(env, s, gTol, iters) == r && NextRoot(env, s, gTol, iters) == Some(root)
    ensures Unevaluated(s.crossovers) > 0
  {
    NoneLeft(s.crossovers);
    hide Evaluate, Valid, FoundRoots;
  }

  /** Or none, and then nothing happens. */
  lemma NothingIsNext(env: Analysis, s: SearchState, gTol: real, iters: nat)
    requires Valid(env, s) && gTol >= 0.0 && iters > 0
    requires forall i | 0 <= i < |s.crossovers| :: s.crossovers[i].val.root.Some?
    ensures FindNext(env, s, gTol, iters) == s && NextRoot(env, s, gTol, iters) == None
    ensures Unevaluated(s.crossovers) == 0
  {
    NoneLeft(s.crossovers);
    hide Evaluate, Valid, FoundRoots;
  }

  /** A call of find_next_root finds exactly one more root as long as a crossover is unevaluated, and changes
      nothing afterwards; it keeps the collection of crossovers. */
  lemma FindNextKeeps(env: Analysis, s: SearchState, gTol: real, iters: nat)
    requires Valid(env, s) && gTol >= 0.0 && iters > 0
    ensures var r := FindNext(env, s, gTol, iters);
            && Valid(env, r)
            && |FoundRoots(r.crossovers)| == |FoundRoots(s.crossovers)|
              + (if Unevaluated(s.crossovers) > 0 then 1 else 0)
            && |r.crossovers| == |s.crossovers|
            && multiset(Identities(r.crossovers)) == multiset(Identities(s.crossovers))
            && (KeyedByRoot(s.crossovers) ==> KeyedByRoot(r.crossovers))
            && (Unevaluated(s.crossovers) == 0 ==> r == s)
  {
    hide Evaluate, FoundRoots, Identities;
    NoneLeft(s.crossovers);
    var p := FirstUnevaluated(s.crossovers);
    if p < |s.crossovers| {
      EvaluateKeeps(env, s, p, gTol, iters);
    }
  }

  /** find_critical_root ends with an evaluated crossover in front and keeps the collection of crossovers. */
  lemma {:induction false} FindCriticalKeeps(env: Analysis, s: SearchState, gTol: real, iters: nat)
    requires Valid(env, s) && gTol >= 0.0 && iters > 0
    ensures var r := FindCritical(env, s, gTol, iters);
            && Valid(env, r)
            && |r.crossovers| == |s.crossovers|
            && multiset(Identities(r.crossovers)) == multiset(Identities(s.crossovers))
            && |FoundRoots(r.crossovers)| >= |FoundRoots(s.crossovers)|
            && (KeyedByRoot(s.crossovers) ==> KeyedByRoot(r.crossovers))
            && (s.crossovers != [] ==> r.crossovers[0].val.root.Some?)
    decreases Unevaluated(s.crossovers)
  {
    if s.crossovers != [] && s.crossovers[0].val.root.None? {
      EvaluateKeeps(env, s, 0, gTol, iters);
      var s' := Evaluate(env, s, 0, gTol, iters);
      assert |s'.crossovers| == |s.crossovers|;
      FindCriticalKeeps(env, s', gTol, iters);
      hide Evaluate, FoundRoots, Identities;
    }
  }

  /** The root it returns has the lowest velocity among all keys left in the container. */
  lemma CriticalIsLowest(env: Analysis, s: SearchState, gTol: real, iters: nat)
    requires Valid(env, s) && gTol >= 0.0 && iters > 0
    requires s.crossovers != [] && KeyedByRoot(s.crossovers)
    ensures var cs := FindCritical(env, s, gTol, iters).crossovers;
            && |cs| > 0 && cs[0].val.root.Some?
            && forall k | 0 <= k < |cs| :: cs[0].val.root.value.V <= cs[k].key
  {
    FindCriticalKeeps(env, s, gTol, iters);
  }

  /** The roots found so far are listed in ascending velocity. */
  lemma {:induction false} FoundRootsAscend(cs: seq<Pair<Crossover>>)
    requires Sorted(cs) && KeyedByRoot(cs)
    ensures forall a, b | 0 <= a < b < |FoundRoots(cs)| :: FoundRoots(cs)[a].V <= FoundRoots(cs)[b].V
    ensures forall a | 0 <= a < |FoundRoots(cs)| :: FoundRoots(cs)[a].V <= cs[|cs| - 1].key
  {
    if cs != [] {
      var init := cs[..|cs| - 1];
      FoundRootsAscend(init);
      assert init != [] ==> init[|init| - 1].key <= cs[|cs| - 1].key;
    }
  }

  datatype Call = FindNextRoot(gTol: real, iters: nat) | FindCriticalRoot(gTol: real, iters: nat)

  predicate Legal(c: Call) {
    c.gTol >= 0.0 && c.iters > 0
  }

  ghost function Step(env: Analysis, s: SearchState, c: Call): (r: SearchState)
    requires Valid(env, s) && Legal(c)
    ensures Valid(env, r)
  {
    FindNextKeeps(env, s, c.gTol, c.iters);
    FindCriticalKeeps(env, s, c.gTol, c.iters);
    if c.FindNextRoot? then FindNext(env, s, c.gTol, c.iters) else FindCritical(env, s, c.gTol, c.iters)
  }

  /** Any run of calls, each with its own tolerance and iteration limit. */
  ghost function Run(env: Analysis, s: SearchState, calls: seq<Call>): (r: SearchState)
    requires Valid(env, s) && forall c | c in calls :: Legal(c)
    ensures Valid(env, r)
    decreases |calls|
  {
    if calls == [] then s else Run(env, Step(env, s, calls[0]), calls[1..])
  }

  /** Over any run of find_next_root, the successes are the smaller of the number of calls and of the number of
      crossovers that were unevaluated; the collection of crossovers stays, and the roots stay listed in
      ascending velocity. */
  lemma {:induction false} NextRootRun(env: Analysis, s: SearchState, calls: seq<Call>)
    requires Valid(env, s) && KeyedByRoot(s.crossovers)
    requires forall c | c in calls :: Legal(c) && c.FindNextRoot?
    ensures var r := Run(env, s, calls);
            && |FoundRoots(r.crossovers)| == |FoundRoots(s.crossovers)|
              + (if |calls| < Unevaluated(s.crossovers) then |calls| else Unevaluated(s.crossovers))
            && multiset(Identities(r.crossovers)) == multiset(Identities(s.crossovers))
            && |r.crossovers| == |s.crossovers|
            && KeyedByRoot(r.crossovers)
            && (Unevaluated(s.crossovers) == 0 ==> r == s)
    decreases |calls|
  {
    if calls != [] {
      assert calls[0] in calls;
      FindNextKeeps(env, s, calls[0].gTol, calls[0].iters);
      NextRootRun(env, Step(env, s, calls[0]), calls[1..]);
      hide FindNext, FoundRoots, Identities;
    }
  }

  // ---------------------------------------------------------------------------------------------
  // When an insertion fails
  // ---------------------------------------------------------------------------------------------

  /** No stored solution lies strictly between the two ends of the crossover. */
  ghost predicate SpanClear(c: Crossover, sols: seq<Pair<Solution>>) {
    forall k: real | Between(k, c.lower.refVal, c.upper.refVal) :: !HasKey(sols, k)
  }

  ghost predicate SpansDisjoint(c: Crossover, d: Crossover) {
    forall k: real | Between(k, c.lower.refVal, c.upper.refVal) :: !Between(k, d.lower.refVal, d.upper.refVal)
  }

  ghost predicate OwnSpansClear(env: Analysis, cs: seq<Pair<Crossover>>, sols: seq<Pair<Solution>>) {
    forall i | 0 <= i < |cs| && WellFormed(env, cs[i].val) && cs[i].val.root.None? ::
      Proper(StartBracket(env, cs[i].val)) && SpanClear(cs[i].val, sols)
  }

  ghost predicate OwnSpansDisjoint(cs: seq<Pair<Crossover>>) {
    forall i, j | 0 <= i < |cs| && 0 <= j < |cs| && i != j && cs[i].val.root.None? && cs[j].val.root.None? ::
      SpansDisjoint(cs[i].val, cs[j].val)
  }

  /** Unevaluated crossovers have strictly negative damping below, own their velocity interval, and no
      solution is stored inside it. */
  ghost predicate Safe(env: Analysis, s: SearchState) {
    && Valid(env, s)
    && !s.assertFailed
    && OwnSpansClear(env, s.crossovers, s.solutions)
    && OwnSpansDisjoint(s.crossovers)
  }

  lemma ProperTrials(env: Analysis, c: Crossover, gTol: real, iters: nat)
    requires WellFormed(env, c) && c.root.None? && gTol >= 0.0 && Proper(StartBracket(env, c))
    ensures var t := TrialsFor(env, c, gTol, iters);
            && (forall k | 0 <= k < |t| :: Between(t[k], c.lower.refVal, c.upper.refVal))
            && (forall k | 0 <= k < |t| :: t[k] !in t[..k])
  {
    var damping, b := DampingAt(env, c.lower.roots, c.rootNum), StartBracket(env, c);
    var t := TrialsFor(env, c, gTol, iters);
    forall k | 0 <= k < |t|
      ensures Between(t[k], c.lower.refVal, c.upper.refVal)
      ensures t[k] !in t[..k]
    {
      TrialsInside(damping, b, gTol, iters, k);
      forall j | 0 <= j < k
        ensures t[j] != t[k]
      {
        TrialsDistinct(damping, b, gTol, iters, j, k);
      }
    }
  }

  /** Exactly when an evaluation meets a stored key: some trial point is already stored. A lower end with zero
      damping is such a case, because the first trial point is then that end. */
  lemma InsertionFailsExactly(env: Analysis, s: SearchState, i: nat, gTol: real, iters: nat)
    requires Valid(env, s) && i < |s.crossovers| && s.crossovers[i].val.root.None? && gTol >= 0.0 && iters > 0
    requires s.crossovers[i].val.lower.refVal != s.crossovers[i].val.upper.refVal
    requires HasKey(s.solutions, s.crossovers[i].val.lower.refVal)
    ensures var c := s.crossovers[i].val;
            var t := TrialsFor(env, c, gTol, iters);
            var r := Evaluate(env, s, i, gTol, iters);
            && (r.assertFailed <==> s.assertFailed || exists k :: 0 <= k < |t| && HasKey(s.solutions, t[k]))
            && (StartBracket(env, c).lowerG == 0.0 ==> r.assertFailed)
  {
    var c := s.crossovers[i].val;
    var t := TrialsFor(env, c, gTol, iters);
    TrialIsInside(StartBracket(env, c));
    if StartBracket(env, c).lowerG == 0.0 {
      assert HasKey(s.solutions, t[0]);
    } else {
      ProperTrials(env, c, gTol, iters);
    }
  }

  /** For a crossover whose ends are stored next to each other, evaluation fails an insertion if and only if the damping
      at its lower end is exactly zero. */
  lemma FailsExactlyForZeroDamping(env: Analysis, s: SearchState, i: nat, gTol: real, iters: nat)
    requires Valid(env, s) && i < |s.crossovers| && s.crossovers[i].val.root.None? && gTol >= 0.0 && iters > 0
    requires s.crossovers[i].val.lower.refVal != s.crossovers[i].val.upper.refVal
    requires HasKey(s.solutions, s.crossovers[i].val.lower.refVal) && SpanClear(s.crossovers[i].val, s.solutions)
    requires !s.assertFailed
    ensures Evaluate(env, s, i, gTol, iters).assertFailed <==> StartBracket(env, s.crossovers[i].val).lowerG == 0.0
  {
    var c := s.crossovers[i].val;
    InsertionFailsExactly(env, s, i, gTol, iters);
    if StartBracket(env, c).lowerG < 0.0 {
      ProperTrials(env, c, gTol, iters);
    }
    hide Evaluate, TrialsFor, HasKey;
  }

  lemma MoveKeepsDisjoint(cs: seq<Pair<Crossover>>, i: nat, e: Pair<Crossover>)
    requires i < |cs| && e.val.root.Some? && OwnSpansDisjoint(cs)
    ensures OwnSpansDisjoint(Insert(RemoveAt(cs, i), e))
  {
    var p, r := UpperBound(RemoveAt(cs, i), e.key), Insert(RemoveAt(cs, i), e);
    forall a, b | 0 <= a < |r| && 0 <= b < |r| && a != b && r[a].val.root.None? && r[b].val.root.None?
      ensures SpansDisjoint(r[a].val, r[b].val)
    {
      MovedEntries(cs, i, e, a);
      MovedEntries(cs, i, e, b);
      hide Insert, RemoveAt, UpperBound, SpansDisjoint;
      assert Origin(p, i, a) != Origin(p, i, b);
    }
  }

  /** New solutions inside the span of the moved crossover leave the other spans clear. */
  lemma MoveKeepsClear(env: Analysis, cs: seq<Pair<Crossover>>, i: nat, e: Pair<Crossover>,
                       sols: seq<Pair<Solution>>, sols': seq<Pair<Solution>>)
    requires i < |cs| && cs[i].val.root.None? && e.val.root.Some?
    requires forall k | 0 <= k < |cs| :: WellFormed(env, cs[k].val)
    requires OwnSpansDisjoint(cs) && OwnSpansClear(env, cs, sols)
    requires forall k: real | HasKey(sols', k) ::
               HasKey(sols, k) || Between(k, cs[i].val.lower.refVal, cs[i].val.upper.refVal)
    ensures OwnSpansClear(env, Insert(RemoveAt(cs, i), e), sols')
  {
    var p, r := UpperBound(RemoveAt(cs, i), e.key), Insert(RemoveAt(cs, i), e);
    hide Insert, RemoveAt, UpperBound, HasKey, WellFormed, StartBracket, Between;
    forall a | 0 <= a < |r| && WellFormed(env, r[a].val) && r[a].val.root.None?
      ensures Proper(StartBracket(env, r[a].val)) && SpanClear(r[a].val, sols')
    {
      MovedEntries(cs, i, e, a);
      assert SpansDisjoint(cs[Origin(p, i, a)].val, cs[i].val);
    }
  }

  lemma EvaluateKeepsSafe(env: Analysis, s: SearchState, i: nat, gTol: real, iters: nat)
    requires Safe(env, s) && i < |s.crossovers| && s.crossovers[i].val.root.None? && gTol >= 0.0 && iters > 0
    ensures Safe(env, Evaluate(env, s, i, gTol, iters))
  {
    hide Insert, RemoveAt, UpperBound, TrialsFor, RootFor, RecordAll, HasKey, OwnSpansDisjoint;
    EvaluateKeeps(env, s, i, gTol, iters);
    var c := s.crossovers[i].val;
    var t := TrialsFor(env, c, gTol, iters);
    var root := RootFor(env, c, gTol, iters);
    var e := Pair(root.V, c.(root := Some(root)));
    var sols := RecordAll(env, c.lower.roots, s.solutions, t);
    ProperTrials(env, c, gTol, iters);
    RecordKeys(env, c.lower.roots, s.solutions, t);
    assert SpanClear(c, s.solutions);
    assert !Collides(s.solutions, t);
    MoveKeepsDisjoint(s.crossovers, i, e);
    assert forall k: real | HasKey(sols, k) :: HasKey(s.solutions, k) || Between(k, c.lower.refVal, c.upper.refVal);
    MoveKeepsClear(env, s.crossovers, i, e, s.solutions, sols);
  }

  lemma {:induction false} FindCriticalKeepsSafe(env: Analysis, s: SearchState, gTol: real, iters: nat)
    requires Safe(env, s) && gTol >= 0.0 && iters > 0
    ensures Safe(env, FindCritical(env, s, gTol, iters))
    decreases Unevaluated(s.crossovers)
  {
    if s.crossovers != [] && s.crossovers[0].val.root.None? {
      EvaluateKeeps(env, s, 0, gTol, iters);
      EvaluateKeepsSafe(env, s, 0, gTol, iters);
      FindCriticalKeepsSafe(env, Evaluate(env, s, 0, gTol, iters), gTol, iters);
    }
  }

  /** If every unevaluated crossover has strictly negative damping at its lower end and no two share a velocity
      interval, no insertion fails in any run of searches. */
  lemma {:induction false} SafeRun(env: Analysis, s: SearchState, calls: seq<Call>)
    requires Safe(env, s) && forall c | c in calls :: Legal(c)
    ensures Safe(env, Run(env, s, calls)) && !Run(env, s, calls).assertFailed
    decreases |calls|
  {
    if calls != [] {
      var c := calls[0];
      assert c in calls;
      if c.FindNextRoot? {
        var p := FirstUnevaluated(s.crossovers);
        if p < |s.crossovers| {
          EvaluateKeepsSafe(env, s, p, c.gTol, c.iters);
        }
      } else {
        FindCriticalKeepsSafe(env, s, c.gTol, c.iters);
      }
      SafeRun(env, Step(env, s, c), calls[1..]);
      hide Safe, Valid;
    }
  }

  // ---------------------------------------------------------------------------------------------
  // Runs that evaluate every crossover
  // ---------------------------------------------------------------------------------------------

  predicate ZeroBelow(env: Analysis, c: Crossover) {
    WellFormed(env, c) && c.root.None? && StartBracket(env, c).lowerG == 0.0
  }

  ghost predicate SomeZeroBelow(env: Analysis, cs: seq<Pair<Crossover>>) {
    exists i :: 0 <= i < |cs| && ZeroBelow(env, cs[i].val)
  }

  /** The two ends of an unevaluated crossover differ, and the lower one is stored. */
  ghost predicate EndsStored(cs: seq<Pair<Crossover>>, sols: seq<Pair<Solution>>) {
    forall i | 0 <= i < |cs| && cs[i].val.root.None? ::
      cs[i].val.lower.refVal != cs[i].val.upper.refVal && HasKey(sols, cs[i].val.lower.refVal)
  }

  /** An insertion has failed, or a crossover that will make one fail is still to be evaluated. */
  ghost predicate Doomed(env: Analysis, s: SearchState) {
    s.assertFailed || SomeZeroBelow(env, s.crossovers)
  }

  /** Every entry other than the one moved is still there. */
  lemma StillThere(cs: seq<Pair<Crossover>>, i: nat, e: Pair<Crossover>, k: nat) returns (q: nat)
    requires i < |cs| && k < |cs| && k != i
    ensures var r := Insert(RemoveAt(cs, i), e); q < |r| && r[q] == cs[k]
  {
    hide UpperBound;
    var m, p := if k < i then k else k - 1, UpperBound(RemoveAt(cs, i), e.key);
    q := if m < p then m else m + 1;
  }

  lemma EvaluateKeepsDoomed(env: Analysis, s: SearchState, i: nat, gTol: real, iters: nat)
    requires Valid(env, s) && i < |s.crossovers| && s.crossovers[i].val.root.None? && gTol >= 0.0 && iters > 0
    requires EndsStored(s.crossovers, s.solutions)
    ensures var r := Evaluate(env, s, i, gTol, iters);
            && EndsStored(r.crossovers, r.solutions)
            && (Doomed(env, s) ==> Doomed(env, r))
  {
    hide Insert, RemoveAt, UpperBound, TrialsFor, RootFor, RecordAll, HasKey, Collides, Valid;
    var c := s.crossovers[i].val;
    EntryIsWellFormed(env, s, i);
    var root := RootFor(env, c, gTol, iters);
    var e := Pair(root.V, c.(root := Some(root)));
    var r := Evaluate(env, s, i, gTol, iters);
    RecordKeys(env, c.lower.roots, s.solutions, TrialsFor(env, c, gTol, iters));
    forall a | 0 <= a < |r.crossovers| && r.crossovers[a].val.root.None?
      ensures var d := r.crossovers[a].val;
              d.lower.refVal != d.upper.refVal && HasKey(r.solutions, d.lower.refVal)
    {
      MovedEntries(s.crossovers, i, e, a);
    }
    InsertionFailsExactly(env, s, i, gTol, iters);
    if SomeZeroBelow(env, s.crossovers) && !r.assertFailed {
      var k :| 0 <= k < |s.crossovers| && ZeroBelow(env, s.crossovers[k].val);
      var q := StillThere(s.crossovers, i, e, k);
      assert ZeroBelow(env, r.crossovers[q].val);
    }
  }

  lemma {:induction false} FindCriticalKeepsDoomed(env: Analysis, s: SearchState, gTol: real, iters: nat)
    requires Valid(env, s) && gTol >= 0.0 && iters > 0 && EndsStored(s.crossovers, s.solutions)
    ensures var r := FindCritical(env, s, gTol, iters);
            EndsStored(r.crossovers, r.solutions) && (Doomed(env, s) ==> Doomed(env, r))
    decreases Unevaluated(s.crossovers)
  {
    if s.crossovers != [] && s.crossovers[0].val.root.None? {
      EvaluateKeeps(env, s, 0, gTol, iters);
      EvaluateKeepsDoomed(env, s, 0, gTol, iters);
      FindCriticalKeepsDoomed(env, Evaluate(env, s, 0, gTol, iters), gTol, iters);
    }
  }

  lemma {:induction false} RunKeepsDoomed(env: Analysis, s: SearchState, calls: seq<Call>)
    requires Valid(env, s) && EndsStored(s.crossovers, s.solutions) && forall c | c in calls :: Legal(c)
    ensures Doomed(env, s) ==> Doomed(env, Run(env, s, calls))
    decreases |calls|
  {
    if calls != [] {
      var c := calls[0];
      assert c in calls;
      if c.FindNextRoot? {
        var p := FirstUnevaluated(s.crossovers);
        if p < |s.crossovers| {
          EvaluateKeepsDoomed(env, s, p, c.gTol, c.iters);
        }
      } else {
        FindCriticalKeepsDoomed(env, s, c.gTol, c.iters);
      }
      RunKeepsDoomed(env, Step(env, s, c), calls[1..]);
      hide Doomed, Valid, EndsStored, Evaluate, FindCritical;
    }
  }

  /** Unevaluated crossovers have ends that are stored next to each other, and velocity intervals of their own. */
  ghost predicate OwnIntervals(s: SearchState) {
    && EndsStored(s.crossovers, s.solutions)
    && OwnSpansDisjoint(s.crossovers)
    && forall i | 0 <= i < |s.crossovers| && s.crossovers[i].val.root.None? ::
         SpanClear(s.crossovers[i].val, s.solutions)
  }

  /** With intervals of their own, a run that evaluates every crossover fails an insertion if and only if some crossover
      has damping exactly zero at its lower end. */
  lemma CompleteRunFailsExactly(env: Analysis, s: SearchState, calls: seq<Call>)
    requires Valid(env, s) && !s.assertFailed && OwnIntervals(s) && forall c | c in calls :: Legal(c)
    ensures Unevaluated(Run(env, s, calls).crossovers) == 0 ==>
              (Run(env, s, calls).assertFailed <==> SomeZeroBelow(env, s.crossovers))
  {
    hide Run, HasKey, SpanClear, SpansDisjoint;
    if SomeZeroBelow(env, s.crossovers) {
      RunKeepsDoomed(env, s, calls);
      NoneLeft(Run(env, s, calls).crossovers);
    } else {
      assert Safe(env, s) by {
        forall i | 0 <= i < |s.crossovers| && s.crossovers[i].val.root.None?
          ensures Proper(StartBracket(env, s.crossovers[i].val))
        {
          assert WellFormed(env, s.crossovers[i].val) && !ZeroBelow(env, s.crossovers[i].val);
        }
      }
      SafeRun(env, s, calls);
    }
  }

  /** Two modes that cross in the same interval with equal dampings at its ends have the same first trial point:
      evaluating one and then the other fails an insertion, whatever the tolerances and iteration limits. */
  lemma SharedIntervalFails(env: Analysis, s: SearchState, i: nat, k: nat, gTol: real, iters: nat, gTol': real,
                            iters': nat)
    requires Valid(env, s) && i < |s.crossovers| && s.crossovers[i].val.root.None?
    requires gTol >= 0.0 && iters > 0 && gTol' >= 0.0 && iters' > 0
    requires var r := Evaluate(env, s, i, gTol, iters);
             && k < |r.crossovers| && Valid(env, r) && r.crossovers[k].val.root.None?
             && StartBracket(env, r.crossovers[k].val) == StartBracket(env, s.crossovers[i].val)
    ensures Evaluate(env, Evaluate(env, s, i, gTol, iters), k, gTol', iters').assertFailed
  {
    var c := s.crossovers[i].val;
    var r := Evaluate(env, s, i, gTol, iters);
    var t := TrialsFor(env, c, gTol, iters);
    RecordKeys(env, c.lower.roots, s.solutions, t);
    var u := TrialsFor(env, r.crossovers[k].val, gTol', iters');
    assert u[0] == t[0] && t[0] in t;
    assert HasKey(r.solutions, u[0]);
  }
}
