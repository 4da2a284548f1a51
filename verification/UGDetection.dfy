/** The roots of the U-g solver and the detection of its crossovers: pairs of neighbouring solutions from the highest
    reduced frequency down, only roots of bounded damping that are not marked non-physical, and undamped ones at zero
    reduced frequency. */
module UGDetection {
  import opened Scalars
  import opened OrderedContainers
  import opened ModeTracking
  import opened FlutterRoots
  import opened CrossoverSearch
  import opened VelocitySweep
  import CD = CrossoverDetection

  const TOL := 0.00001
  const MAX_ALLOWABLE_G := 0.75

  /** The reference length, by which the solver divides. */
  type NonZero = b: real | b != 0.0 witness 1.0

  function UGRoots(sqrt: real -> real, kr: real, b: NonZero, s: EigenSolution): (r: seq<FlutterRoot>)
    ensures |r| == |s.triples|
    ensures forall i | 0 <= i < |r| :: r[i] == UGRoot(sqrt, kr, b, s.triples[i])
  {
    seq(|s.triples|, i requires 0 <= i < |s.triples| => UGRoot(sqrt, kr, b, s.triples[i]))
  }

  /** The roots at a reduced frequency, tracked against the previous ones. */
  function TrackedUGRoots(sqrt: real -> real, kr: real, b: NonZero, eig: EigenSolution, prev: seq<FlutterRoot>)
    : seq<FlutterRoot>
  {
    var cur := UGRoots(sqrt, kr, b, eig);
    if |prev| == |cur| then Tracked(OneSidedScore(eig.size, eig.B), prev, cur, 0) else cur
  }

  function Damping(r: FlutterRoot): real {
    r.g
  }

  /** A root at a reduced frequency: its velocity is positive exactly when its eigenvalue has a positive real part; any
      other root, marked as non-physical or not, has velocity and damping zero. */
  predicate RootAt(r: FlutterRoot, kr: real) {
    && r.kr == kr
    && (r.V > 0.0 <==> r.root.re > 0.0)
    && (r.root.re <= 0.0 ==> r.V == 0.0 && r.g == 0.0)
    && (r.nonphysical ==> r.root.re <= 0.0)
  }

  predicate SolutionAt(s: Solution) {
    forall r <- s.roots :: RootAt(r, s.refVal)
  }

  lemma UGRootIsAt(sqrt: real -> real, kr: real, b: NonZero, t: EigenTriple)
    requires ExactSqrt(sqrt)
    ensures RootAt(UGRoot(sqrt, kr, b, t), kr)
  {
    if t.beta.re != 0.0 || t.beta.im != 0.0 {
      UGRootDefinition(sqrt, kr, b, t);
    }
    hide ExactSqrt;
  }

  lemma UGRootsAreAt(sqrt: real -> real, kr: real, b: NonZero, eig: EigenSolution, prev: seq<FlutterRoot>)
    requires ExactSqrt(sqrt)
    ensures forall r <- UGRoots(sqrt, kr, b, eig) :: RootAt(r, kr)
    ensures forall r <- TrackedUGRoots(sqrt, kr, b, eig, prev) :: RootAt(r, kr)
  {
    hide RootAt, UGRoot, ExactSqrt;
    var cur := UGRoots(sqrt, kr, b, eig);
    forall r | r in cur
      ensures RootAt(r, kr)
    {
      var i :| 0 <= i < |cur| && cur[i] == r;
      UGRootIsAt(sqrt, kr, b, eig.triples[i]);
    }
    if |prev| == |cur| {
      var tracked := TrackedUGRoots(sqrt, kr, b, eig, prev);
      TrackedPermutes(OneSidedScore(eig.size, eig.B), prev, cur, 0);
      forall r | r in tracked
        ensures RootAt(r, kr)
      {
        assert r in multiset(tracked) && r in multiset(cur);
      }
    }
  }

  ghost predicate AllAt(sols: CD.Scan) {
    forall p <- sols :: SolutionAt(p.val)
  }

  /** All stored solutions of a sweep hold roots at their reduced frequency. */
  lemma SweepIsAt(m: Sweep, env: Analysis)
    requires m.divs > 0 && m.lo != m.hi && SolutionAt(Solution(m.lo, m.first))
    requires forall v, prev :: SolutionAt(Solution(v, env.At(v, prev)))
    ensures AllAt(RecordVisits(m.Visits(env, m.divs)))
  {
    hide RecordVisits, SolutionAt, Sweep.V;
    var s := m.Visits(env, m.divs);
    SweepDoesNotRepeat(m, env, m.divs);
    RecordVisitsDistinct(s);
    SweepSteps(m, 0);
    var r := RecordVisits(s);
    forall p | p in r
      ensures SolutionAt(p.val)
    {
      var i :| 0 <= i < |r| && r[i] == p;
      var j :| 0 <= j < |s| && r[i] == Pair(s[j].refVal, s[j]);
      VisitsAre(m, env, m.divs, j);
    }
  }

  // ---------------------------------------------------------------------------------------------
  // Detection
  // ---------------------------------------------------------------------------------------------

  function G(sols: CD.Scan, i: nat, j: nat): real
    requires j < |sols| && i < |sols[j].val.roots|
  {
    Damping(sols[j].val.roots[i])
  }

  /** The mode trails along zero damping. */
  ghost predicate Neglected(sols: CD.Scan, i: nat, n: nat)
    requires CD.IsScan(sols, n) && i < n
  {
    forall j | 0 <= j < |sols| :: Abs(G(sols, i, j)) < TOL
  }

  /** The root of mode i in solution j is not marked non-physical and its damping is moderate. */
  predicate Usable(sols: CD.Scan, i: nat, j: nat)
    requires j < |sols| && i < |sols[j].val.roots|
  {
    !sols[j].val.roots[i].nonphysical && Abs(G(sols, i, j)) < MAX_ALLOWABLE_G
  }

  /** Whether the pair of solutions j, j + 1 is looked at for mode i. */
  ghost predicate Processed(sols: CD.Scan, n: nat, i: nat, j: nat)
    requires CD.IsScan(sols, n) && i < n && j + 1 < |sols|
  {
    && Usable(sols, i, j + 1) && Usable(sols, i, j)
    && CD.AwayFromZero(sols, j)
    && !Neglected(sols, i, n)
  }

  ghost function PairEntry(sols: CD.Scan, n: nat, i: nat, j: nat): seq<Pair<Crossover>>
    requires CD.IsScan(sols, n) && i < n && j + 1 < |sols|
  {
    if !Processed(sols, n, i, j) then []
    else if G(sols, i, j + 1) <= 0.0 < G(sols, i, j) then [CD.Entry(sols[j + 1].val, sols[j].val, i)]
    else if G(sols, i, j) <= 0.0 < G(sols, i, j + 1) then [CD.Entry(sols[j].val, sols[j + 1].val, i)]
    else []
  }

  /** The pairs from the highest reduced frequency down to the one that starts at k. */
  ghost function PairEntries(sols: CD.Scan, n: nat, i: nat, k: nat): seq<Pair<Crossover>>
    requires CD.IsScan(sols, n) && i < n && k < |sols|
    decreases |sols| - k
  {
    if k + 1 == |sols| then [] else PairEntries(sols, n, i, k + 1) + PairEntry(sols, n, i, k)
  }

  /** A mode that is unstable at the highest reduced frequency, if such modes are asked for. */
  ghost function HighestEntry(sols: CD.Scan, n: nat, i: nat, withStart: bool): seq<Pair<Crossover>>
    requires CD.IsScan(sols, n) && i < n && |sols| > 1
  {
    var top := |sols| - 1;
    if withStart && Processed(sols, n, i, top - 1) && 0.0 < G(sols, i, top) < MAX_ALLOWABLE_G
    then [CD.Entry(sols[top].val, sols[top].val, i)] else []
  }

  ghost function ModeEntries(sols: CD.Scan, n: nat, i: nat, withStart: bool): seq<Pair<Crossover>>
    requires CD.IsScan(sols, n) && i < n && |sols| > 1
  {
    PairEntries(sols, n, i, 0) + HighestEntry(sols, n, i, withStart)
  }

  /** An undamped root at zero reduced frequency, not marked non-physical, is recorded as already evaluated. */
  function ZeroEntry(s: Solution, i: nat): seq<Pair<Crossover>>
    requires i < |s.roots|
  {
    var r := s.roots[i];
    if !r.nonphysical && Abs(Damping(r)) < TOL then [Pair(r.V, Crossover(s, s, i, Some(r)))] else []
  }

  function ZeroEntries(s: Solution, m: nat): seq<Pair<Crossover>>
    requires m <= |s.roots|
  {
    if m == 0 then [] else ZeroEntries(s, m - 1) + ZeroEntry(s, m - 1)
  }

  /** Everything detected for the zero frequency and the first m modes. */
  ghost function AllEntries(sols: CD.Scan, n: nat, m: nat, withStart: bool): seq<Pair<Crossover>>
    requires CD.IsScan(sols, n) && m <= n && |sols| > 1
  {
    if m == 0 then if Abs(sols[0].val.refVal) < TOL then ZeroEntries(sols[0].val, n) else []
    else AllEntries(sols, n, m - 1, withStart) + ModeEntries(sols, n, m - 1, withStart)
  }

  // ---------------------------------------------------------------------------------------------
  // What is detected
  // ---------------------------------------------------------------------------------------------

  /** A crossover of mode i between the neighbouring solutions j and j + 1: non-positive damping first, positive damping
      second, both moderate, keyed by the velocity of the first. The second root is physical; so is the first, unless it
      comes from an infinite eigenvalue, which nothing marks. */
  ghost predicate Brackets(sols: CD.Scan, n: nat, i: nat, j: nat, e: Pair<Crossover>)
    requires CD.IsScan(sols, n)
  {
    && i < n && j + 1 < |sols|
    && e.val.rootNum == i && e.val.root == None
    && ((e.val.lower == sols[j].val && e.val.upper == sols[j + 1].val)
        || (e.val.lower == sols[j + 1].val && e.val.upper == sols[j].val))
    && var (l, u) := (e.val.lower.roots[i], e.val.upper.roots[i]);
       && e.key == l.V
       && u.V > 0.0 && u.root.re > 0.0 && !l.nonphysical && (l.V > 0.0 <==> l.root.re > 0.0)
       && -MAX_ALLOWABLE_G < l.g <= 0.0 < u.g < MAX_ALLOWABLE_G
  }

  /** A root at zero reduced frequency, undamped to the tolerance and not marked non-physical. An infinite eigenvalue
      leaves such a root, with velocity zero. */
  ghost predicate Diverges(sols: CD.Scan, n: nat, e: Pair<Crossover>)
    requires CD.IsScan(sols, n)
  {
    && |sols| > 0 && Abs(sols[0].val.refVal) < TOL
    && e.val.rootNum < n && e.val.lower == e.val.upper == sols[0].val
    && var r := sols[0].val.roots[e.val.rootNum];
       e.val.root == Some(r) && e.key == r.V && !r.nonphysical && Abs(r.g) < TOL
  }

  /** A mode unstable at the highest reduced frequency, with one solution at both ends. */
  ghost predicate StartsUnstable(sols: CD.Scan, n: nat, e: Pair<Crossover>)
    requires CD.IsScan(sols, n)
  {
    && |sols| > 1 && e.val.rootNum < n && e.val.root == None
    && e.val.lower == e.val.upper == sols[|sols| - 1].val
    && G(sols, e.val.rootNum, |sols| - 1) > 0.0
  }

  ghost predicate Known(sols: CD.Scan, n: nat, withStart: bool, e: Pair<Crossover>)
    requires CD.IsScan(sols, n)
  {
    || Diverges(sols, n, e)
    || (exists i: nat, j: nat :: Brackets(sols, n, i, j, e))
    || (withStart && StartsUnstable(sols, n, e))
  }

  lemma PairEntryBrackets(sols: CD.Scan, n: nat, i: nat, j: nat)
    requires CD.IsScan(sols, n) && AllAt(sols) && i < n && j + 1 < |sols|
    ensures forall e <- PairEntry(sols, n, i, j) :: Brackets(sols, n, i, j, e)
  {
    hide Neglected;
    assert sols[j] in sols && sols[j + 1] in sols;
    assert sols[j].val.roots[i] in sols[j].val.roots && sols[j + 1].val.roots[i] in sols[j + 1].val.roots;
  }

  lemma {:induction false} PairEntriesKnown(sols: CD.Scan, n: nat, i: nat, k: nat)
    requires CD.IsScan(sols, n) && AllAt(sols) && i < n && k < |sols|
    ensures forall e <- PairEntries(sols, n, i, k) :: exists j: nat :: Brackets(sols, n, i, j, e)
    decreases |sols| - k
  {
    hide Brackets, PairEntry, CD.IsScan, AllAt;
    if k + 1 < |sols| {
      PairEntriesKnown(sols, n, i, k + 1);
      PairEntryBrackets(sols, n, i, k);
    }
  }

  lemma {:induction false} ZeroEntriesDiverge(sols: CD.Scan, n: nat, m: nat)
    requires CD.IsScan(sols, n) && |sols| > 0 && m <= n && Abs(sols[0].val.refVal) < TOL
    ensures forall e <- ZeroEntries(sols[0].val, m) :: Diverges(sols, n, e)
  {
    if m > 0 {
      ZeroEntriesDiverge(sols, n, m - 1);
    }
  }

  /** Everything detected is a divergence root, a sign change, or, if asked for, an unstable start. */
  lemma {:induction false} EntriesSound(sols: CD.Scan, n: nat, m: nat, withStart: bool)
    requires CD.IsScan(sols, n) && AllAt(sols) && m <= n && |sols| > 1
    ensures forall e <- AllEntries(sols, n, m, withStart) :: Known(sols, n, withStart, e)
  {
    hide Brackets, Neglected, PairEntries, AllAt, Diverges, Usable, ZeroEntries;
    if m == 0 {
      if Abs(sols[0].val.refVal) < TOL {
        ZeroEntriesDiverge(sols, n, n);
      }
    } else {
      EntriesSound(sols, n, m - 1, withStart);
      PairEntriesKnown(sols, n, m - 1, 0);
      assert forall e <- HighestEntry(sols, n, m - 1, withStart) :: StartsUnstable(sols, n, e);
    }
  }

  // ---------------------------------------------------------------------------------------------
  // Balance and completeness
  // ---------------------------------------------------------------------------------------------

  function UnstableAt(sols: CD.Scan, i: nat, j: nat): int
    requires j < |sols| && i < |sols[j].val.roots|
  {
    if G(sols, i, j) > 0.0 then 1 else 0
  }

  /** For a mode looked at in every pair, the crossings into instability with increasing reduced frequency less those
      out of it are the change from one end of the scan to the other. */
  lemma {:induction false} PairsTelescope(sols: CD.Scan, n: nat, i: nat, k: nat)
    requires CD.IsScan(sols, n) && i < n && k < |sols|
    requires forall j: nat | j + 1 < |sols| :: Processed(sols, n, i, j)
    ensures CD.Balance(PairEntries(sols, n, i, k)) == UnstableAt(sols, i, |sols| - 1) - UnstableAt(sols, i, k)
    decreases |sols| - k
  {
    hide Neglected, Usable, CD.Balance;
    if k + 1 < |sols| {
      PairsTelescope(sols, n, i, k + 1);
      assert Processed(sols, n, i, k);
      CD.BalanceConcat(PairEntries(sols, n, i, k + 1), PairEntry(sols, n, i, k));
      assert sols[k].key < sols[k + 1].key;
      CD.BalanceOne(CD.Entry(sols[k].val, sols[k + 1].val, i));
      CD.BalanceOne(CD.Entry(sols[k + 1].val, sols[k].val, i));
      EmptyBalance();
    } else {
      EmptyBalance();
    }
  }

  lemma EmptyBalance()
    ensures CD.Balance([]) == 0
  {
  }

  /** With unstable starts included, the crossings into instability with decreasing reduced frequency plus the unstable
      start less the crossings out of it tell whether the mode is unstable at the lowest reduced frequency. */
  lemma CrossoversBalance(sols: CD.Scan, n: nat, i: nat)
    requires CD.IsScan(sols, n) && i < n && |sols| > 1
    requires forall j: nat | j + 1 < |sols| :: Processed(sols, n, i, j)
    ensures |HighestEntry(sols, n, i, true)| - CD.Balance(PairEntries(sols, n, i, 0)) == UnstableAt(sols, i, 0)
  {
    PairsTelescope(sols, n, i, 0);
    assert Processed(sols, n, i, |sols| - 2);
    hide Neglected, CD.Balance, PairEntries;
  }

  /** A change of stability between two samples of such a mode is detected. */
  lemma ChangeIsDetected(sols: CD.Scan, n: nat, i: nat, j: nat, k: nat)
    requires CD.IsScan(sols, n) && i < n && j < k < |sols|
    requires forall m: nat | m + 1 < |sols| :: Processed(sols, n, i, m)
    requires (G(sols, i, j) > 0.0) != (G(sols, i, k) > 0.0)
    ensures PairEntries(sols, n, i, 0) != []
  {
    hide Processed;
    PairsTelescope(sols, n, i, j);
    PairsTelescope(sols, n, i, k);
    EmptyBalance();
    PairEntriesGrow(sols, n, i, j, 0);
    PairEntriesGrow(sols, n, i, k, 0);
    hide PairEntries, CD.Balance;
  }

  lemma {:induction false} PairEntriesGrow(sols: CD.Scan, n: nat, i: nat, k: nat, m: nat)
    requires CD.IsScan(sols, n) && i < n && m <= k < |sols|
    ensures |PairEntries(sols, n, i, k)| <= |PairEntries(sols, n, i, m)|
    decreases k
  {
    hide PairEntry;
    if m < k {
      PairEntriesGrow(sols, n, i, k - 1, m);
    }
  }

  // ---------------------------------------------------------------------------------------------
  // When the detected crossovers can be searched
  // ---------------------------------------------------------------------------------------------

  /** The ends of a crossover were analysed at the reduced frequency that their roots carry. */
  predicate EndsAgree(lower: Solution, upper: Solution, rootNum: nat) {
    && rootNum < |lower.roots| && lower.roots[rootNum].kr == lower.refVal
    && rootNum < |upper.roots| && upper.roots[rootNum].kr == upper.refVal
  }

  lemma KnownIsWellFormed(env: Analysis, sols: CD.Scan, n: nat, withStart: bool, e: Pair<Crossover>)
    requires env.nRoots == n && forall r :: env.damping(r) == Damping(r)
    requires CD.IsScan(sols, n) && AllAt(sols) && Known(sols, n, withStart, e)
    ensures EndsAgree(e.val.lower, e.val.upper, e.val.rootNum)
    ensures WellFormed(env, e.val) <==> !StartsUnstable(sols, n, e)
    ensures e.val.root.Some? ==> e.key == e.val.root.value.V
  {
    if i: nat, j: nat :| Brackets(sols, n, i, j, e) {
      assert sols[j] in sols && sols[j + 1] in sols;
      assert sols[j].val.roots[i] in sols[j].val.roots && sols[j + 1].val.roots[i] in sols[j + 1].val.roots;
    } else if Diverges(sols, n, e) {
      assert sols[0] in sols && sols[0].val.roots[e.val.rootNum] in sols[0].val.roots;
    } else {
      assert sols[|sols| - 1] in sols;
      assert sols[|sols| - 1].val.roots[e.val.rootNum] in sols[|sols| - 1].val.roots;
    }
  }

  lemma {:induction false} HighestIsListed(sols: CD.Scan, n: nat, m: nat, i: nat, withStart: bool)
    requires CD.IsScan(sols, n) && i < m <= n && |sols| > 1
    ensures forall e <- HighestEntry(sols, n, i, withStart) :: e in AllEntries(sols, n, m, withStart)
  {
    hide PairEntries, HighestEntry;
    if i < m - 1 {
      HighestIsListed(sols, n, m - 1, i, withStart);
    }
  }

  lemma {:induction false} OnlyHighestStarts(sols: CD.Scan, n: nat, m: nat, withStart: bool, e: Pair<Crossover>)
    requires CD.IsScan(sols, n) && AllAt(sols) && m <= n && |sols| > 1
    requires e in AllEntries(sols, n, m, withStart) && StartsUnstable(sols, n, e)
    ensures exists i: nat :: i < m && HighestEntry(sols, n, i, withStart) != []
  {
    hide AllAt, Neglected, Usable, Processed;
    if m == 0 {
      ZeroEntriesDiverge(sols, n, n);
    } else {
      PairEntriesKnown(sols, n, m - 1, 0);
      if e in AllEntries(sols, n, m - 1, withStart) {
        OnlyHighestStarts(sols, n, m - 1, withStart, e);
      }
    }
  }

  /** A scan leaves a state in which the searches are defined if and only if no unstable start was recorded. */
  lemma ScanIsSearchable(env: Analysis, sols: CD.Scan, n: nat, withStart: bool, failed: bool)
    requires WellPosed(env) && env.nRoots == n && forall r :: env.damping(r) == Damping(r)
    requires CD.IsScan(sols, n) && AllAt(sols) && |sols| > 1
    ensures var cs := CD.InsertAll([], AllEntries(sols, n, n, withStart));
            && KeyedByRoot(cs)
            && (forall e <- cs :: EndsAgree(e.val.lower, e.val.upper, e.val.rootNum))
            && (Valid(env, SearchState(sols, cs, failed))
                <==> forall i: nat | i < n :: HighestEntry(sols, n, i, withStart) == [])
  {
    hide AllEntries, HighestEntry, Insert, WellFormed, AllAt, Known, EndsAgree, StartsUnstable, CD.InsertAll;
    var es := AllEntries(sols, n, n, withStart);
    var cs := CD.InsertAll([], es);
    CD.InsertAllKeeps([], es);
    EntriesSound(sols, n, n, withStart);
    forall e | e in cs
      ensures e in es && EndsAgree(e.val.lower, e.val.upper, e.val.rootNum)
      ensures WellFormed(env, e.val) <==> !StartsUnstable(sols, n, e)
      ensures e.val.root.Some? ==> e.key == e.val.root.value.V
    {
      assert e in multiset(cs) && e in multiset(es);
      KnownIsWellFormed(env, sols, n, withStart, e);
    }
    if forall i: nat | i < n :: HighestEntry(sols, n, i, withStart) == [] {
      forall e | e in cs
        ensures WellFormed(env, e.val)
      {
        if StartsUnstable(sols, n, e) {
          OnlyHighestStarts(sols, n, n, withStart, e);
        }
      }
    } else {
      var i: nat :| i < n && HighestEntry(sols, n, i, withStart) != [];
      HighestIsListed(sols, n, n, i, withStart);
      var e := HighestEntry(sols, n, i, withStart)[0];
      HighestStarts(sols, n, i, withStart);
      assert e in multiset(es) && e in multiset(cs);
    }
  }

  lemma HighestStarts(sols: CD.Scan, n: nat, i: nat, withStart: bool)
    requires CD.IsScan(sols, n) && i < n && |sols| > 1 && HighestEntry(sols, n, i, withStart) != []
    ensures StartsUnstable(sols, n, HighestEntry(sols, n, i, withStart)[0])
    ensures HighestEntry(sols, n, i, withStart)[0] in HighestEntry(sols, n, i, withStart)
  {
    hide Processed;
  }

  // ---------------------------------------------------------------------------------------------
  // What is detected, read off the samples
  // ---------------------------------------------------------------------------------------------

  /** Some sample of mode i has a damping of modulus 1e-5 or more. */
  ghost predicate Counts(sols: CD.Scan, i: nat) {
    exists s <- sols :: i < |s.val.roots| && (s.val.roots[i].g >= 0.00001 || s.val.roots[i].g <= -0.00001)
  }

  /** The crossover joins two samples of mode i, one of them away from zero reduced frequency, neither marked
      non-physical or with a damping of modulus 0.75 or more: the first end has no positive damping and the second has,
      or both ends are an unstable sample at the highest reduced frequency. */
  ghost predicate Crosses(i: nat, below: Solution, above: Solution, atTop: bool, e: Pair<Crossover>) {
    && i < |below.roots| && i < |above.roots|
    && (Abs(below.refVal) > 0.00001 || Abs(above.refVal) > 0.00001)
    && !below.roots[i].nonphysical && -0.75 < below.roots[i].g < 0.75
    && !above.roots[i].nonphysical && -0.75 < above.roots[i].g < 0.75
    && e.val.rootNum == i && e.val.root == None
    && (|| (e.val.lower == above && e.val.upper == below
            && above.roots[i].g <= 0.0 < below.roots[i].g && e.key == above.roots[i].V)
        || (e.val.lower == below && e.val.upper == above
            && below.roots[i].g <= 0.0 < above.roots[i].g && e.key == below.roots[i].V)
        || (atTop && e.val.lower == e.val.upper == above && above.roots[i].g > 0.0 && e.key == above.roots[i].V))
  }

  /** The crossover belongs to mode i and the neighbouring samples j, j + 1. */
  ghost predicate Detectable(sols: CD.Scan, withStart: bool, i: nat, j: nat, e: Pair<Crossover>) {
    Counts(sols, i) && j + 1 < |sols| && Crosses(i, sols[j].val, sols[j + 1].val, withStart && j + 2 == |sols|, e)
  }

  /** The crossover is an undamped root of the first sample, which is at zero reduced frequency, recorded as found. */
  ghost predicate IsDivergence(sols: CD.Scan, i: nat, e: Pair<Crossover>) {
    && |sols| > 0 && -0.00001 < sols[0].val.refVal < 0.00001 && i < |sols[0].val.roots|
    && var r := sols[0].val.roots[i];
       && !r.nonphysical && -0.00001 < r.g < 0.00001
       && e == Pair(r.V, Crossover(sols[0].val, sols[0].val, i, Some(r)))
  }

  lemma CountsUnlessNeglected(sols: CD.Scan, n: nat, i: nat)
    requires CD.IsScan(sols, n) && i < n
    ensures Counts(sols, i) <==> !Neglected(sols, i, n)
  {
    if Counts(sols, i) {
      var s :| s in sols && (s.val.roots[i].g >= 0.00001 || s.val.roots[i].g <= -0.00001);
      var j :| 0 <= j < |sols| && sols[j] == s;
      assert Abs(G(sols, i, j)) >= TOL;
    }
    if !Neglected(sols, i, n) {
      var j :| 0 <= j < |sols| && Abs(G(sols, i, j)) >= TOL;
      assert sols[j] in sols;
    }
  }

  lemma PairEntryMeaning(sols: CD.Scan, n: nat, i: nat, j: nat, e: Pair<Crossover>)
    requires CD.IsScan(sols, n) && i < n && j + 1 < |sols|
    ensures e in PairEntry(sols, n, i, j) <==> Counts(sols, i) && Crosses(i, sols[j].val, sols[j + 1].val, false, e)
  {
    CountsUnlessNeglected(sols, n, i);
    hide Neglected, Counts;
  }

  lemma HighestEntryMeaning(sols: CD.Scan, n: nat, i: nat, withStart: bool, e: Pair<Crossover>)
    requires CD.IsScan(sols, n) && i < n && |sols| > 1
    ensures e in PairEntry(sols, n, i, |sols| - 2) || e in HighestEntry(sols, n, i, withStart)
       <==> Counts(sols, i) && Crosses(i, sols[|sols| - 2].val, sols[|sols| - 1].val, withStart, e)
  {
    CountsUnlessNeglected(sols, n, i);
    hide Neglected, Counts;
  }

  lemma {:induction false} PairEntriesMembers(sols: CD.Scan, n: nat, i: nat, k: nat, e: Pair<Crossover>)
    requires CD.IsScan(sols, n) && i < n && k < |sols|
    ensures e in PairEntries(sols, n, i, k)
       <==> exists j: nat :: k <= j && j + 1 < |sols| && e in PairEntry(sols, n, i, j)
    decreases |sols| - k
  {
    hide PairEntry;
    if k + 1 < |sols| {
      PairEntriesMembers(sols, n, i, k + 1, e);
    }
  }

  lemma {:induction false} ZeroEntriesMembers(sols: CD.Scan, m: nat, e: Pair<Crossover>)
    requires |sols| > 0 && m <= |sols[0].val.roots| && -0.00001 < sols[0].val.refVal < 0.00001
    ensures e in ZeroEntries(sols[0].val, m) <==> exists i: nat :: i < m && IsDivergence(sols, i, e)
  {
    if m > 0 {
      ZeroEntriesMembers(sols, m - 1, e);
      ZeroEntryMeaning(sols, m - 1, e);
      hide ZeroEntry, IsDivergence;
    }
  }

  lemma ZeroEntryMeaning(sols: CD.Scan, i: nat, e: Pair<Crossover>)
    requires |sols| > 0 && i < |sols[0].val.roots| && -0.00001 < sols[0].val.refVal < 0.00001
    ensures e in ZeroEntry(sols[0].val, i) <==> IsDivergence(sols, i, e)
  {
  }

  lemma {:induction false} AllEntriesMembers(sols: CD.Scan, n: nat, m: nat, withStart: bool, e: Pair<Crossover>)
    requires CD.IsScan(sols, n) && |sols| > 1 && m <= n
    ensures e in AllEntries(sols, n, m, withStart)
       <==> e in AllEntries(sols, n, 0, withStart) || exists i: nat :: i < m && e in ModeEntries(sols, n, i, withStart)
  {
    hide ModeEntries, ZeroEntries;
    if m > 0 {
      AllEntriesMembers(sols, n, m - 1, withStart, e);
    }
  }

  lemma ModeEntriesMembers(sols: CD.Scan, n: nat, i: nat, withStart: bool, e: Pair<Crossover>)
    requires CD.IsScan(sols, n) && i < n && |sols| > 1
    ensures e in ModeEntries(sols, n, i, withStart) <==> exists j: nat :: Detectable(sols, withStart, i, j, e)
  {
    PairEntriesMembers(sols, n, i, 0, e);
    HighestEntryMeaning(sols, n, i, withStart, e);
    hide PairEntry, HighestEntry, PairEntries, Counts, Crosses, CD.IsScan;
    if e in ModeEntries(sols, n, i, withStart) {
      if j: nat :| j + 1 < |sols| && e in PairEntry(sols, n, i, j) {
        PairEntryMeaning(sols, n, i, j, e);
        PairIsAny(i, sols[j].val, sols[j + 1].val, withStart && j + 2 == |sols|, e);
        assert Detectable(sols, withStart, i, j, e);
      } else {
        assert Detectable(sols, withStart, i, |sols| - 2, e);
      }
    }
    if j: nat :| Detectable(sols, withStart, i, j, e) {
      PairEntryMeaning(sols, n, i, j, e);
    }
  }

  lemma PairIsAny(i: nat, below: Solution, above: Solution, atTop: bool, e: Pair<Crossover>)
    requires Crosses(i, below, above, false, e)
    ensures Crosses(i, below, above, atTop, e)
  {
  }

  lemma InRange(sols: CD.Scan, n: nat, withStart: bool, i: nat, j: nat, e: Pair<Crossover>)
    requires CD.IsScan(sols, n) && |sols| > 0
    ensures Detectable(sols, withStart, i, j, e) || IsDivergence(sols, i, e) ==> i < n
  {
  }

  lemma NoZeroSample(sols: CD.Scan, n: nat, withStart: bool, e: Pair<Crossover>)
    requires CD.IsScan(sols, n) && |sols| > 1
    ensures e in AllEntries(sols, n, 0, withStart) <==> exists i: nat :: i < n && IsDivergence(sols, i, e)
  {
    if -0.00001 < sols[0].val.refVal < 0.00001 {
      ZeroEntriesMembers(sols, n, e);
    }
    hide ZeroEntries;
  }

  /** Exactly the sign changes between neighbouring usable samples of the modes that count, if asked for their unstable
      samples at the highest reduced frequency, and the undamped roots at zero reduced frequency are detected. */
  lemma DetectedExactly(sols: CD.Scan, n: nat, withStart: bool, e: Pair<Crossover>)
    requires CD.IsScan(sols, n) && |sols| > 1
    ensures e in AllEntries(sols, n, n, withStart)
       <==> || (exists i: nat, j: nat :: Detectable(sols, withStart, i, j, e))
            || (exists i: nat :: IsDivergence(sols, i, e))
  {
    hide ModeEntries, Detectable, AllEntries, IsDivergence, CD.IsScan;
    AllEntriesMembers(sols, n, n, withStart, e);
    NoZeroSample(sols, n, withStart, e);
    forall i: nat | i < n
      ensures e in ModeEntries(sols, n, i, withStart) <==> exists j: nat :: Detectable(sols, withStart, i, j, e)
    {
      ModeEntriesMembers(sols, n, i, withStart, e);
    }
    if e in AllEntries(sols, n, n, withStart) && e !in AllEntries(sols, n, 0, withStart) {
      var i: nat :| i < n && e in ModeEntries(sols, n, i, withStart);
      var j: nat :| Detectable(sols, withStart, i, j, e);
    }
    if i: nat, j: nat :| Detectable(sols, withStart, i, j, e) {
      InRange(sols, n, withStart, i, j, e);
      assert e in ModeEntries(sols, n, i, withStart);
    }
    if i: nat :| IsDivergence(sols, i, e) {
      InRange(sols, n, withStart, i, 0, e);
    }
  }
}
