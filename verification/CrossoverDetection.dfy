/** Detection of damping sign changes on the scanned solutions of the time-domain solver, in velocity order. */
module CrossoverDetection {
  import opened Scalars
  import opened OrderedContainers
  import opened FlutterRoots
  import opened RegulaFalsi
  import opened CrossoverSearch
  import opened VelocitySweep

  const TOL := 0.00001

  type Scan = seq<Pair<Solution>>

  /** Solutions stored under their velocity, in order, each with n roots. */
  ghost predicate IsScan(sols: Scan, n: nat) {
    && StrictlySorted(sols)
    && forall j | 0 <= j < |sols| :: sols[j].val.refVal == sols[j].key && |sols[j].val.roots| == n
  }

  /** The recorded sweep is a scan with one solution per velocity. */
  lemma SweepIsScan(m: Sweep, env: Analysis)
    requires WellPosed(env) && m.divs > 0 && m.lo != m.hi && |m.first| == env.nRoots
    ensures var sols := RecordVisits(m.Visits(env, m.divs)); IsScan(sols, env.nRoots) && |sols| == m.divs + 1
  {
    hide RecordVisits;
    var s := m.Visits(env, m.divs);
    SweepDoesNotRepeat(m, env, m.divs);
    RecordVisitsDistinct(s);
    RecordVisitsKeys(s);
    forall i | 0 <= i < |s|
      ensures |s[i].roots| == env.nRoots
    {
      VisitsAre(m, env, m.divs, i);
      RootsSized(m, env, i);
    }
  }

  function Damping(r: FlutterRoot): real {
    r.root.re
  }

  function G(sols: Scan, i: nat, j: nat): real
    requires j < |sols| && i < |sols[j].val.roots|
  {
    Damping(sols[j].val.roots[i])
  }

  /** The mode trails along zero damping, or has a negative frequency throughout. */
  ghost predicate Neglected(sols: Scan, i: nat, n: nat)
    requires IsScan(sols, n) && i < n
  {
    || (forall j | 0 <= j < |sols| :: Abs(G(sols, i, j)) < TOL)
    || (forall j | 0 <= j < |sols| :: sols[j].val.roots[i].root.im < 0.0)
  }

  /** The pair of solutions j, j + 1 is away from zero velocity. */
  predicate AwayFromZero(sols: Scan, j: nat)
    requires j + 1 < |sols|
  {
    Abs(sols[j].val.refVal) > TOL || Abs(sols[j + 1].val.refVal) > TOL
  }

  /** The crossover between `lower` (non-positive damping) and `upper`, under the velocity of the lower root. */
  function Entry(lower: Solution, upper: Solution, i: nat): Pair<Crossover>
    requires i < |lower.roots|
  {
    Pair(lower.roots[i].V, Crossover(lower, upper, i, None))
  }

  /** What the pair of solutions j, j + 1 contributes for mode i. */
  ghost function PairEntry(sols: Scan, n: nat, i: nat, j: nat): seq<Pair<Crossover>>
    requires IsScan(sols, n) && i < n && j + 1 < |sols|
  {
    if !AwayFromZero(sols, j) || Neglected(sols, i, n) then []
    else if G(sols, i, j) <= 0.0 < G(sols, i, j + 1) then [Entry(sols[j].val, sols[j + 1].val, i)]
    else if G(sols, i, j + 1) <= 0.0 < G(sols, i, j) then [Entry(sols[j + 1].val, sols[j].val, i)]
    else []
  }

  ghost function PairEntries(sols: Scan, n: nat, i: nat, k: nat): seq<Pair<Crossover>>
    requires IsScan(sols, n) && i < n && k < |sols|
  {
    if k == 0 then [] else PairEntries(sols, n, i, k - 1) + PairEntry(sols, n, i, k - 1)
  }

  /** A mode that is unstable at the first velocity; both ends are the first solution. */
  ghost function StartEntry(sols: Scan, n: nat, i: nat): seq<Pair<Crossover>>
    requires IsScan(sols, n) && i < n && |sols| > 1
  {
    if AwayFromZero(sols, 0) && !Neglected(sols, i, n) && G(sols, i, 0) > 0.0
    then [Entry(sols[0].val, sols[0].val, i)] else []
  }

  ghost function ModeEntries(sols: Scan, n: nat, i: nat): seq<Pair<Crossover>>
    requires IsScan(sols, n) && i < n && |sols| > 1
  {
    PairEntries(sols, n, i, |sols| - 1) + StartEntry(sols, n, i)
  }

  ghost function AllEntries(sols: Scan, n: nat, m: nat): seq<Pair<Crossover>>
    requires IsScan(sols, n) && m <= n && |sols| > 1
  {
    if m == 0 then [] else AllEntries(sols, n, m - 1) + ModeEntries(sols, n, m - 1)
  }

  /** Insertion of a list of entries, first to last. */
  function InsertAll<V>(cs: seq<Pair<V>>, es: seq<Pair<V>>): seq<Pair<V>> {
    if es == [] then cs else Insert(InsertAll(cs, es[..|es| - 1]), es[|es| - 1])
  }

  lemma {:induction false} InsertAllKeeps<V>(cs: seq<Pair<V>>, es: seq<Pair<V>>)
    requires Sorted(cs)
    ensures Sorted(InsertAll(cs, es)) && multiset(InsertAll(cs, es)) == multiset(cs) + multiset(es)
  {
    hide Insert, Sorted;
    if es != [] {
      var init, e := es[..|es| - 1], es[|es| - 1];
      InsertAllKeeps(cs, init);
      InsertKeepsOrder(InsertAll(cs, init), e);
      InsertAddsOne(InsertAll(cs, init), e);
      assert es == init + [e];
    }
  }

  lemma {:induction false} InsertAllHolds<V>(cs: seq<Pair<V>>, es: seq<Pair<V>>, e: Pair<V>)
    ensures e in InsertAll(cs, es) <==> e in cs || e in es
  {
    hide Insert;
    if es != [] {
      var init, x := es[..|es| - 1], es[|es| - 1];
      InsertAllHolds(cs, init, e);
      InsertAddsOne(InsertAll(cs, init), x);
      assert e in InsertAll(cs, es) <==> e in multiset(InsertAll(cs, es));
      assert es == init + [x];
    }
  }

  // ---------------------------------------------------------------------------------------------
  // Balance, soundness, completeness
  // ---------------------------------------------------------------------------------------------

  /** +1 for a crossover into instability with increasing velocity, or an unstable start; -1 for one out of it. */
  function Weight(c: Crossover): int {
    if c.lower.refVal <= c.upper.refVal then 1 else -1
  }

  function Balance(es: seq<Pair<Crossover>>): int {
    if es == [] then 0 else Balance(es[..|es| - 1]) + Weight(es[|es| - 1].val)
  }

  lemma {:induction false} BalanceConcat(a: seq<Pair<Crossover>>, b: seq<Pair<Crossover>>)
    ensures Balance(a + b) == Balance(a) + Balance(b)
    decreases |b|
  {
    if b == [] {
      assert a + b == a;
    } else {
      BalanceConcat(a, b[..|b| - 1]);
      assert (a + b)[..|a + b| - 1] == a + b[..|b| - 1];
    }
  }

  function UnstableAt(sols: Scan, i: nat, j: nat): int
    requires j < |sols| && i < |sols[j].val.roots|
  {
    if G(sols, i, j) > 0.0 then 1 else 0
  }

  lemma BalanceOne(e: Pair<Crossover>)
    ensures Balance([e]) == Weight(e.val)
  {
    assert [e][..0] == [];
  }

  lemma {:induction false} PairsTelescope(sols: Scan, n: nat, i: nat, k: nat)
    requires IsScan(sols, n) && i < n && k < |sols| && !Neglected(sols, i, n)
    requires forall j | 0 <= j && j + 1 < |sols| :: AwayFromZero(sols, j)
    ensures Balance(PairEntries(sols, n, i, k)) == UnstableAt(sols, i, k) - UnstableAt(sols, i, 0)
  {
    if k > 0 {
      PairsTelescope(sols, n, i, k - 1);
      assert AwayFromZero(sols, k - 1);
      BalanceConcat(PairEntries(sols, n, i, k - 1), PairEntry(sols, n, i, k - 1));
      assert sols[k - 1].key < sols[k].key;
      BalanceOne(Entry(sols[k - 1].val, sols[k].val, i));
      BalanceOne(Entry(sols[k].val, sols[k - 1].val, i));
      hide Neglected;
    }
  }

  /** For a mode that is not neglected, up-crossings plus an unstable start minus down-crossings equal one if the
      mode is unstable at the last velocity and zero otherwise. */
  lemma CrossoversBalance(sols: Scan, n: nat, i: nat)
    requires IsScan(sols, n) && i < n && |sols| > 1 && !Neglected(sols, i, n)
    requires forall j | 0 <= j && j + 1 < |sols| :: AwayFromZero(sols, j)
    ensures Balance(ModeEntries(sols, n, i)) == UnstableAt(sols, i, |sols| - 1)
  {
    hide Neglected;
    PairsTelescope(sols, n, i, |sols| - 1);
    assert AwayFromZero(sols, 0);
    BalanceConcat(PairEntries(sols, n, i, |sols| - 1), StartEntry(sols, n, i));
    BalanceOne(Entry(sols[0].val, sols[0].val, i));
  }

  /** Velocities more than 2e-5 apart are enough for every pair to be looked at. */
  lemma SpacingSuffices(sols: Scan, n: nat)
    requires IsScan(sols, n)
    requires forall j | 0 <= j && j + 1 < |sols| :: sols[j + 1].key - sols[j].key > 2.0 * TOL
    ensures forall j | 0 <= j && j + 1 < |sols| :: AwayFromZero(sols, j)
  {
  }

  /** A mode unstable at any scanned velocity has a crossover. */
  lemma {:induction false} UnstableModeIsDetected(sols: Scan, n: nat, i: nat, k: nat)
    requires IsScan(sols, n) && i < n && |sols| > 1 && k < |sols| && !Neglected(sols, i, n)
    requires forall j | 0 <= j && j + 1 < |sols| :: AwayFromZero(sols, j)
    requires G(sols, i, k) > 0.0
    ensures ModeEntries(sols, n, i) != []
  {
    hide Neglected;
    PairsTelescope(sols, n, i, k);
    assert AwayFromZero(sols, 0);
    if G(sols, i, 0) <= 0.0 {
      assert PairEntries(sols, n, i, k) != [];
      PairEntriesGrow(sols, n, i, k, |sols| - 1);
    }
  }

  lemma {:induction false} PairEntriesGrow(sols: Scan, n: nat, i: nat, k: nat, m: nat)
    requires IsScan(sols, n) && i < n && k <= m < |sols|
    ensures |PairEntries(sols, n, i, k)| <= |PairEntries(sols, n, i, m)|
    decreases m
  {
    if k < m {
      PairEntriesGrow(sols, n, i, k, m - 1);
      hide Neglected;
    }
  }

  /** The crossover comes from the pair of solutions j, j + 1 and mode i. */
  ghost predicate ComesFrom(sols: Scan, n: nat, i: nat, j: nat, e: Pair<Crossover>)
    requires IsScan(sols, n)
  {
    i < n && j + 1 < |sols| && PairEntry(sols, n, i, j) == [e]
  }

  /** Every crossover of a pair has its root number, its ends next to each other, non-positive damping at its
      first end, positive damping at its second, and is stored under the velocity of its first end's root. */
  lemma {:induction false} PairEntriesSound(sols: Scan, n: nat, i: nat, k: nat, a: nat)
    requires IsScan(sols, n) && i < n && k < |sols| && a < |PairEntries(sols, n, i, k)|
    ensures var e := PairEntries(sols, n, i, k)[a];
            && (exists j :: 0 <= j < k && ComesFrom(sols, n, i, j, e))
            && e.val.rootNum == i < |e.val.lower.roots| && i < |e.val.upper.roots| && e.val.root == None
            && Damping(e.val.lower.roots[i]) <= 0.0 < Damping(e.val.upper.roots[i])
            && e.key == e.val.lower.roots[i].V
  {
    hide Neglected;
    if a < |PairEntries(sols, n, i, k - 1)| {
      PairEntriesSound(sols, n, i, k - 1, a);
    } else {
      var e := PairEntries(sols, n, i, k)[a];
      assert ComesFrom(sols, n, i, k - 1, e);
    }
  }

  // ---------------------------------------------------------------------------------------------
  // When the detected crossovers can be searched without a failing insertion
  // ---------------------------------------------------------------------------------------------

  /** Checks on the scanned samples: no mode starts unstable, and no velocity interval has crossovers of two modes. */
  ghost predicate OneModePerInterval(sols: Scan, n: nat)
    requires IsScan(sols, n) && |sols| > 1
  {
    && (forall i | 0 <= i < n :: StartEntry(sols, n, i) == [])
    && (forall i: nat, i': nat, j: nat, e, e' | ComesFrom(sols, n, i, j, e) && ComesFrom(sols, n, i', j, e') ::
          i == i')
  }

  /** Besides, no crossover has zero damping at its first end. */
  ghost predicate Separated(sols: Scan, n: nat)
    requires IsScan(sols, n) && |sols| > 1
  {
    && OneModePerInterval(sols, n)
    && forall i: nat, j: nat, e | ComesFrom(sols, n, i, j, e) :: Damping(e.val.lower.roots[i]) < 0.0
  }

  /** Nothing is stored between neighbouring solutions. */
  lemma NothingBetween(sols: Scan, j: nat, c: Crossover)
    requires StrictlySorted(sols) && j + 1 < |sols|
    requires || (c.lower.refVal == sols[j].key && c.upper.refVal == sols[j + 1].key)
             || (c.lower.refVal == sols[j + 1].key && c.upper.refVal == sols[j].key)
    ensures forall v: real :: Between(v, c.lower.refVal, c.upper.refVal) <==> sols[j].key < v < sols[j + 1].key
    ensures c.lower.refVal != c.upper.refVal && HasKey(sols, c.lower.refVal) && SpanClear(c, sols)
  {
    assert sols[j].key < sols[j + 1].key;
    forall v: real | sols[j].key < v < sols[j + 1].key
      ensures !HasKey(sols, v)
    {
      forall m | 0 <= m < |sols|
        ensures sols[m].key != v
      {
        if m < j {
          assert sols[m].key < sols[j].key;
        } else if m > j + 1 {
          assert sols[j + 1].key < sols[m].key;
        }
      }
    }
  }

  lemma Intervals(sols: Scan, n: nat, i: nat, j: nat, e: Pair<Crossover>)
    requires IsScan(sols, n) && ComesFrom(sols, n, i, j, e)
    ensures forall v: real :: Between(v, e.val.lower.refVal, e.val.upper.refVal) <==> sols[j].key < v < sols[j + 1].key
    ensures e.val.lower.refVal != e.val.upper.refVal && HasKey(sols, e.val.lower.refVal) && SpanClear(e.val, sols)
  {
    hide Neglected;
    NothingBetween(sols, j, e.val);
  }

  lemma DifferentIntervals(sols: Scan, n: nat, i: nat, j: nat, e: Pair<Crossover>, i': nat, j': nat,
                           e': Pair<Crossover>)
    requires IsScan(sols, n) && ComesFrom(sols, n, i, j, e) && ComesFrom(sols, n, i', j', e') && j < j'
    ensures SpansDisjoint(e.val, e'.val) && SpansDisjoint(e'.val, e.val)
  {
    hide Neglected, PairEntry;
    Intervals(sols, n, i, j, e);
    Intervals(sols, n, i', j', e');
    assert sols[j + 1].key <= sols[j'].key;
  }

  ghost predicate ListDisjoint(es: seq<Pair<Crossover>>) {
    forall a, b | 0 <= a < b < |es| :: SpansDisjoint(es[a].val, es[b].val) && SpansDisjoint(es[b].val, es[a].val)
  }

  /** The entry comes from a mode before i, or from mode i and a pair before k. */
  ghost predicate EarlierEntry(sols: Scan, n: nat, i: nat, k: nat, e: Pair<Crossover>)
    requires IsScan(sols, n)
  {
    exists i': nat, j': nat :: ComesFrom(sols, n, i', j', e) && (i' < i || (i' == i && j' < k))
  }

  ghost predicate Earlier(sols: Scan, n: nat, i: nat, k: nat, es: seq<Pair<Crossover>>)
    requires IsScan(sols, n)
  {
    forall a | 0 <= a < |es| :: EarlierEntry(sols, n, i, k, es[a])
  }

  lemma EarlierStays(sols: Scan, n: nat, i: nat, k: nat, i2: nat, k2: nat, e: Pair<Crossover>)
    requires IsScan(sols, n) && EarlierEntry(sols, n, i, k, e) && (i < i2 || (i == i2 && k <= k2))
    ensures EarlierEntry(sols, n, i2, k2, e)
  {
    hide ComesFrom;
  }

  lemma {:induction false} EntriesDisjoint(sols: Scan, n: nat, i: nat, k: nat)
    requires IsScan(sols, n) && |sols| > 1 && OneModePerInterval(sols, n) && i < n && k < |sols|
    ensures var es := AllEntries(sols, n, i) + PairEntries(sols, n, i, k);
            ListDisjoint(es) && Earlier(sols, n, i, k, es)
    decreases i, k
  {
    hide Neglected, PairEntry;
    if k > 0 {
      EntriesDisjoint(sols, n, i, k - 1);
      var es := AllEntries(sols, n, i) + PairEntries(sols, n, i, k - 1);
      var one := PairEntry(sols, n, i, k - 1);
      AtMostOne(sols, n, i, k - 1);
      assert AllEntries(sols, n, i) + PairEntries(sols, n, i, k) == es + one;
      if one != [] {
        assert ComesFrom(sols, n, i, k - 1, one[0]);
        AppendDisjoint(sols, n, i, k - 1, es, one[0]);
      }
    } else if i > 0 {
      EntriesDisjoint(sols, n, i - 1, |sols| - 1);
      assert StartEntry(sols, n, i - 1) == [];
      assert AllEntries(sols, n, i) + PairEntries(sols, n, i, 0)
          == AllEntries(sols, n, i - 1) + PairEntries(sols, n, i - 1, |sols| - 1);
      var es := AllEntries(sols, n, i - 1) + PairEntries(sols, n, i - 1, |sols| - 1);
      forall a | 0 <= a < |es|
        ensures EarlierEntry(sols, n, i, 0, es[a])
      {
        EarlierStays(sols, n, i - 1, |sols| - 1, i, 0, es[a]);
      }
      hide EarlierEntry;
    }
  }

  lemma AtMostOne(sols: Scan, n: nat, i: nat, j: nat)
    requires IsScan(sols, n) && i < n && j + 1 < |sols|
    ensures |PairEntry(sols, n, i, j)| <= 1
  {
  }

  lemma AppendDisjoint(sols: Scan, n: nat, i: nat, k: nat, es: seq<Pair<Crossover>>, e: Pair<Crossover>)
    requires IsScan(sols, n) && |sols| > 1 && OneModePerInterval(sols, n)
    requires ListDisjoint(es) && Earlier(sols, n, i, k, es) && ComesFrom(sols, n, i, k, e)
    ensures ListDisjoint(es + [e]) && Earlier(sols, n, i, k + 1, es + [e])
  {
    hide Neglected, PairEntry, StartEntry, SpansDisjoint, ComesFrom;
    var r := es + [e];
    forall a | 0 <= a < |es|
      ensures SpansDisjoint(es[a].val, e.val) && SpansDisjoint(e.val, es[a].val)
      ensures EarlierEntry(sols, n, i, k + 1, es[a])
    {
      EarlierStays(sols, n, i, k, i, k + 1, es[a]);
      var i': nat, j': nat :| ComesFrom(sols, n, i', j', es[a]) && (i' < i || (i' == i && j' < k));
      assert j' != k;
      if j' < k {
        DifferentIntervals(sols, n, i', j', es[a], i, k, e);
      } else {
        DifferentIntervals(sols, n, i, k, e, i', j', es[a]);
      }
    }
    assert EarlierEntry(sols, n, i, k + 1, e);
    hide EarlierEntry, OneModePerInterval;
  }

  lemma InsertDisjoint(r: seq<Pair<Crossover>>, e: Pair<Crossover>)
    requires OwnSpansDisjoint(r)
    requires forall a | 0 <= a < |r| :: SpansDisjoint(r[a].val, e.val) && SpansDisjoint(e.val, r[a].val)
    ensures OwnSpansDisjoint(Insert(r, e))
  {
    hide UpperBound, SpansDisjoint;
    var p, t := UpperBound(r, e.key), Insert(r, e);
    assert forall a | 0 <= a < |t| && a != p :: t[a] == r[if a < p then a else a - 1];
  }

  lemma InsertedFrom<V>(es: seq<Pair<V>>, a: nat) returns (b: nat)
    requires a < |InsertAll([], es)|
    ensures b < |es| && InsertAll([], es)[a] == es[b]
  {
    InsertAllKeeps([], es);
    assert InsertAll([], es)[a] in multiset(InsertAll([], es));
    b :| 0 <= b < |es| && es[b] == InsertAll([], es)[a];
  }

  lemma {:induction false} InsertAllDisjoint(es: seq<Pair<Crossover>>)
    requires ListDisjoint(es)
    ensures OwnSpansDisjoint(InsertAll([], es))
  {
    hide SpansDisjoint, Insert;
    if es != [] {
      var init, e := es[..|es| - 1], es[|es| - 1];
      InsertAllDisjoint(init);
      var r := InsertAll([], init);
      forall a | 0 <= a < |r|
        ensures SpansDisjoint(r[a].val, e.val) && SpansDisjoint(e.val, r[a].val)
      {
        var b := InsertedFrom(init, a);
        assert init[b] == es[b];
      }
      InsertDisjoint(r, e);
    }
  }

  lemma PairEntryIs(env: Analysis, sols: Scan, n: nat, i: nat, j: nat, e: Pair<Crossover>)
    requires env.nRoots == n && forall r :: env.damping(r) == Damping(r)
    requires IsScan(sols, n) && |sols| > 1 && ComesFrom(sols, n, i, j, e)
    ensures WellFormed(env, e.val) && e.val.rootNum == i && e.val.root == None
    ensures e.val.lower.refVal != e.val.upper.refVal && HasKey(sols, e.val.lower.refVal) && SpanClear(e.val, sols)
  {
    hide Neglected;
    Intervals(sols, n, i, j, e);
    assert sols[j].key < sols[j + 1].key;
  }

  lemma NoStart(sols: Scan, n: nat, i: nat)
    requires IsScan(sols, n) && |sols| > 1 && OneModePerInterval(sols, n) && i < n
    ensures StartEntry(sols, n, i) == []
  {
    hide StartEntry;
  }

  ghost predicate FromPair(sols: Scan, n: nat, e: Pair<Crossover>)
    requires IsScan(sols, n)
  {
    exists i: nat, j: nat :: ComesFrom(sols, n, i, j, e)
  }

  /** The state a scan leaves when nothing was detected before. */
  ghost function ScanState(sols: Scan, n: nat): SearchState
    requires IsScan(sols, n) && |sols| > 1
  {
    SearchState(sols, InsertAll([], AllEntries(sols, n, n)), false)
  }

  /** Every detected crossover comes from a pair of samples. */
  lemma ScanEntries(sols: Scan, n: nat)
    requires n > 0 && IsScan(sols, n) && |sols| > 1 && OneModePerInterval(sols, n)
    ensures var r := ScanState(sols, n).crossovers;
            && Sorted(r) && OwnSpansDisjoint(r)
            && forall a | 0 <= a < |r| :: FromPair(sols, n, r[a])
  {
    hide Neglected, PairEntry, ComesFrom, SpansDisjoint, Insert, ListDisjoint, OneModePerInterval;
    var es := AllEntries(sols, n, n);
    EntriesDisjoint(sols, n, n - 1, |sols| - 1);
    NoStart(sols, n, n - 1);
    assert es == AllEntries(sols, n, n - 1) + PairEntries(sols, n, n - 1, |sols| - 1);
    InsertAllDisjoint(es);
    InsertAllKeeps([], es);
    var r := InsertAll([], es);
    forall a | 0 <= a < |r|
      ensures FromPair(sols, n, r[a])
    {
      var b := InsertedFrom(es, a);
      assert EarlierEntry(sols, n, n - 1, |sols| - 1, es[b]);
    }
  }

  /** The detected crossovers have intervals of their own. */
  lemma ScanHasOwnIntervals(env: Analysis, sols: Scan, n: nat)
    requires WellPosed(env) && env.nRoots == n && forall r :: env.damping(r) == Damping(r)
    requires IsScan(sols, n) && |sols| > 1 && OneModePerInterval(sols, n)
    ensures Valid(env, ScanState(sols, n)) && OwnIntervals(ScanState(sols, n))
  {
    hide ComesFrom, SpansDisjoint, SpanClear, OneModePerInterval, WellFormed, InsertAll, AllEntries, HasKey,
         OwnSpansDisjoint;
    ScanEntries(sols, n);
    var r := ScanState(sols, n).crossovers;
    forall a | 0 <= a < |r|
      ensures WellFormed(env, r[a].val) && SpanClear(r[a].val, sols)
      ensures r[a].val.lower.refVal != r[a].val.upper.refVal && HasKey(sols, r[a].val.lower.refVal)
    {
      var i: nat, j: nat :| ComesFrom(sols, n, i, j, r[a]);
      PairEntryIs(env, sols, n, i, j, r[a]);
    }
  }

  /** Separated samples give a state from which no run of searches ever fails an insertion. */
  lemma SeparatedScanIsSafe(env: Analysis, sols: Scan, n: nat)
    requires WellPosed(env) && env.nRoots == n && forall r :: env.damping(r) == Damping(r)
    requires IsScan(sols, n) && |sols| > 1 && Separated(sols, n)
    ensures Safe(env, ScanState(sols, n))
  {
    hide Neglected, PairEntry, ComesFrom, SpansDisjoint, SpanClear, OneModePerInterval, InsertAll, AllEntries, IsScan;
    ScanEntries(sols, n);
    ScanHasOwnIntervals(env, sols, n);
    var r := ScanState(sols, n).crossovers;
    forall a | 0 <= a < |r|
      ensures Proper(StartBracket(env, r[a].val)) && SpanClear(r[a].val, sols)
    {
      var i: nat, j: nat :| ComesFrom(sols, n, i, j, r[a]);
      PairEntryIs(env, sols, n, i, j, r[a]);
    }
  }

  ghost predicate ZeroPair(sols: Scan, n: nat, i: nat, j: nat, e: Pair<Crossover>)
    requires IsScan(sols, n)
  {
    ComesFrom(sols, n, i, j, e) && Damping(e.val.lower.roots[i]) == 0.0
  }

  /** Some crossover of the samples has damping exactly zero at its first end. */
  ghost predicate ZeroAtSomeEnd(sols: Scan, n: nat)
    requires IsScan(sols, n)
  {
    exists i: nat, j: nat, e :: ZeroPair(sols, n, i, j, e)
  }

  /** On samples with one crossover per interval, a run that evaluates every detected crossover, with any tolerances,
      fails an insertion if and only if one of them has damping exactly zero at its first end. */
  lemma OneModeScanFailsExactly(env: Analysis, sols: Scan, n: nat, calls: seq<Call>)
    requires WellPosed(env) && env.nRoots == n && forall r :: env.damping(r) == Damping(r)
    requires IsScan(sols, n) && |sols| > 1 && OneModePerInterval(sols, n) && forall c | c in calls :: Legal(c)
    ensures Valid(env, ScanState(sols, n))
    ensures Unevaluated(Run(env, ScanState(sols, n), calls).crossovers) == 0 ==>
              (Run(env, ScanState(sols, n), calls).assertFailed <==> ZeroAtSomeEnd(sols, n))
  {
    hide Neglected, PairEntry, ComesFrom, OneModePerInterval, InsertAll, AllEntries, IsScan, Run, Valid, OwnIntervals;
    ScanEntries(sols, n);
    ScanHasOwnIntervals(env, sols, n);
    CompleteRunFailsExactly(env, ScanState(sols, n), calls);
    var r := ScanState(sols, n).crossovers;
    if SomeZeroBelow(env, r) {
      var a :| 0 <= a < |r| && ZeroBelow(env, r[a].val);
      var i: nat, j: nat :| ComesFrom(sols, n, i, j, r[a]);
      PairEntryIs(env, sols, n, i, j, r[a]);
      assert ZeroPair(sols, n, i, j, r[a]);
    }
    if ZeroAtSomeEnd(sols, n) {
      var i: nat, j: nat, e :| ZeroPair(sols, n, i, j, e);
      PairEntryIs(env, sols, n, i, j, e);
      var a := ListedAt(sols, n, i, j, e);
      assert ZeroBelow(env, r[a].val);
    }
  }

  lemma {:induction false} PairIsListed(sols: Scan, n: nat, i: nat, j: nat, e: Pair<Crossover>, k: nat)
    requires IsScan(sols, n) && ComesFrom(sols, n, i, j, e) && j < k < |sols|
    ensures e in PairEntries(sols, n, i, k)
  {
    hide Neglected;
    if j < k - 1 {
      PairIsListed(sols, n, i, j, e, k - 1);
    }
  }

  lemma {:induction false} ModeIsListed(sols: Scan, n: nat, i: nat, m: nat, e: Pair<Crossover>)
    requires IsScan(sols, n) && |sols| > 1 && i < m <= n && e in PairEntries(sols, n, i, |sols| - 1)
    ensures e in AllEntries(sols, n, m)
  {
    hide PairEntries, Neglected;
    if i < m - 1 {
      ModeIsListed(sols, n, i, m - 1, e);
    }
  }

  lemma ListedAt(sols: Scan, n: nat, i: nat, j: nat, e: Pair<Crossover>) returns (a: nat)
    requires IsScan(sols, n) && |sols| > 1 && ComesFrom(sols, n, i, j, e)
    ensures a < |InsertAll([], AllEntries(sols, n, n))| && InsertAll([], AllEntries(sols, n, n))[a] == e
  {
    hide Neglected, PairEntry, PairEntries, Insert;
    PairIsListed(sols, n, i, j, e, |sols| - 1);
    ModeIsListed(sols, n, i, n, e);
    var es := AllEntries(sols, n, n);
    InsertAllKeeps([], es);
    assert e in multiset(es) && e in multiset(InsertAll([], es));
    a :| 0 <= a < |InsertAll([], es)| && InsertAll([], es)[a] == e;
  }

  // ---------------------------------------------------------------------------------------------
  // When the detected crossovers can be searched at all
  // ---------------------------------------------------------------------------------------------

  lemma PairEntriesFromPairs(sols: Scan, n: nat, i: nat)
    requires IsScan(sols, n) && i < n && |sols| > 1
    ensures forall e <- PairEntries(sols, n, i, |sols| - 1) :: FromPair(sols, n, e)
  {
    hide PairEntries, ComesFrom, Neglected;
    var es := PairEntries(sols, n, i, |sols| - 1);
    forall e | e in es
      ensures FromPair(sols, n, e)
    {
      var a :| 0 <= a < |es| && es[a] == e;
      PairEntriesSound(sols, n, i, |sols| - 1, a);
      var j: nat :| j < |sols| - 1 && ComesFrom(sols, n, i, j, e);
    }
  }

  lemma {:induction false} AllEntriesFromPairs(sols: Scan, n: nat, m: nat)
    requires IsScan(sols, n) && m <= n && |sols| > 1 && forall i | 0 <= i < m :: StartEntry(sols, n, i) == []
    ensures forall e <- AllEntries(sols, n, m) :: FromPair(sols, n, e)
  {
    hide PairEntries, StartEntry, FromPair, Neglected;
    if m > 0 {
      AllEntriesFromPairs(sols, n, m - 1);
      PairEntriesFromPairs(sols, n, m - 1);
      assert StartEntry(sols, n, m - 1) == [];
    }
  }

  lemma FromPairIsWellFormed(env: Analysis, sols: Scan, n: nat, e: Pair<Crossover>)
    requires env.nRoots == n && forall r :: env.damping(r) == Damping(r)
    requires IsScan(sols, n) && FromPair(sols, n, e)
    ensures WellFormed(env, e.val) && e.val.root == None
  {
    hide Neglected;
    var i: nat, j: nat :| ComesFrom(sols, n, i, j, e);
    assert PairEntry(sols, n, i, j)[0] == e;
  }

  lemma {:induction false} StartEntryIsListed(sols: Scan, n: nat, m: nat, i: nat)
    requires IsScan(sols, n) && i < m <= n && |sols| > 1
    ensures forall e <- StartEntry(sols, n, i) :: e in AllEntries(sols, n, m)
  {
    hide PairEntries, StartEntry, Neglected;
    if i < m - 1 {
      StartEntryIsListed(sols, n, m - 1, i);
    }
  }

  lemma StartEntryIsNotSearchable(env: Analysis, sols: Scan, n: nat, i: nat, e: Pair<Crossover>)
    requires env.nRoots == n && forall r :: env.damping(r) == Damping(r)
    requires IsScan(sols, n) && |sols| > 1 && i < n && StartEntry(sols, n, i) == [e]
    ensures !WellFormed(env, e.val)
  {
    hide Neglected;
  }

  lemma {:induction false} NoRootsYet(cs: seq<Pair<Crossover>>)
    requires forall e <- cs :: e.val.root == None
    ensures FoundRoots(cs) == []
  {
    if cs != [] {
      NoRootsYet(cs[..|cs| - 1]);
      assert cs[|cs| - 1] in cs;
    }
  }

  /** A scan leaves a state in which the searches are defined if and only if no mode that is not neglected starts
      unstable; then nothing is evaluated yet. */
  lemma ScanIsSearchable(env: Analysis, sols: Scan, n: nat, failed: bool)
    requires WellPosed(env) && env.nRoots == n && forall r :: env.damping(r) == Damping(r)
    requires IsScan(sols, n) && |sols| > 1
    ensures var cs := InsertAll([], AllEntries(sols, n, n));
      && (Valid(env, SearchState(sols, cs, failed)) <==> forall i: nat | i < n :: StartEntry(sols, n, i) == [])
      && ((forall i: nat | i < n :: StartEntry(sols, n, i) == []) ==> KeyedByRoot(cs) && Unevaluated(cs) == |cs|)
  {
    hide AllEntries, StartEntry, FromPair, Insert, InsertAll, WellFormed, FoundRoots, Neglected;
    var es := AllEntries(sols, n, n);
    var cs := InsertAll([], es);
    InsertAllKeeps([], es);
    assert forall e <- cs :: e in multiset(cs);
    if forall i: nat | i < n :: StartEntry(sols, n, i) == [] {
      AllEntriesFromPairs(sols, n, n);
      forall e | e in cs
        ensures WellFormed(env, e.val) && e.val.root == None
      {
        assert e in multiset(es);
        FromPairIsWellFormed(env, sols, n, e);
      }
      NoRootsYet(cs);
    } else {
      var i: nat :| i < n && StartEntry(sols, n, i) != [];
      var e := StartEntry(sols, n, i)[0];
      StartEntryAlone(sols, n, i);
      StartEntryIsListed(sols, n, n, i);
      assert StartEntry(sols, n, i) == [e];
      StartEntryIsNotSearchable(env, sols, n, i, e);
      assert e in es;
      assert e in multiset(es) && e in multiset(cs);
    }
  }

  lemma StartEntryAlone(sols: Scan, n: nat, i: nat)
    requires IsScan(sols, n) && |sols| > 1 && i < n
    ensures |StartEntry(sols, n, i)| <= 1
  {
    hide Neglected;
  }

  // ---------------------------------------------------------------------------------------------
  // What is detected, read off the samples
  // ---------------------------------------------------------------------------------------------

  /** Some sample of mode i has a damping of modulus 1e-5 or more, and some a frequency that is not negative. */
  ghost predicate Counts(sols: Scan, i: nat) {
    && (exists s <- sols ::
          i < |s.val.roots| && (s.val.roots[i].root.re >= 0.00001 || s.val.roots[i].root.re <= -0.00001))
    && (exists s <- sols :: i < |s.val.roots| && s.val.roots[i].root.im >= 0.0)
  }

  /** The crossover joins two samples of mode i, one of them away from zero velocity: the first end has no positive
      damping and the second has, or both ends are an unstable first sample. */
  ghost predicate Crosses(i: nat, first: Solution, second: Solution, atStart: bool, e: Pair<Crossover>) {
    && i < |first.roots| && i < |second.roots|
    && (Abs(first.refVal) > 0.00001 || Abs(second.refVal) > 0.00001)
    && e.val.rootNum == i && e.val.root == None
    && (|| (e.val.lower == first && e.val.upper == second
            && first.roots[i].root.re <= 0.0 < second.roots[i].root.re && e.key == first.roots[i].V)
        || (e.val.lower == second && e.val.upper == first
            && second.roots[i].root.re <= 0.0 < first.roots[i].root.re && e.key == second.roots[i].V)
        || (atStart && e.val.lower == e.val.upper == first
            && first.roots[i].root.re > 0.0 && e.key == first.roots[i].V))
  }

  /** The crossover belongs to mode i and the neighbouring samples j, j + 1. */
  ghost predicate Detectable(sols: Scan, i: nat, j: nat, e: Pair<Crossover>) {
    Counts(sols, i) && j + 1 < |sols| && Crosses(i, sols[j].val, sols[j + 1].val, j == 0, e)
  }

  lemma CountsUnlessNeglected(sols: Scan, n: nat, i: nat)
    requires IsScan(sols, n) && i < n
    ensures Counts(sols, i) <==> !Neglected(sols, i, n)
  {
    if Counts(sols, i) {
      var s :| s in sols && (s.val.roots[i].root.re >= 0.00001 || s.val.roots[i].root.re <= -0.00001);
      var j :| 0 <= j < |sols| && sols[j] == s;
      assert Abs(G(sols, i, j)) >= TOL;
      var t :| t in sols && t.val.roots[i].root.im >= 0.0;
      var k :| 0 <= k < |sols| && sols[k] == t;
    }
    if !Neglected(sols, i, n) {
      var j :| 0 <= j < |sols| && Abs(G(sols, i, j)) >= TOL;
      var k :| 0 <= k < |sols| && sols[k].val.roots[i].root.im >= 0.0;
      assert sols[j] in sols && sols[k] in sols;
    }
  }

  lemma PairEntryMeaning(sols: Scan, n: nat, i: nat, j: nat, e: Pair<Crossover>)
    requires IsScan(sols, n) && i < n && j + 1 < |sols|
    ensures e in PairEntry(sols, n, i, j)
       <==> Counts(sols, i) && Crosses(i, sols[j].val, sols[j + 1].val, false, e)
  {
    CountsUnlessNeglected(sols, n, i);
    hide Neglected, Counts;
  }

  lemma StartEntryMeaning(sols: Scan, n: nat, i: nat, e: Pair<Crossover>)
    requires IsScan(sols, n) && i < n && |sols| > 1
    ensures e in PairEntry(sols, n, i, 0) || e in StartEntry(sols, n, i)
       <==> Counts(sols, i) && Crosses(i, sols[0].val, sols[1].val, true, e)
  {
    CountsUnlessNeglected(sols, n, i);
    hide Neglected, Counts;
  }

  lemma {:induction false} PairEntriesMembers(sols: Scan, n: nat, i: nat, k: nat, e: Pair<Crossover>)
    requires IsScan(sols, n) && i < n && k < |sols|
    ensures e in PairEntries(sols, n, i, k) <==> exists j: nat :: j < k && e in PairEntry(sols, n, i, j)
  {
    hide PairEntry;
    if k > 0 {
      PairEntriesMembers(sols, n, i, k - 1, e);
    }
  }

  lemma {:induction false} AllEntriesMembers(sols: Scan, n: nat, m: nat, e: Pair<Crossover>)
    requires IsScan(sols, n) && |sols| > 1 && m <= n
    ensures e in AllEntries(sols, n, m) <==> exists i: nat :: i < m && e in ModeEntries(sols, n, i)
  {
    hide ModeEntries;
    if m > 0 {
      AllEntriesMembers(sols, n, m - 1, e);
    }
  }

  lemma ModeEntriesMembers(sols: Scan, n: nat, i: nat, e: Pair<Crossover>)
    requires IsScan(sols, n) && i < n && |sols| > 1
    ensures e in ModeEntries(sols, n, i) <==> exists j: nat :: Detectable(sols, i, j, e)
  {
    PairEntriesMembers(sols, n, i, |sols| - 1, e);
    StartEntryMeaning(sols, n, i, e);
    hide PairEntry, StartEntry, PairEntries, Counts, Crosses, IsScan;
    if e in ModeEntries(sols, n, i) {
      if j: nat :| j < |sols| - 1 && e in PairEntry(sols, n, i, j) {
        PairEntryMeaning(sols, n, i, j, e);
        PairIsAny(i, sols[j].val, sols[j + 1].val, j == 0, e);
        assert Detectable(sols, i, j, e);
      } else {
        assert Detectable(sols, i, 0, e);
      }
    }
    if j: nat :| Detectable(sols, i, j, e) {
      PairEntryMeaning(sols, n, i, j, e);
    }
  }

  lemma PairIsAny(i: nat, first: Solution, second: Solution, atStart: bool, e: Pair<Crossover>)
    requires Crosses(i, first, second, false, e)
    ensures Crosses(i, first, second, atStart, e)
  {
  }

  /** Exactly the sign changes between neighbouring samples, and the unstable first samples, of the modes that count are
      detected. */
  lemma DetectedExactly(sols: Scan, n: nat, e: Pair<Crossover>)
    requires IsScan(sols, n) && |sols| > 1
    ensures e in AllEntries(sols, n, n) <==> exists i: nat, j: nat :: Detectable(sols, i, j, e)
  {
    hide ModeEntries, Detectable, AllEntries;
    AllEntriesMembers(sols, n, n, e);
    forall i: nat | i < n
      ensures e in ModeEntries(sols, n, i) <==> exists j: nat :: Detectable(sols, i, j, e)
    {
      ModeEntriesMembers(sols, n, i, e);
    }
    if e in AllEntries(sols, n, n) {
      var i: nat :| i < n && e in ModeEntries(sols, n, i);
      var j: nat :| Detectable(sols, i, j, e);
    }
    if i: nat, j: nat :| Detectable(sols, i, j, e) {
      DetectableInRange(sols, n, i, j, e);
      assert e in ModeEntries(sols, n, i);
    }
  }

  lemma DetectableInRange(sols: Scan, n: nat, i: nat, j: nat, e: Pair<Crossover>)
    requires IsScan(sols, n) && Detectable(sols, i, j, e)
    ensures i < n
  {
  }
}
