/** Exactly when a run of searches over detected crossovers fails an insertion, stated on the entries detected and, for
    the time-domain solver, on the scanned samples. */
module ScanFailures {
  import opened ComplexAlgebra
  import opened OrderedContainers
  import opened FlutterRoots
  import opened CrossoverSearch
  import opened CompleteRuns
  import opened CrossoverDetection

  // ---------------------------------------------------------------------------------------------
  // Lists of entries
  // ---------------------------------------------------------------------------------------------

  ghost predicate SharesWithSome(env: Analysis, cs: seq<Pair<Crossover>>, e: Pair<Crossover>, gTol: real, iters: nat) {
    exists x :: x in cs && Shares(Planned(env, x.val, gTol, iters), Planned(env, e.val, gTol, iters))
  }

  lemma InsertShares(env: Analysis, r: seq<Pair<Crossover>>, e: Pair<Crossover>, gTol: real, iters: nat)
    ensures SomeShare(env, Insert(r, e), gTol, iters)
       <==> SomeShare(env, r, gTol, iters) || SharesWithSome(env, r, e, gTol, iters)
  {
    hide UpperBound, Planned;
    var p, t := UpperBound(r, e.key), Insert(r, e);
    if SomeShare(env, r, gTol, iters) {
      var a, b :| 0 <= a < |r| && 0 <= b < |r| && a != b
                  && Shares(Planned(env, r[a].val, gTol, iters), Planned(env, r[b].val, gTol, iters));
      var a', b' := if a < p then a else a + 1, if b < p then b else b + 1;
      assert t[a'] == r[a] && t[b'] == r[b];
    } else if SharesWithSome(env, r, e, gTol, iters) {
      var x :| x in r && Shares(Planned(env, x.val, gTol, iters), Planned(env, e.val, gTol, iters));
      var a :| 0 <= a < |r| && r[a] == x;
      assert t[if a < p then a else a + 1] == x && t[p] == e;
    } else if SomeShare(env, t, gTol, iters) {
      InsertedShare(env, r, e, gTol, iters);
    }
  }

  lemma InsertedShare(env: Analysis, r: seq<Pair<Crossover>>, e: Pair<Crossover>, gTol: real, iters: nat)
    requires SomeShare(env, Insert(r, e), gTol, iters)
    ensures SomeShare(env, r, gTol, iters) || SharesWithSome(env, r, e, gTol, iters)
  {
    hide UpperBound, Planned;
    var p, t := UpperBound(r, e.key), Insert(r, e);
    var a, b :| 0 <= a < |t| && 0 <= b < |t| && a != b
                && Shares(Planned(env, t[a].val, gTol, iters), Planned(env, t[b].val, gTol, iters));
    var a', b' := if a < p then a else a - 1, if b < p then b else b - 1;
    if a == p {
      assert r[b'] == t[b] && r[b'] in r;
    } else if b == p {
      assert r[a'] == t[a] && r[a'] in r;
    } else {
      assert r[a'] == t[a] && r[b'] == t[b];
    }
  }

  lemma AppendShares(env: Analysis, r: seq<Pair<Crossover>>, e: Pair<Crossover>, gTol: real, iters: nat)
    ensures SomeShare(env, r + [e], gTol, iters)
       <==> SomeShare(env, r, gTol, iters) || SharesWithSome(env, r, e, gTol, iters)
  {
    hide Planned;
    var t := r + [e];
    if SomeShare(env, r, gTol, iters) {
      var a, b :| 0 <= a < |r| && 0 <= b < |r| && a != b
                  && Shares(Planned(env, r[a].val, gTol, iters), Planned(env, r[b].val, gTol, iters));
      assert t[a] == r[a] && t[b] == r[b];
    } else if SharesWithSome(env, r, e, gTol, iters) {
      var x :| x in r && Shares(Planned(env, x.val, gTol, iters), Planned(env, e.val, gTol, iters));
      var a :| 0 <= a < |r| && r[a] == x;
      assert t[a] == x && t[|r|] == e;
    } else if SomeShare(env, t, gTol, iters) {
      AppendedShare(env, r, e, gTol, iters);
    }
  }

  lemma AppendedShare(env: Analysis, r: seq<Pair<Crossover>>, e: Pair<Crossover>, gTol: real, iters: nat)
    requires SomeShare(env, r + [e], gTol, iters)
    ensures SomeShare(env, r, gTol, iters) || SharesWithSome(env, r, e, gTol, iters)
  {
    hide Planned;
    var t := r + [e];
    var a, b :| 0 <= a < |t| && 0 <= b < |t| && a != b
                && Shares(Planned(env, t[a].val, gTol, iters), Planned(env, t[b].val, gTol, iters));
    assert a < |r| ==> t[a] == r[a] && r[a] in r;
    assert b < |r| ==> t[b] == r[b] && r[b] in r;
  }

  /** Sorting the entries into the container does not change whether two of them meet. */
  lemma {:induction false} InsertAllShares(env: Analysis, es: seq<Pair<Crossover>>, gTol: real, iters: nat)
    ensures SomeShare(env, InsertAll([], es), gTol, iters) <==> SomeShare(env, es, gTol, iters)
  {
    hide Insert, SomeShare, Planned, Shares;
    if es != [] {
      var init, e := es[..|es| - 1], es[|es| - 1];
      assert es == init + [e];
      InsertAllShares(env, init, gTol, iters);
      InsertShares(env, InsertAll([], init), e, gTol, iters);
      AppendShares(env, init, e, gTol, iters);
      InsertAllMembers(init);
    }
  }

  lemma InsertAllMembers<V>(es: seq<Pair<V>>)
    ensures forall x :: x in InsertAll([], es) <==> x in es
  {
    hide InsertAll;
    InsertAllKeeps([], es);
    forall x
      ensures x in InsertAll([], es) <==> x in es
    {
      assert x in multiset(InsertAll([], es)) <==> x in multiset(es);
    }
  }

  /** An entry that can be searched: evaluated already, or between neighbouring stored solutions. */
  ghost predicate Searchable(env: Analysis, sols: Scan, c: Crossover) {
    && WellFormed(env, c)
    && (c.root.None? ==>
          c.lower.refVal != c.upper.refVal && HasKey(sols, c.lower.refVal) && SpanClear(c, sols))
  }

  /** For any list of such entries sorted into the container: a run that evaluates all of them fails an insertion if and
      only if some lower damping is exactly zero or two of them are to be analysed at one value. */
  lemma ListRunFailsExactly(env: Analysis, sols: Scan, es: seq<Pair<Crossover>>, calls: seq<Call>, gTol: real,
                            iters: nat)
    requires WellPosed(env) && StrictlySorted(sols) && Uniform(calls, gTol, iters)
    requires forall e <- es :: Searchable(env, sols, e.val)
    ensures var s := SearchState(sols, InsertAll([], es), false);
            && Valid(env, s)
            && (Unevaluated(Run(env, s, calls).crossovers) == 0 ==>
                  (Run(env, s, calls).assertFailed
                   <==> SomeZeroBelow(env, es) || SomeShare(env, es, gTol, iters)))
  {
    hide InsertAll, WellFormed, SpanClear, HasKey, Run, SomeShare, ZeroBelow;
    var s := SearchState(sols, InsertAll([], es), false);
    InsertAllKeeps([], es);
    InsertAllMembers(es);
    assert forall i | 0 <= i < |s.crossovers| :: s.crossovers[i] in s.crossovers;
    assert Valid(env, s) && BetweenNeighbours(s.crossovers, sols);
    hide Valid, BetweenNeighbours;
    NeighboursRunFailsExactly(env, s, calls, gTol, iters);
    InsertAllShares(env, es, gTol, iters);
    SameZeros(env, s.crossovers, es);
  }

  lemma SameZeros(env: Analysis, cs: seq<Pair<Crossover>>, es: seq<Pair<Crossover>>)
    requires forall x :: x in cs <==> x in es
    ensures SomeZeroBelow(env, cs) <==> SomeZeroBelow(env, es)
  {
    hide ZeroBelow;
    if SomeZeroBelow(env, cs) {
      var i :| 0 <= i < |cs| && ZeroBelow(env, cs[i].val);
      assert cs[i] in cs;
      var k :| 0 <= k < |es| && es[k] == cs[i];
    }
    if SomeZeroBelow(env, es) {
      var i :| 0 <= i < |es| && ZeroBelow(env, es[i].val);
      assert es[i] in es;
      var k :| 0 <= k < |cs| && cs[k] == es[i];
    }
  }

  // ---------------------------------------------------------------------------------------------
  // The samples of the time-domain solver
  // ---------------------------------------------------------------------------------------------

  /** Two modes that cross between the same neighbouring samples are to be analysed at one velocity. */
  ghost predicate SharePair(env: Analysis, sols: Scan, n: nat, i: nat, i': nat, j: nat, e: Pair<Crossover>,
                            e': Pair<Crossover>, gTol: real, iters: nat)
    requires IsScan(sols, n)
  {
    && i != i' && ComesFrom(sols, n, i, j, e) && ComesFrom(sols, n, i', j, e')
    && Shares(Planned(env, e.val, gTol, iters), Planned(env, e'.val, gTol, iters))
  }

  ghost predicate ShareAtSomePair(env: Analysis, sols: Scan, n: nat, gTol: real, iters: nat)
    requires IsScan(sols, n)
  {
    exists i: nat, i': nat, j: nat, e, e' :: SharePair(env, sols, n, i, i', j, e, e', gTol, iters)
  }

  lemma KeysAscend(sols: Scan, j: nat, k: nat)
    requires StrictlySorted(sols) && j + 1 < |sols| && k + 1 < |sols|
    ensures j < k ==> sols[j].key < sols[k].key && sols[j + 1].key <= sols[k].key
  {
  }

  /** The entry from mode i and pair j is not one from an earlier pair or mode. */
  lemma EntriesDiffer(sols: Scan, n: nat, i: nat, j: nat, e: Pair<Crossover>, i': nat, j': nat, e': Pair<Crossover>)
    requires IsScan(sols, n) && ComesFrom(sols, n, i, j, e) && ComesFrom(sols, n, i', j', e') && e == e'
    ensures i == i' && j == j'
  {
    hide Neglected;
    assert PairEntry(sols, n, i, j)[0] == e && PairEntry(sols, n, i', j')[0] == e';
    assert sols[j].key < sols[j + 1].key && sols[j'].key < sols[j' + 1].key;
    KeysAscend(sols, j, j');
    KeysAscend(sols, j', j);
  }

  ghost predicate AllDifferent(es: seq<Pair<Crossover>>) {
    forall a, b | 0 <= a < b < |es| :: es[a] != es[b]
  }

  lemma {:induction false} EntriesAllDiffer(sols: Scan, n: nat, i: nat, k: nat)
    requires IsScan(sols, n) && |sols| > 1 && i < n && k < |sols|
    requires forall i: nat | i < n :: StartEntry(sols, n, i) == []
    ensures var es := AllEntries(sols, n, i) + PairEntries(sols, n, i, k);
            AllDifferent(es) && Earlier(sols, n, i, k, es)
    decreases i, k
  {
    hide Neglected, PairEntry, StartEntry;
    if k > 0 {
      EntriesAllDiffer(sols, n, i, k - 1);
      var es := AllEntries(sols, n, i) + PairEntries(sols, n, i, k - 1);
      var one := PairEntry(sols, n, i, k - 1);
      AtMostOne(sols, n, i, k - 1);
      assert AllEntries(sols, n, i) + PairEntries(sols, n, i, k) == es + one;
      hide AllEntries, PairEntries;
      if one != [] {
        assert one == [one[0]] && ComesFrom(sols, n, i, k - 1, one[0]);
        AppendDiffers(sols, n, i, k - 1, es, one[0]);
      } else {
        assert es + one == es;
        EarlierGrows(sols, n, i, k - 1, i, k, es);
      }
    } else if i > 0 {
      EntriesAllDiffer(sols, n, i - 1, |sols| - 1);
      assert StartEntry(sols, n, i - 1) == [];
      var es := AllEntries(sols, n, i - 1) + PairEntries(sols, n, i - 1, |sols| - 1);
      assert AllEntries(sols, n, i) + PairEntries(sols, n, i, 0) == es;
      hide AllEntries, PairEntries;
      EarlierGrows(sols, n, i - 1, |sols| - 1, i, 0, es);
    }
  }

  lemma EarlierGrows(sols: Scan, n: nat, i: nat, k: nat, i2: nat, k2: nat, es: seq<Pair<Crossover>>)
    requires IsScan(sols, n) && Earlier(sols, n, i, k, es) && (i < i2 || (i == i2 && k <= k2))
    ensures Earlier(sols, n, i2, k2, es)
  {
    hide EarlierEntry, IsScan;
    forall a | 0 <= a < |es|
      ensures EarlierEntry(sols, n, i2, k2, es[a])
    {
      EarlierStays(sols, n, i, k, i2, k2, es[a]);
    }
  }

  lemma AppendDiffers(sols: Scan, n: nat, i: nat, k: nat, es: seq<Pair<Crossover>>, e: Pair<Crossover>)
    requires IsScan(sols, n) && AllDifferent(es) && Earlier(sols, n, i, k, es) && ComesFrom(sols, n, i, k, e)
    ensures AllDifferent(es + [e]) && Earlier(sols, n, i, k + 1, es + [e])
  {
    hide ComesFrom, IsScan;
    forall a | 0 <= a < |es|
      ensures es[a] != e && EarlierEntry(sols, n, i, k + 1, es[a])
    {
      EarlierStays(sols, n, i, k, i, k + 1, es[a]);
      var i': nat, j': nat :| ComesFrom(sols, n, i', j', es[a]) && (i' < i || (i' == i && j' < k));
      if es[a] == e {
        EntriesDiffer(sols, n, i', j', es[a], i, k, e);
      }
    }
    assert EarlierEntry(sols, n, i, k + 1, e);
  }

  /** On the entries of a scan, a clash is a zero damping at a first end or one velocity for two modes between the same
      samples. */
  lemma ScanClashes(env: Analysis, sols: Scan, n: nat, gTol: real, iters: nat)
    requires env.nRoots == n && n > 0 && forall r :: env.damping(r) == Damping(r)
    requires IsScan(sols, n) && |sols| > 1 && forall i: nat | i < n :: StartEntry(sols, n, i) == []
    ensures var es := AllEntries(sols, n, n);
            && (SomeZeroBelow(env, es) <==> ZeroAtSomeEnd(sols, n))
            && (ShareAtSomePair(env, sols, n, gTol, iters) ==> SomeShare(env, es, gTol, iters))
            && (SomeShare(env, es, gTol, iters) ==>
                  ZeroAtSomeEnd(sols, n) || ShareAtSomePair(env, sols, n, gTol, iters))
  {
    hide Neglected, PairEntry, ComesFrom, AllEntries, IsScan, StartEntry, Planned, Shares, SomeShare;
    var es := AllEntries(sols, n, n);
    AllEntriesFromPairs(sols, n, n);
    ScanZeros(env, sols, n);
    if ShareAtSomePair(env, sols, n, gTol, iters) {
      var i: nat, i': nat, j: nat, e, e' :| SharePair(env, sols, n, i, i', j, e, e', gTol, iters);
      PairIsInList(sols, n, i, j, e);
      PairIsInList(sols, n, i', j, e');
      if e == e' {
        EntriesDiffer(sols, n, i, j, e, i', j, e');
      }
      TwoMembersShare(env, es, e, e', gTol, iters);
    }
    if SomeShare(env, es, gTol, iters) && !ZeroAtSomeEnd(sols, n) {
      SharesAtPair(env, sols, n, gTol, iters);
    }
  }

  lemma TwoMembersShare(env: Analysis, es: seq<Pair<Crossover>>, e: Pair<Crossover>, e': Pair<Crossover>, gTol: real,
                        iters: nat)
    requires e in es && e' in es && e != e'
    requires Shares(Planned(env, e.val, gTol, iters), Planned(env, e'.val, gTol, iters))
    ensures SomeShare(env, es, gTol, iters)
  {
    hide Planned, Shares;
    var a :| 0 <= a < |es| && es[a] == e;
    var b :| 0 <= b < |es| && es[b] == e';
  }

  lemma PairIsInList(sols: Scan, n: nat, i: nat, j: nat, e: Pair<Crossover>)
    requires IsScan(sols, n) && |sols| > 1 && ComesFrom(sols, n, i, j, e)
    ensures e in AllEntries(sols, n, n)
  {
    hide Neglected, PairEntry, PairEntries;
    PairIsListed(sols, n, i, j, e, |sols| - 1);
    ModeIsListed(sols, n, i, n, e);
  }

  lemma ScanZeros(env: Analysis, sols: Scan, n: nat)
    requires env.nRoots == n && forall r :: env.damping(r) == Damping(r)
    requires IsScan(sols, n) && |sols| > 1 && forall e <- AllEntries(sols, n, n) :: FromPair(sols, n, e)
    ensures SomeZeroBelow(env, AllEntries(sols, n, n)) <==> ZeroAtSomeEnd(sols, n)
  {
    hide Neglected, PairEntry, ComesFrom, AllEntries, IsScan;
    var es := AllEntries(sols, n, n);
    if SomeZeroBelow(env, es) {
      var a :| 0 <= a < |es| && ZeroBelow(env, es[a].val);
      assert es[a] in es;
      var i: nat, j: nat :| ComesFrom(sols, n, i, j, es[a]);
      PairEntryIs(env, sols, n, i, j, es[a]);
      assert ZeroPair(sols, n, i, j, es[a]);
    }
    if ZeroAtSomeEnd(sols, n) {
      var i: nat, j: nat, e :| ZeroPair(sols, n, i, j, e);
      PairEntryIs(env, sols, n, i, j, e);
      PairIsInList(sols, n, i, j, e);
      var a :| 0 <= a < |es| && es[a] == e;
      assert ZeroBelow(env, es[a].val);
    }
  }

  /** Without zero dampings, entries that meet lie between the same samples. */
  lemma SharesAtPair(env: Analysis, sols: Scan, n: nat, gTol: real, iters: nat)
    requires env.nRoots == n && n > 0 && forall r :: env.damping(r) == Damping(r)
    requires IsScan(sols, n) && |sols| > 1 && forall i: nat | i < n :: StartEntry(sols, n, i) == []
    requires SomeShare(env, AllEntries(sols, n, n), gTol, iters) && !ZeroAtSomeEnd(sols, n)
    ensures ShareAtSomePair(env, sols, n, gTol, iters)
  {
    hide Neglected, PairEntry, ComesFrom, AllEntries, StartEntry, Planned, PairEntries, WellFormed;
    var es := AllEntries(sols, n, n);
    AllEntriesFromPairs(sols, n, n);
    ListAllDiffers(sols, n);
    var a, b :| 0 <= a < |es| && 0 <= b < |es| && a != b
                && Shares(Planned(env, es[a].val, gTol, iters), Planned(env, es[b].val, gTol, iters));
    assert es[a] in es && es[b] in es;
    var i: nat, j: nat :| ComesFrom(sols, n, i, j, es[a]);
    var i': nat, j': nat :| ComesFrom(sols, n, i', j', es[b]);
    PlannedInInterval(env, sols, n, i, j, es[a], gTol, iters);
    PlannedInInterval(env, sols, n, i', j', es[b], gTol, iters);
    var v: real :| v in Planned(env, es[a].val, gTol, iters) && v in Planned(env, es[b].val, gTol, iters);
    KeysAscend(sols, j, j');
    KeysAscend(sols, j', j);
    if i == i' {
      SameEntry(sols, n, i, j, es[a], es[b]);
    }
    assert SharePair(env, sols, n, i, i', j, es[a], es[b], gTol, iters);
  }

  lemma SameEntry(sols: Scan, n: nat, i: nat, j: nat, e: Pair<Crossover>, e': Pair<Crossover>)
    requires IsScan(sols, n) && ComesFrom(sols, n, i, j, e) && ComesFrom(sols, n, i, j, e')
    ensures e == e'
  {
    hide PairEntry;
    assert [e][0] == e && [e'][0] == e';
  }

  lemma ListAllDiffers(sols: Scan, n: nat)
    requires n > 0 && IsScan(sols, n) && |sols| > 1 && forall i: nat | i < n :: StartEntry(sols, n, i) == []
    ensures AllDifferent(AllEntries(sols, n, n))
  {
    hide StartEntry, PairEntries;
    EntriesAllDiffer(sols, n, n - 1, |sols| - 1);
    assert StartEntry(sols, n, n - 1) == [];
    assert AllEntries(sols, n, n) == AllEntries(sols, n, n - 1) + PairEntries(sols, n, n - 1, |sols| - 1);
  }

  lemma PlannedInInterval(env: Analysis, sols: Scan, n: nat, i: nat, j: nat, e: Pair<Crossover>, gTol: real, iters: nat)
    requires env.nRoots == n && forall r :: env.damping(r) == Damping(r)
    requires IsScan(sols, n) && |sols| > 1 && ComesFrom(sols, n, i, j, e) && !ZeroAtSomeEnd(sols, n)
    ensures j + 1 < |sols|
    ensures forall v <- Planned(env, e.val, gTol, iters) :: sols[j].key < v < sols[j + 1].key
  {
    PairEntryIs(env, sols, n, i, j, e);
    Intervals(sols, n, i, j, e);
    assert !ZeroPair(sols, n, i, j, e);
    hide Neglected, PairEntry, Planned;
    PlannedBetween(env, e.val, gTol, iters);
  }

  /** Exactly when a run that evaluates every detected crossover fails an insertion: some crossover has damping exactly
      zero at its first end, or two modes that cross between the same samples are to be analysed at one velocity. */
  lemma ScanRunFailsExactly(env: Analysis, sols: Scan, n: nat, calls: seq<Call>, gTol: real, iters: nat)
    requires WellPosed(env) && env.nRoots == n && forall r :: env.damping(r) == Damping(r)
    requires IsScan(sols, n) && |sols| > 1 && forall i: nat | i < n :: StartEntry(sols, n, i) == []
    requires Uniform(calls, gTol, iters)
    ensures Valid(env, ScanState(sols, n))
    ensures Unevaluated(Run(env, ScanState(sols, n), calls).crossovers) == 0 ==>
              (Run(env, ScanState(sols, n), calls).assertFailed
               <==> ZeroAtSomeEnd(sols, n) || ShareAtSomePair(env, sols, n, gTol, iters))
  {
    hide Neglected, PairEntry, ComesFrom, AllEntries, StartEntry, InsertAll, Run, SomeShare, WellFormed, SpanClear,
         HasKey;
    var es := AllEntries(sols, n, n);
    AllEntriesFromPairs(sols, n, n);
    forall e <- es
      ensures Searchable(env, sols, e.val)
    {
      var i: nat, j: nat :| ComesFrom(sols, n, i, j, e);
      PairEntryIs(env, sols, n, i, j, e);
    }
    hide Searchable, FromPair, Valid, SomeZeroBelow, ShareAtSomePair, ZeroAtSomeEnd;
    ListRunFailsExactly(env, sols, es, calls, gTol, iters);
    ScanClashes(env, sols, n, gTol, iters);
  }

  /** Two modes with the same dampings at both ends of an interval, one of which crosses there: both do, and a run that
      evaluates every detected crossover fails an insertion. */
  lemma TwinModesFail(env: Analysis, sols: Scan, n: nat, i: nat, i': nat, j: nat, calls: seq<Call>, gTol: real,
                      iters: nat)
    requires WellPosed(env) && env.nRoots == n && forall r :: env.damping(r) == Damping(r)
    requires IsScan(sols, n) && |sols| > 1 && forall i: nat | i < n :: StartEntry(sols, n, i) == []
    requires Uniform(calls, gTol, iters)
    requires i < n && i' < n && i != i' && j + 1 < |sols| && !Neglected(sols, i', n) && PairEntry(sols, n, i, j) != []
    requires G(sols, i, j) == G(sols, i', j) && G(sols, i, j + 1) == G(sols, i', j + 1)
    ensures Valid(env, ScanState(sols, n))
    ensures Unevaluated(Run(env, ScanState(sols, n), calls).crossovers) == 0 ==>
              Run(env, ScanState(sols, n), calls).assertFailed
  {
    TwinsShare(env, sols, n, i, i', j, gTol, iters);
    hide Neglected, PairEntry, StartEntry, Run, Valid, ScanState, ShareAtSomePair;
    ScanRunFailsExactly(env, sols, n, calls, gTol, iters);
  }

  lemma TwinsShare(env: Analysis, sols: Scan, n: nat, i: nat, i': nat, j: nat, gTol: real, iters: nat)
    requires env.nRoots == n && gTol >= 0.0 && iters > 0 && forall r :: env.damping(r) == Damping(r)
    requires IsScan(sols, n) && |sols| > 1
    requires i < n && i' < n && i != i' && j + 1 < |sols| && !Neglected(sols, i', n) && PairEntry(sols, n, i, j) != []
    requires G(sols, i, j) == G(sols, i', j) && G(sols, i, j + 1) == G(sols, i', j + 1)
    ensures ShareAtSomePair(env, sols, n, gTol, iters)
  {
    var e, e' := PairEntry(sols, n, i, j)[0], PairEntry(sols, n, i', j)[0];
    assert ComesFrom(sols, n, i, j, e) && ComesFrom(sols, n, i', j, e');
    PairEntryIs(env, sols, n, i, j, e);
    PairEntryIs(env, sols, n, i', j, e');
    assert StartBracket(env, e.val) == StartBracket(env, e'.val);
    hide Neglected, PairEntry, StartBracket, Planned;
    SameBracketShares(env, e.val, e'.val, gTol, iters);
    assert SharePair(env, sols, n, i, i', j, e, e', gTol, iters);
  }

  // ---------------------------------------------------------------------------------------------
  // A conjugate pair that turns real
  // ---------------------------------------------------------------------------------------------

  function Sample(v: real, a: Complex, b: Complex): Pair<Solution> {
    Pair(v, Solution(v, [FlutterRoot(0.0, 0.0, v, a.im, a, false, [], []),
                         FlutterRoot(0.0, 0.0, v, b.im, b, false, [], [])]))
  }

  /** The roots of p^2 + 2 p + 2, p^2 - 2 p + 2 and p^2 - 5 p + 6 at three velocities. */
  function PairScan(): Scan {
    [Sample(1.0, Complex(-1.0, 1.0), Complex(-1.0, -1.0)),
     Sample(2.0, Complex(1.0, 1.0), Complex(1.0, -1.0)),
     Sample(3.0, Complex(2.0, 0.0), Complex(3.0, 0.0))]
  }

  /** The second mode has negative frequency except at the last velocity, where the pair is real, so it is not
      neglected. Both modes cross in the first interval with one bracket, and every run that evaluates them fails. */
  lemma ConjugatePairFails(env: Analysis, calls: seq<Call>, gTol: real, iters: nat)
    requires WellPosed(env) && env.nRoots == 2 && forall r :: env.damping(r) == Damping(r)
    requires Uniform(calls, gTol, iters)
    ensures IsScan(PairScan(), 2) && |PairScan()| > 1 && Valid(env, ScanState(PairScan(), 2))
    ensures Unevaluated(Run(env, ScanState(PairScan(), 2), calls).crossovers) == 0 ==>
              Run(env, ScanState(PairScan(), 2), calls).assertFailed
  {
    PairScanCrosses();
    hide PairScan, Neglected, PairEntry, StartEntry, Run, Valid, ScanState;
    TwinModesFail(env, PairScan(), 2, 0, 1, 0, calls, gTol, iters);
  }

  lemma PairScanCrosses()
    ensures var sols := PairScan();
            && IsScan(sols, 2) && |sols| > 1
            && (forall i: nat | i < 2 :: StartEntry(sols, 2, i) == [] && !Neglected(sols, i, 2))
            && PairEntry(sols, 2, 0, 0) != []
            && G(sols, 0, 0) == G(sols, 1, 0) && G(sols, 0, 1) == G(sols, 1, 1)
  {
    var sols := PairScan();
    assert sols[0].val.refVal == 1.0 && sols[1].val.refVal == 2.0 && sols[2].val.refVal == 3.0;
    assert G(sols, 0, 0) == -1.0 && G(sols, 1, 0) == -1.0 && G(sols, 0, 1) == 1.0 && G(sols, 1, 1) == 1.0;
    assert sols[2].val.roots[0].root.im == 0.0 && sols[2].val.roots[1].root.im == 0.0;
  }
}
