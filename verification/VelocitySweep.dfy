/** A sweep over equally spaced velocities, each eigensolution tracked against the one before, and the recording
    of the solutions it visits. */
module VelocitySweep {
  import opened Scalars
  import opened OrderedContainers
  import opened FlutterRoots
  import opened CrossoverSearch

  /** First and last velocity, number of divisions, and the roots at the first velocity. */
  datatype Sweep = Sweep(lo: real, hi: real, divs: nat, first: seq<FlutterRoot>) {
    function dV(): real
      requires divs > 0
    {
      (hi - lo) / divs as real
    }

    function V(j: nat): real
      requires divs > 0
    {
      lo + j as real * dV()
    }

    function Roots(env: Analysis, j: nat): seq<FlutterRoot>
      requires divs > 0
    {
      if j == 0 then first else env.At(V(j), Roots(env, j - 1))
    }

    function At(env: Analysis, j: nat): Solution
      requires divs > 0
    {
      Solution(V(j), Roots(env, j))
    }

    /** The solutions of steps 0 .. j. */
    function Visits(env: Analysis, j: nat): (s: seq<Solution>)
      requires divs > 0
      ensures |s| == j + 1
    {
      if j == 0 then [At(env, 0)] else Visits(env, j - 1) + [At(env, j)]
    }
  }

  lemma StepsScale(a: real, n: real)
    requires n > 0.0
    ensures n * (a / n) == a
    ensures a > 0.0 ==> a / n > 0.0
  {
  }

  lemma Ascending(i: nat, j: nat, d: real)
    requires i < j && d > 0.0
    ensures i as real * d < j as real * d
  {
    var s := (j - i) as real;
    assert j as real * d - i as real * d == Mul(s, d);
    hide Mul;
  }

  /** Sweep velocities ascend, and reach the upper velocity exactly at the last division. */
  lemma SweepAscends(m: Sweep, j: nat)
    requires m.divs > 0 && m.lo < m.hi && j <= m.divs
    ensures m.V(j) >= m.hi <==> j == m.divs
    ensures m.V(j) <= m.hi && m.dV() > 0.0
    ensures forall i: nat | i < j :: m.V(i) < m.V(j)
    ensures m.V(0) == m.lo && m.V(j) + m.dV() == m.V(j + 1)
  {
    StepsScale(m.hi - m.lo, m.divs as real);
    var d := m.dV();
    forall i: nat | i < j
      ensures m.V(i) < m.V(j)
    {
      Ascending(i, j, d);
    }
    if j < m.divs {
      Ascending(j, m.divs, d);
    }
    assert (j + 1) as real * d == j as real * d + d;
  }

  lemma {:induction false} VisitsAre(m: Sweep, env: Analysis, j: nat, i: nat)
    requires m.divs > 0 && i <= j
    ensures m.Visits(env, j)[i] == m.At(env, i)
  {
    if i < j {
      VisitsAre(m, env, j - 1, i);
    }
  }

  lemma StepsDiffer(i: nat, j: nat, d: real)
    requires i < j && d != 0.0
    ensures i as real * d != j as real * d
  {
    var s := (j - i) as real;
    assert j as real * d - i as real * d == Mul(s, d);
    hide Mul;
  }

  /** Adding the step length again and again gives the sweep velocities, and the last one is the upper limit. */
  lemma SweepSteps(m: Sweep, j: nat)
    requires m.divs > 0
    ensures m.V(0) == m.lo && m.V(j) + m.dV() == m.V(j + 1) && m.V(m.divs) == m.hi
    ensures m.lo != m.hi ==> m.dV() != 0.0
  {
    StepsScale(m.hi - m.lo, m.divs as real);
    assert (j + 1) as real * m.dV() == j as real * m.dV() + m.dV();
  }

  lemma {:induction false} RootsSized(m: Sweep, env: Analysis, j: nat)
    requires WellPosed(env) && m.divs > 0 && |m.first| == env.nRoots
    ensures |m.Roots(env, j)| == env.nRoots
  {
    if j > 0 {
      RootsSized(m, env, j - 1);
    }
  }

  /** The velocities of a sweep between different limits are all different. */
  lemma SweepDoesNotRepeat(m: Sweep, env: Analysis, k: nat)
    requires m.divs > 0 && m.lo != m.hi
    ensures !Repeats(m.Visits(env, k))
  {
    SweepSteps(m, 0);
    var s := m.Visits(env, k);
    forall i, j | 0 <= i < j < |s|
      ensures s[i].refVal != s[j].refVal
    {
      VisitsAre(m, env, k, i);
      VisitsAre(m, env, k, j);
      StepsDiffer(i, j, m.dV());
    }
  }

  function RecordVisits(s: seq<Solution>): seq<Pair<Solution>> {
    if s == [] then []
    else InsertUnique(RecordVisits(s[..|s| - 1]), Pair(s[|s| - 1].refVal, s[|s| - 1]))
  }

  predicate Repeats(s: seq<Solution>) {
    exists i, j :: 0 <= i < j < |s| && s[i].refVal == s[j].refVal
  }

  lemma {:induction false} RecordVisitsKeys(s: seq<Solution>)
    ensures StrictlySorted(RecordVisits(s))
    ensures forall v: real :: HasKey(RecordVisits(s), v) <==> exists i :: 0 <= i < |s| && s[i].refVal == v
  {
    if s != [] {
      var init, last := s[..|s| - 1], s[|s| - 1];
      RecordVisitsKeys(init);
      InsertUniqueKeepsOrder(RecordVisits(init), Pair(last.refVal, last));
      forall v: real
        ensures HasKey(RecordVisits(s), v) <==> exists i :: 0 <= i < |s| && s[i].refVal == v
      {
        if exists i :: 0 <= i < |s| && s[i].refVal == v {
          var i :| 0 <= i < |s| && s[i].refVal == v;
          assert i < |init| ==> init[i].refVal == v;
        }
        if i: nat :| i < |init| && init[i].refVal == v {
          assert s[i].refVal == v;
        }
      }
    }
  }

  /** Without repetitions every visit is stored, as it was analysed. */
  lemma {:induction false} RecordVisitsDistinct(s: seq<Solution>)
    requires !Repeats(s)
    ensures var r := RecordVisits(s);
            |r| == |s| && forall i | 0 <= i < |r| :: exists j :: 0 <= j < |s| && r[i] == Pair(s[j].refVal, s[j])
  {
    if s != [] {
      var init, last := s[..|s| - 1], s[|s| - 1];
      assert s == init + [last];
      VisitNext(init, last);
      RecordVisitsDistinct(init);
      var r, t := RecordVisits(init), RecordVisits(s);
      var p := UpperBound(r, last.refVal);
      forall i | 0 <= i < |t|
        ensures exists j :: 0 <= j < |s| && t[i] == Pair(s[j].refVal, s[j])
      {
        if i == p {
          assert t[i] == Pair(s[|s| - 1].refVal, s[|s| - 1]);
        } else {
          var j :| 0 <= j < |init| && r[if i < p then i else i - 1] == Pair(init[j].refVal, init[j]);
          assert t[i] == Pair(s[j].refVal, s[j]);
        }
      }
    }
  }

  lemma {:induction false} RecordAscending(s: seq<Solution>)
    requires forall i, j | 0 <= i < j < |s| :: s[i].refVal < s[j].refVal
    ensures |RecordVisits(s)| == |s| && forall i | 0 <= i < |s| :: RecordVisits(s)[i] == Pair(s[i].refVal, s[i])
  {
    if s != [] {
      RecordAscending(s[..|s| - 1]);
      InsertLast(RecordVisits(s[..|s| - 1]), Pair(s[|s| - 1].refVal, s[|s| - 1]));
    }
  }

  function Backwards(s: seq<Solution>): (r: seq<Pair<Solution>>)
    ensures |r| == |s|
  {
    if s == [] then [] else [Pair(s[|s| - 1].refVal, s[|s| - 1])] + Backwards(s[..|s| - 1])
  }

  lemma {:induction false} BackwardsAt(s: seq<Solution>, j: nat)
    requires j < |s|
    ensures Backwards(s)[|s| - 1 - j] == Pair(s[j].refVal, s[j])
  {
    if j < |s| - 1 {
      BackwardsAt(s[..|s| - 1], j);
    }
  }

  lemma {:induction false} RecordDescending(s: seq<Solution>)
    requires forall i, j | 0 <= i < j < |s| :: s[i].refVal > s[j].refVal
    ensures RecordVisits(s) == Backwards(s)
  {
    if s != [] {
      var init, x := s[..|s| - 1], s[|s| - 1];
      RecordDescending(init);
      var r := Backwards(init);
      forall k | 0 <= k < |r|
        ensures r[k].key > x.refVal
      {
        BackwardsAt(init, |init| - 1 - k);
      }
      InsertFirst(r, Pair(x.refVal, x));
    }
  }

  lemma {:induction false} BoundAtEnd<V>(cs: seq<Pair<V>>, key: real)
    requires forall k | 0 <= k < |cs| :: cs[k].key < key
    ensures UpperBound(cs, key) == |cs|
  {
    if cs != [] {
      BoundAtEnd(cs[1..], key);
    }
  }

  lemma InsertLast<V>(cs: seq<Pair<V>>, e: Pair<V>)
    requires forall k | 0 <= k < |cs| :: cs[k].key < e.key
    ensures InsertUnique(cs, e) == cs + [e]
  {
    BoundAtEnd(cs, e.key);
  }

  lemma InsertFirst<V>(cs: seq<Pair<V>>, e: Pair<V>)
    requires forall k | 0 <= k < |cs| :: cs[k].key > e.key
    ensures InsertUnique(cs, e) == [e] + cs
  {
  }

  /** Where the solution of step j is stored: from the lowest velocity up. */
  function StoredAt(m: Sweep, j: nat): nat
    requires j <= m.divs
  {
    if m.lo < m.hi then j else m.divs - j
  }

  /** A sweep between different limits is stored in its order, or in reverse if it goes down. */
  lemma SweepIsStored(m: Sweep, env: Analysis)
    requires m.divs > 0 && m.lo != m.hi
    ensures var r := RecordVisits(m.Visits(env, m.divs));
            |r| == m.divs + 1 && forall j: nat | j <= m.divs :: r[StoredAt(m, j)] == Pair(m.V(j), m.At(env, j))
  {
    hide RecordVisits, Sweep.Visits, Sweep.V;
    var s := m.Visits(env, m.divs);
    forall i, j | 0 <= i < j <= m.divs
      ensures if m.lo < m.hi then s[i].refVal < s[j].refVal else s[i].refVal > s[j].refVal
    {
      VisitsAre(m, env, m.divs, i);
      VisitsAre(m, env, m.divs, j);
      StepsInOrder(m, i, j);
    }
    forall j: nat | j <= m.divs
      ensures s[j] == m.At(env, j)
    {
      VisitsAre(m, env, m.divs, j);
    }
    if m.lo < m.hi {
      RecordAscending(s);
    } else {
      RecordDescending(s);
      forall j: nat | j <= m.divs
        ensures Backwards(s)[m.divs - j] == Pair(s[j].refVal, s[j])
      {
        BackwardsAt(s, j);
      }
    }
  }

  lemma StepsInOrder(m: Sweep, i: nat, j: nat)
    requires m.divs > 0 && m.lo != m.hi && i < j
    ensures if m.lo < m.hi then m.V(i) < m.V(j) else m.V(i) > m.V(j)
  {
    if m.lo < m.hi {
      StepsScale(m.hi - m.lo, m.divs as real);
      Ascending(i, j, m.dV());
    } else {
      StepsScale(m.lo - m.hi, m.divs as real);
      Ascending(i, j, (m.lo - m.hi) / m.divs as real);
      assert m.dV() == -((m.lo - m.hi) / m.divs as real);
      Opposite(i as real, m.dV());
      Opposite(j as real, m.dV());
    }
  }

  lemma Opposite(n: real, d: real)
    ensures n * -d == -(n * d)
  {
  }

  /** One more solution: recorded under its velocity, and a repetition exactly when that is already a key. */
  lemma VisitNext(s: seq<Solution>, x: Solution)
    ensures RecordVisits(s + [x]) == InsertUnique(RecordVisits(s), Pair(x.refVal, x))
    ensures Repeats(s + [x]) <==> Repeats(s) || HasKey(RecordVisits(s), x.refVal)
  {
    var t := s + [x];
    assert t[..|t| - 1] == s && t[|s|] == x;
    RecordVisitsKeys(s);
    hide RecordVisits, HasKey;
    if Repeats(s) {
      var i, j :| 0 <= i < j < |s| && s[i].refVal == s[j].refVal;
      assert t[i].refVal == t[j].refVal;
    }
    if i: nat :| i < |s| && s[i].refVal == x.refVal {
      assert t[i].refVal == t[|s|].refVal;
    }
    if Repeats(t) {
      var i, j :| 0 <= i < j < |t| && t[i].refVal == t[j].refVal;
      assert j < |s| || s[i].refVal == x.refVal;
    }
  }

  lemma NoRepeatsConcat(a: seq<Solution>, b: seq<Solution>)
    requires !Repeats(a) && !Repeats(b)
    requires forall i, j | 0 <= i < |a| && 0 <= j < |b| :: a[i].refVal != b[j].refVal
    ensures !Repeats(a + b)
  {
  }

  /** The stored solutions and the assertion after the given visits. */
  ghost predicate Recorded(visits: seq<Solution>, failedBefore: bool, sols: seq<Pair<Solution>>, failed: bool) {
    sols == RecordVisits(visits) && failed == (failedBefore || Repeats(visits))
  }

  lemma RecordedNext(visits: seq<Solution>, failedBefore: bool, sols: seq<Pair<Solution>>, failed: bool, x: Solution)
    requires Recorded(visits, failedBefore, sols, failed)
    ensures Recorded(visits + [x], failedBefore, InsertUnique(sols, Pair(x.refVal, x)), failed
                     || HasKey(sols, x.refVal))
  {
    VisitNext(visits, x);
  }
}
