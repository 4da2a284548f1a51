/** The crossover objects that the solvers keep in a multimap and move while searching. */
module CrossoverObjects {
  import opened OrderedContainers
  import opened FlutterRoots
  import opened CrossoverSearch
  import opened CrossoverDetection

  class FlutterRootCrossover {
    const lower: Solution
    const upper: Solution
    const rootNum: nat
    var root: Option<FlutterRoot>

    constructor (lower: Solution, upper: Solution, rootNum: nat)
      ensures this.lower == lower && this.upper == upper && this.rootNum == rootNum && root == None
    {
      this.lower, this.upper, this.rootNum, root := lower, upper, rootNum, None;
    }

    ghost function Value(): Crossover
      reads this
    {
      Crossover(lower, upper, rootNum, root)
    }
  }

  type CrossoverMap = seq<Pair<FlutterRootCrossover>>

  ghost function Objects(cs: CrossoverMap): set<FlutterRootCrossover> {
    set i | 0 <= i < |cs| :: cs[i].val
  }

  ghost predicate Distinct(cs: CrossoverMap) {
    forall i, j | 0 <= i < j < |cs| :: cs[i].val != cs[j].val
  }

  /** The crossovers as values. */
  ghost function Values(cs: CrossoverMap): (r: seq<Pair<Crossover>>)
    reads Objects(cs)
    ensures |r| == |cs|
    ensures forall i | 0 <= i < |cs| :: r[i] == Pair(cs[i].key, cs[i].val.Value())
  {
    seq(|cs|, i requires 0 <= i < |cs| reads Objects(cs) => Pair(cs[i].key, cs[i].val.Value()))
  }

  lemma {:induction false} SameUpperBound(cs: CrossoverMap, vs: seq<Pair<Crossover>>, k: real)
    requires |cs| == |vs| && forall i | 0 <= i < |cs| :: cs[i].key == vs[i].key
    ensures UpperBound(cs, k) == UpperBound(vs, k)
  {
    if cs != [] {
      SameUpperBound(cs[1..], vs[1..], k);
    }
  }

  lemma ValuesOfInsert(cs: CrossoverMap, e: Pair<FlutterRootCrossover>)
    ensures Values(Insert(cs, e)) == Insert(Values(cs), Pair(e.key, e.val.Value()))
  {
    hide UpperBound;
    SameUpperBound(cs, Values(cs), e.key);
  }

  lemma DistinctAfterInsert(cs: CrossoverMap, e: Pair<FlutterRootCrossover>)
    requires Distinct(cs) && e.val !in Objects(cs)
    ensures Distinct(Insert(cs, e)) && Objects(Insert(cs, e)) == Objects(cs) + {e.val}
  {
    hide UpperBound;
    var r, p := Insert(cs, e), UpperBound(cs, e.key);
    forall x | x in Objects(cs)
      ensures x in Objects(r)
    {
      var i :| 0 <= i < |cs| && cs[i].val == x;
      assert r[if i < p then i else i + 1].val == x;
    }
    assert r[p].val == e.val;
  }

  lemma ObjectsWithout(cs: CrossoverMap, it: nat)
    requires it < |cs|
    ensures Objects(cs) == Objects(RemoveAt(cs, it)) + {cs[it].val}
  {
    var rest := RemoveAt(cs, it);
    forall x | x in Objects(cs) && x != cs[it].val
      ensures x in Objects(rest)
    {
      var i :| 0 <= i < |cs| && cs[i].val == x;
      assert rest[if i < it then i else i - 1].val == x;
    }
  }

  /** Moving the crossover at position it to another key, seen on the values. */
  lemma MovedValues(cs: CrossoverMap, it: nat, key: real, vs: seq<Pair<Crossover>>, c: Crossover)
    requires Distinct(cs) && it < |cs| == |vs|
    requires forall k | 0 <= k < |cs| && k != it :: vs[k] == Pair(cs[k].key, cs[k].val.Value())
    requires cs[it].val.Value() == c
    ensures var r := Insert(RemoveAt(cs, it), Pair(key, cs[it].val));
            && Values(r) == Insert(RemoveAt(vs, it), Pair(key, c))
            && Distinct(r) && Objects(r) == Objects(cs)
  {
    hide Insert;
    var rest := RemoveAt(cs, it);
    assert Values(rest) == RemoveAt(vs, it);
    ValuesOfInsert(rest, Pair(key, cs[it].val));
    DistinctAfterInsert(rest, Pair(key, cs[it].val));
    ObjectsWithout(cs, it);
  }

  /** Assigns the root of the crossover at position it, erases it there and inserts it under its root velocity. */
  method AssignAndReinsert(cs: CrossoverMap, it: nat, root: FlutterRoot) returns (r: CrossoverMap)
    requires Distinct(cs) && it < |cs|
    modifies cs[it].val
    ensures cs[it].val.root == Some(root)
    ensures Distinct(r) && Objects(r) == Objects(cs)
    ensures multiset(r) == multiset(cs) - multiset{cs[it]} + multiset{Pair(root.V, cs[it].val)}
    ensures var c := old(cs[it].val.Value());
            Values(r) == Insert(RemoveAt(old(Values(cs)), it), Pair(root.V, c.(root := Some(root))))
  {
    hide Insert, RemoveAt;
    ghost var vs, c := Values(cs), cs[it].val.Value();
    var cross := cs[it].val;
    cross.root := Some(root);
    MovedValues(cs, it, root.V, vs, c.(root := Some(root)));
    MoveExchanges(cs, it, Pair(root.V, cross));
    r := Insert(RemoveAt(cs, it), Pair(root.V, cross));
  }

  /** The stored crossovers are different objects and hold `start` with `found` inserted one after the other. */
  ghost predicate HoldsAll(cs: CrossoverMap, start: seq<Pair<Crossover>>, found: seq<Pair<Crossover>>)
    reads Objects(cs)
  {
    Distinct(cs) && Values(cs) == InsertAll(start, found)
  }

  lemma HoldsNone(cs: CrossoverMap)
    requires Distinct(cs)
    ensures HoldsAll(cs, Values(cs), [])
  {
  }

  lemma HoldsOneMore(cs: CrossoverMap, start: seq<Pair<Crossover>>, found: seq<Pair<Crossover>>,
                     e: Pair<FlutterRootCrossover>)
    requires HoldsAll(cs, start, found) && e.val !in Objects(cs)
    ensures HoldsAll(Insert(cs, e), start, found + [Pair(e.key, e.val.Value())])
    ensures Objects(Insert(cs, e)) == Objects(cs) + {e.val}
  {
    hide Insert;
    ValuesOfInsert(cs, e);
    DistinctAfterInsert(cs, e);
    assert (found + [Pair(e.key, e.val.Value())])[..|found|] == found;
  }

  lemma NothingFound(vs: seq<Pair<Crossover>>)
    ensures FoundRoots(vs[..0]) == []
  {
  }

  lemma RecordNone(env: Analysis, prev: seq<FlutterRoot>, sols: seq<Pair<Solution>>)
    ensures RecordAll(env, prev, sols, []) == sols && !Collides(sols, [])
  {
  }
}
