/** std::map and std::multimap keyed by reals, as sequences of pairs in key order. */
module OrderedContainers {

  datatype Option<+T> = None | Some(value: T)

  datatype Pair<+V> = Pair(key: real, val: V)

  ghost predicate Sorted<V>(s: seq<Pair<V>>) {
    forall i, j | 0 <= i < j < |s| :: s[i].key <= s[j].key
  }

  ghost predicate StrictlySorted<V>(s: seq<Pair<V>>) {
    forall i, j | 0 <= i < j < |s| :: s[i].key < s[j].key
  }

  predicate HasKey<V>(s: seq<Pair<V>>, k: real) {
    exists i :: 0 <= i < |s| && s[i].key == k
  }

  /** The number of leading entries whose key is at most k. */
  function UpperBound<V>(s: seq<Pair<V>>, k: real): (p: nat)
    ensures p <= |s|
    ensures forall i | 0 <= i < p :: s[i].key <= k
    ensures p < |s| ==> s[p].key > k
  {
    if s == [] || s[0].key > k then 0 else 1 + UpperBound(s[1..], k)
  }

  /** multimap::insert: after the entries with an equal key. */
  function Insert<V>(s: seq<Pair<V>>, e: Pair<V>): (r: seq<Pair<V>>)
    ensures |r| == |s| + 1
    ensures var p := UpperBound(s, e.key);
            && r[p] == e
            && (forall k | 0 <= k < p :: r[k] == s[k])
            && (forall k | p < k < |r| :: r[k] == s[k - 1])
  {
    var p := UpperBound(s, e.key);
    s[..p] + ([e] + s[p..])
  }

  /** map::insert: an existing entry is kept and the insertion fails. */
  function InsertUnique<V>(s: seq<Pair<V>>, e: Pair<V>): seq<Pair<V>> {
    if HasKey(s, e.key) then s else Insert(s, e)
  }

  /** erase(iterator) */
  function RemoveAt<V>(s: seq<Pair<V>>, i: nat): (r: seq<Pair<V>>)
    requires i < |s|
    ensures |r| == |s| - 1
    ensures forall k | 0 <= k < |r| :: r[k] == s[if k < i then k else k + 1]
  {
    s[..i] + s[i + 1..]
  }

  /** Moving an entry takes it out and puts the new one in. */
  lemma MoveExchanges<V>(s: seq<Pair<V>>, i: nat, e: Pair<V>)
    requires i < |s|
    ensures multiset(Insert(RemoveAt(s, i), e)) == multiset(s) - multiset{s[i]} + multiset{e}
  {
    assert s == s[..i] + [s[i]] + s[i + 1..];
    InsertAddsOne(RemoveAt(s, i), e);
    hide Insert;
  }

  lemma InsertKeepsOrder<V>(s: seq<Pair<V>>, e: Pair<V>)
    requires Sorted(s)
    ensures Sorted(Insert(s, e))
    ensures StrictlySorted(s) && !HasKey(s, e.key) ==> StrictlySorted(Insert(s, e))
  {
    var r, p := Insert(s, e), UpperBound(s, e.key);
    forall i, j | 0 <= i < j < |r|
      ensures r[i].key <= r[j].key
      ensures StrictlySorted(s) && !HasKey(s, e.key) ==> r[i].key < r[j].key
    {
      if i == p {
        assert r[j] == s[j - 1] && s[p].key <= s[j - 1].key;
      } else if j == p {
        assert r[i] == s[i];
      }
      hide Insert;
    }
  }

  lemma InsertAddsOne<V>(s: seq<Pair<V>>, e: Pair<V>)
    ensures multiset(Insert(s, e)) == multiset(s) + multiset{e}
  {
    var p := UpperBound(s, e.key);
    assert s == s[..p] + s[p..];
    assert multiset(s) == multiset(s[..p]) + multiset(s[p..]);
    assert multiset([e] + s[p..]) == multiset{e} + multiset(s[p..]);
  }

  lemma InsertUniqueKeepsOrder<V>(s: seq<Pair<V>>, e: Pair<V>)
    requires StrictlySorted(s)
    ensures StrictlySorted(InsertUnique(s, e))
    ensures forall k: real :: HasKey(InsertUnique(s, e), k) <==> HasKey(s, k) || k == e.key
  {
    InsertKeepsOrder(s, e);
    if !HasKey(s, e.key) {
      var r, p := Insert(s, e), UpperBound(s, e.key);
      assert r[p] == e;
      forall k: real | HasKey(s, k)
        ensures HasKey(r, k)
      {
        var i :| 0 <= i < |s| && s[i].key == k;
        assert r[if i < p then i else i + 1].key == k;
      }
    }
  }

  lemma RemoveKeepsOrder<V>(s: seq<Pair<V>>, i: nat)
    requires i < |s| && Sorted(s)
    ensures Sorted(RemoveAt(s, i))
  {
  }
}
