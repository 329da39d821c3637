/** Insertion-ordered dictionaries, the model of a Python `dict`: a sequence of key/value
    entries in the order the keys were first inserted. */
module Dicts {
  import opened Wrappers

  datatype Entry<K, V> = Entry(key: K, value: V)

  type Dict<K, V> = seq<Entry<K, V>>

  /** The keys, in insertion order (Python `d.keys()`). */
  function Keys<K, V>(d: Dict<K, V>): (ks: seq<K>)
    ensures |ks| == |d|
    ensures forall i {:trigger ks[i]} :: 0 <= i < |d| ==> ks[i] == d[i].key
  {
    if |d| == 0 then [] else [d[0].key] + Keys(d[1..])
  }

  /** The values, in insertion order (Python `d.values()`). */
  function Values<K, V>(d: Dict<K, V>): (vs: seq<V>)
    ensures |vs| == |d|
    ensures forall i {:trigger vs[i]} :: 0 <= i < |d| ==> vs[i] == d[i].value
  {
    if |d| == 0 then [] else [d[0].value] + Values(d[1..])
  }

  /** No key occurs twice; every dictionary built by `Put` alone has this property. */
  ghost predicate DistinctKeys<K, V>(d: Dict<K, V>) {
    forall i, j :: 0 <= i < j < |d| ==> d[i].key != d[j].key
  }

  /** Keys are numbers from 1 up to (but excluding) `next`, ascending in insertion order:
      the shape of a table whose keys come from a counter that starts at 1. */
  ghost predicate NumberedBelow<V>(d: Dict<nat, V>, next: nat) {
    && 1 <= next
    && (forall i :: 0 <= i < |d| ==> 1 <= d[i].key < next)
    && (forall i, j :: 0 <= i < j < |d| ==> d[i].key < d[j].key)
  }

  /** Lookup (Python `d.get(k)`): the value stored under `k`, or `None` when `k` is no key. */
  function Get<K(==), V>(d: Dict<K, V>, k: K): (r: Option<V>)
    ensures r.None? <==> k !in Keys(d)
    ensures r.Some? ==> r.value in Values(d)
    ensures DistinctKeys(d) ==> forall i :: 0 <= i < |d| && d[i].key == k ==> r == Some(d[i].value)
  {
    if |d| == 0 then None
    else if d[0].key == k then Some(d[0].value)
    else
      var r := Get(d[1..], k);
      Unfold(d);
      r
  }

  /** One step of the recursion over a non-empty dictionary. */
  lemma {:induction false} Unfold<K, V>(d: Dict<K, V>)
    requires |d| > 0
    ensures Keys(d) == [d[0].key] + Keys(d[1..])
    ensures Values(d) == [d[0].value] + Values(d[1..])
    ensures DistinctKeys(d) ==> DistinctKeys(d[1..]) && d[0].key !in Keys(d[1..])
  {
  }

  /** Assignment (Python `d[k] = v`): an existing key keeps its place and gets the new value,
      a new key is appended at the end. */
  function Put<K(==, !new), V>(d: Dict<K, V>, k: K, v: V): (r: Dict<K, V>)
    ensures k !in Keys(d) ==> r == d + [Entry(k, v)]
    ensures k in Keys(d) && DistinctKeys(d) ==>
      && |r| == |d|
      && forall i :: 0 <= i < |d| ==> r[i] == (if d[i].key == k then Entry(k, v) else d[i])
    ensures Get(r, k) == Some(v)
    ensures forall k' :: k' != k ==> Get(r, k') == Get(d, k')
    ensures forall k' :: k' in Keys(r) <==> k' in Keys(d) || k' == k
  {
    if |d| == 0 then
      [Entry(k, v)]
    else if d[0].key == k then
      PutHead(d, k, v);
      [Entry(k, v)] + d[1..]
    else
      var rest := Put(d[1..], k, v);
      PutTail(d, k, v, rest);
      [d[0]] + rest
  }

  /** `r` is a result of assigning `v` to `k` in `d`: the postcondition of `Put` as one fact. */
  ghost predicate Assigned<K(!new), V>(d: Dict<K, V>, k: K, v: V, r: Dict<K, V>) {
    && (k !in Keys(d) ==> r == d + [Entry(k, v)])
    && (k in Keys(d) && DistinctKeys(d) ==>
      && |r| == |d|
      && forall i :: 0 <= i < |d| ==> r[i] == (if d[i].key == k then Entry(k, v) else d[i]))
    && Get(r, k) == Some(v)
    && (forall k' :: k' != k ==> Get(r, k') == Get(d, k'))
    && (forall k' :: k' in Keys(r) <==> k' in Keys(d) || k' == k)
  }

  /** Assignment to the first key replaces the first entry. */
  lemma PutHead<K(!new), V>(d: Dict<K, V>, k: K, v: V)
    requires |d| > 0 && d[0].key == k
    ensures Assigned(d, k, v, [Entry(k, v)] + d[1..])
  {
    var r := [Entry(k, v)] + d[1..];
    assert r[1..] == d[1..];
    assert d == [d[0]] + d[1..];
    GetCons(d[0], d[1..]);
    GetCons(Entry(k, v), d[1..]);
    Unfold(d);
    Unfold(r);
  }

  /** Assignment to a later key keeps the first entry and assigns in the rest. */
  lemma PutTail<K(!new), V>(d: Dict<K, V>, k: K, v: V, rest: Dict<K, V>)
    requires |d| > 0 && d[0].key != k
    requires Assigned(d[1..], k, v, rest)
    ensures Assigned(d, k, v, [d[0]] + rest)
  {
    var r := [d[0]] + rest;
    assert r[1..] == rest;
    assert d == [d[0]] + d[1..];
    GetCons(d[0], d[1..]);
    GetCons(d[0], rest);
    Unfold(d);
    Unfold(r);
    if k !in Keys(d) {
      AppendAfterHead(d, Entry(k, v));
    }
    if k in Keys(d) && DistinctKeys(d) {
      forall i | 1 <= i < |d|
        ensures r[i] == (if d[i].key == k then Entry(k, v) else d[i])
      {
        assert r[i] == rest[i - 1] && d[i] == d[1..][i - 1];
      }
    }
  }

  lemma AppendAfterHead<T>(xs: seq<T>, x: T)
    requires |xs| > 0
    ensures [xs[0]] + (xs[1..] + [x]) == xs + [x]
  {
  }

  /** Lookup in a dictionary with a given first entry. */
  lemma {:induction false} GetCons<K(!new), V>(e: Entry<K, V>, rest: Dict<K, V>)
    ensures forall k :: Get([e] + rest, k) == if e.key == k then Some(e.value) else Get(rest, k)
  {
    assert ([e] + rest)[1..] == rest;
  }

  /** Storing the value a key already holds changes nothing. */
  lemma {:induction false} PutExisting<K(!new), V>(d: Dict<K, V>, k: K, v: V)
    requires Get(d, k) == Some(v)
    ensures Put(d, k, v) == d
  {
    if d[0].key != k {
      PutExisting(d[1..], k, v);
    }
  }

  /** Assigning a new key to a one-entry dictionary appends after that entry. */
  lemma PutAfterSingle<K(!new), V>(e: Entry<K, V>, k: K, v: V)
    requires e.key != k
    ensures Put([e], k, v) == [e, Entry(k, v)]
  {
    assert [e][1..] == [];
  }

  /** Storing under the counter value appends, and the table stays numbered below the
      advanced counter. */
  lemma PutFresh<V>(d: Dict<nat, V>, next: nat, v: V)
    requires NumberedBelow(d, next)
    ensures next !in Keys(d)
    ensures Put(d, next, v) == d + [Entry(next, v)]
    ensures NumberedBelow(Put(d, next, v), next + 1)
  {
    CounterNotKey(d, next);
    AppendNumbered(d, next, v);
  }

  lemma CounterNotKey<V>(d: Dict<nat, V>, next: nat)
    requires NumberedBelow(d, next)
    ensures next !in Keys(d)
  {
  }

  lemma AppendNumbered<V>(d: Dict<nat, V>, next: nat, v: V)
    requires NumberedBelow(d, next)
    ensures NumberedBelow(d + [Entry(next, v)], next + 1)
  {
    var r := d + [Entry(next, v)];
    forall i | 0 <= i < |r|
      ensures 1 <= r[i].key < next + 1
    {
      if i < |d| {
        assert r[i] == d[i];
      }
    }
    forall i, j | 0 <= i < j < |r|
      ensures r[i].key < r[j].key
    {
      assert r[i] == d[i];
      if j < |d| {
        assert r[j] == d[j];
      }
    }
  }

  /** Storing under a key already present keeps every key in its place. */
  lemma PutPresent<V>(d: Dict<nat, V>, next: nat, k: nat, v: V)
    requires NumberedBelow(d, next) && k in Keys(d)
    ensures |Put(d, k, v)| == |d|
    ensures forall i :: 0 <= i < |d| ==> Put(d, k, v)[i] == (if d[i].key == k then Entry(k, v) else d[i])
    ensures Keys(Put(d, k, v)) == Keys(d)
    ensures NumberedBelow(Put(d, k, v), next)
  {
    NumberedDistinct(d, next);
    var r := Put(d, k, v);
    assert forall i :: 0 <= i < |d| ==> r[i].key == d[i].key;
    assert Keys(r) == Keys(d);
  }

  lemma ValuesAppend<K, V>(d: Dict<K, V>, k: K, v: V)
    ensures Values(d + [Entry(k, v)]) == Values(d) + [v]
  {
    var r := d + [Entry(k, v)];
    assert forall i :: 0 <= i < |d| ==> r[i] == d[i];
  }

  /** Numbered keys are distinct. */
  lemma NumberedDistinct<V>(d: Dict<nat, V>, next: nat)
    requires NumberedBelow(d, next)
    ensures DistinctKeys(d)
  {
  }
}
