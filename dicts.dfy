/** A Python `dict` as the list of its entries in insertion order: lookup,
    assignment `d[k] = v` (a new key goes to the end, an existing key keeps
    its place), deletion `del d[k]`, and `d.values()` in order. A Python dict
    never holds a key twice (UniqueKeys); the lemmas below show that
    assignment and deletion keep it so. */
module Dicts {
  import opened Options
  import opened Lists

  predicate UniqueKeys<K(==), V>(d: seq<(K, V)>) {
    forall i, j :: 0 <= i < j < |d| ==> d[i].0 != d[j].0
  }

  /** The position of the first entry with key `k`, or `|d|` if there is none. */
  function IndexOf<K(==), V>(d: seq<(K, V)>, k: K): (i: nat)
    ensures i <= |d|
    ensures i < |d| ==> d[i].0 == k
    ensures forall j :: 0 <= j < i ==> d[j].0 != k
  {
    if d == [] then 0
    else if d[0].0 == k then 0
    else 1 + IndexOf(d[1..], k)
  }

  /** `IndexOf` is the only position with its two defining properties. */
  lemma IndexOfIs<K, V>(d: seq<(K, V)>, k: K, i: nat)
    requires i <= |d| && (i < |d| ==> d[i].0 == k)
    requires forall j :: 0 <= j < i ==> d[j].0 != k
    ensures IndexOf(d, k) == i
  {
  }

  /** `d.get(k)`. */
  function Get<K(==), V>(d: seq<(K, V)>, k: K): (r: Option<V>)
    ensures r.None? <==> forall j :: 0 <= j < |d| ==> d[j].0 != k
    ensures r.Some? ==> (k, r.value) in d
  {
    var i := IndexOf(d, k);
    if i < |d| then Some(d[i].1) else None
  }

  /** `d[k] = v`. */
  function Put<K(==), V>(d: seq<(K, V)>, k: K, v: V): seq<(K, V)> {
    var i := IndexOf(d, k);
    if i < |d| then d[i := (k, v)] else d + [(k, v)]
  }

  /** `del d[k]`. Python raises `KeyError` for a missing key; the relay only
      deletes after an `in` test, so that case never arises there, and here a
      missing key leaves `d` as it is. */
  function Delete<K(==), V>(d: seq<(K, V)>, k: K): seq<(K, V)> {
    var i := IndexOf(d, k);
    if i < |d| then d[..i] + d[i + 1..] else d
  }

  /** `d.values()`, in entry order. */
  function Values<K, V>(d: seq<(K, V)>): (vs: seq<V>)
    ensures |vs| == |d| && forall i :: 0 <= i < |d| ==> vs[i] == d[i].1
  {
    if d == [] then [] else [d[0].1] + Values(d[1..])
  }

  /** After `d[k] = v`, `k` maps to `v` and every other key to what it had. */
  lemma GetAfterPut<K, V>(d: seq<(K, V)>, k: K, v: V, k': K)
    ensures Get(Put(d, k, v), k') == if k' == k then Some(v) else Get(d, k')
  {
    var r := Put(d, k, v);
    var i := IndexOf(d, k);
    if k' == k {
      IndexOfIs(r, k, i);
    } else {
      var j := IndexOf(d, k');
      if i < |d| {
        IndexOfIs(r, k', j);
      } else {
        IndexOfIs(r, k', if j < |d| then j else |r|);
      }
    }
  }

  /** After `del d[k]`, `k` is gone and every other key maps to what it had. */
  lemma GetAfterDelete<K, V>(d: seq<(K, V)>, k: K, k': K)
    requires UniqueKeys(d)
    ensures Get(Delete(d, k), k') == if k' == k then None else Get(d, k')
  {
    var r := Delete(d, k);
    var i := IndexOf(d, k);
    if i < |d| {
      assert forall j :: 0 <= j < |r| ==> r[j] == if j < i then d[j] else d[j + 1];
      if k' != k {
        var j := IndexOf(d, k');
        IndexOfIs(r, k', if j < i then j else j - 1);
      }
    }
  }

  /** With unique keys, `del d[k]` of a present key drops exactly one entry. */
  lemma DeleteDropsOneEntry<K, V>(d: seq<(K, V)>, k: K)
    requires UniqueKeys(d)
    ensures |Delete(d, k)| == if Get(d, k).Some? then |d| - 1 else |d|
    ensures forall e :: e in Delete(d, k) <==> e in d && e.0 != k
  {
    var i := IndexOf(d, k);
    if i < |d| {
      var r := Delete(d, k);
      assert forall j :: 0 <= j < |r| ==> r[j] == if j < i then d[j] else d[j + 1];
      forall e | e in d && e.0 != k ensures e in r {
        var j :| 0 <= j < |d| && d[j] == e;
        assert r[if j < i then j else j - 1] == e;
      }
    }
  }

  /** The entry at position `i` is what `Get` finds for its key. */
  lemma GetOfEntry<K, V>(d: seq<(K, V)>, i: nat)
    requires UniqueKeys(d) && i < |d|
    ensures Get(d, d[i].0) == Some(d[i].1)
  {
    IndexOfIs(d, d[i].0, i);
  }

  /** A value occurs in `d.values()` exactly when some key maps to it. */
  lemma ValueBound<K, V>(d: seq<(K, V)>, v: V)
    requires UniqueKeys(d)
    ensures v in Values(d) <==> exists k :: Get(d, k) == Some(v)
  {
    if v in Values(d) {
      var i :| 0 <= i < |d| && Values(d)[i] == v;
      GetOfEntry(d, i);
    }
  }

  /** `d.values()` after `d[k] = v`: a new key adds `v` at the end, an
      existing key has its value replaced where it stands. */
  lemma ValuesAfterPut<K, V>(d: seq<(K, V)>, k: K, v: V)
    ensures Get(d, k).None? ==> Values(Put(d, k, v)) == Values(d) + [v]
    ensures Get(d, k).Some? ==> Values(Put(d, k, v)) == Values(d)[IndexOf(d, k) := v]
  {
  }

  lemma PutKeepsKeysUnique<K, V>(d: seq<(K, V)>, k: K, v: V)
    requires UniqueKeys(d)
    ensures UniqueKeys(Put(d, k, v))
  {
  }

  lemma DeleteKeepsKeysUnique<K, V>(d: seq<(K, V)>, k: K)
    requires UniqueKeys(d)
    ensures UniqueKeys(Delete(d, k))
  {
    var i := IndexOf(d, k);
    if i < |d| {
      var r := Delete(d, k);
      assert forall j :: 0 <= j < |r| ==> r[j] == if j < i then d[j] else d[j + 1];
    }
  }

  /** Binding a value that no key has yet keeps the values free of repetitions. */
  lemma PutKeepsValuesUnique<K, V>(d: seq<(K, V)>, k: K, v: V)
    requires NoDup(Values(d)) && v !in Values(d)
    ensures NoDup(Values(Put(d, k, v)))
  {
    ValuesAfterPut(d, k, v);
  }

  lemma ValuesRemoveAt<K, V>(d: seq<(K, V)>, i: nat)
    requires i < |d|
    ensures Values(d[..i] + d[i + 1..]) == Values(d)[..i] + Values(d)[i + 1..]
  {
    var r := d[..i] + d[i + 1..];
    var vs := Values(d);
    var t := vs[..i] + vs[i + 1..];
    forall j | 0 <= j < |r| ensures Values(r)[j] == t[j] {
      if j < i {
        assert r[j] == d[j] && t[j] == vs[j];
      } else {
        assert r[j] == d[j + 1] && t[j] == vs[j + 1];
      }
    }
  }

  /** `d.values()` after `del d[k]`: the deleted entry's value drops out,
      the others keep their order. */
  lemma ValuesAfterDelete<K, V>(d: seq<(K, V)>, k: K)
    ensures Get(d, k).None? ==> Values(Delete(d, k)) == Values(d)
    ensures Get(d, k).Some? ==>
      var i := IndexOf(d, k); Values(Delete(d, k)) == Values(d)[..i] + Values(d)[i + 1..]
  {
    var i := IndexOf(d, k);
    if i < |d| {
      assert Delete(d, k) == d[..i] + d[i + 1..];
      ValuesRemoveAt(d, i);
    } else {
      assert Delete(d, k) == d;
    }
  }

  /** Deleting a key keeps the values free of repetitions. */
  lemma DeleteKeepsValuesUnique<K, V>(d: seq<(K, V)>, k: K)
    requires NoDup(Values(d))
    ensures NoDup(Values(Delete(d, k)))
  {
    ValuesAfterDelete(d, k);
    if Get(d, k).Some? {
      NoDupRemoveAt(Values(d), IndexOf(d, k));
    }
  }
}
