/**
 * String-keyed records whose keys keep their insertion order, as a JavaScript
 * object's own string keys do (`Record<string, V>`).  Assigning `obj[k] = v`
 * replaces the value of an existing key in place and appends a new key at the
 * end; `delete obj[k]` drops the key.
 */
module Dicts {
  import opened Wrappers

  type Dict<V> = seq<(string, V)>

  /** The keys in order (what `Object.keys` gives). */
  function Keys<V>(d: Dict<V>): (ks: seq<string>)
    ensures |ks| == |d|
  {
    if d == [] then [] else [d[0].0] + Keys(d[1..])
  }

  function KeySet<V>(d: Dict<V>): set<string> {
    set i | 0 <= i < |d| :: d[i].0
  }

  /** No key occurs twice, as in every JavaScript object. */
  predicate UniqueKeys<V>(d: Dict<V>) {
    forall i, j :: 0 <= i < j < |d| ==> d[i].0 != d[j].0
  }

  lemma KeySetCons<V>(d: Dict<V>)
    requires d != []
    ensures KeySet(d) == {d[0].0} + KeySet(d[1..])
  {
    forall x ensures x in KeySet(d) <==> x in {d[0].0} + KeySet(d[1..]) {
      if x in KeySet(d) {
        var i :| 0 <= i < |d| && d[i].0 == x;
        if i > 0 { assert d[1..][i - 1].0 == x; }
      }
      if x in KeySet(d[1..]) {
        var i :| 0 <= i < |d[1..]| && d[1..][i].0 == x;
        assert d[i + 1].0 == x;
      }
    }
  }

  lemma KeySetSnoc<V>(d: Dict<V>)
    requires d != []
    ensures KeySet(d) == KeySet(d[..|d| - 1]) + {d[|d| - 1].0}
  {
    forall x ensures x in KeySet(d) <==> x in KeySet(d[..|d| - 1]) + {d[|d| - 1].0} {
      if x in KeySet(d) {
        var i :| 0 <= i < |d| && d[i].0 == x;
        if i < |d| - 1 { assert d[..|d| - 1][i].0 == x; }
      }
      if x in KeySet(d[..|d| - 1]) {
        var i :| 0 <= i < |d| - 1 && d[..|d| - 1][i].0 == x;
        assert d[i].0 == x;
      }
    }
  }

  /** `obj[k]`: the value of the first entry with key `k`, or `None` (undefined). */
  function Lookup<V(==)>(d: Dict<V>, k: string): (r: Option<V>)
    ensures r.Some? <==> k in KeySet(d)
    ensures r.Some? ==> exists i :: 0 <= i < |d| && d[i] == (k, r.value)
  {
    if d == [] then None
    else if d[0].0 == k then Some(d[0].1)
    else
      var r := Lookup(d[1..], k);
      KeySetCons(d);
      if r.Some? then
        var i :| 0 <= i < |d[1..]| && d[1..][i] == (k, r.value);
        assert d[i + 1] == (k, r.value);
        r
      else r
  }

  /** `obj[k] = v`: the value of an existing key is replaced where it stands; a new key goes last. */
  function Put<V(==)>(d: Dict<V>, k: string, v: V): (r: Dict<V>)
    ensures Lookup(r, k) == Some(v)
    ensures forall k' :: k' != k ==> Lookup(r, k') == Lookup(d, k')
  {
    if d == [] then [(k, v)]
    else if d[0].0 == k then [(k, v)] + d[1..]
    else
      var t := Put(d[1..], k, v);
      ConsLookup(d[0], t);
      ConsLookup(d[0], d[1..]);
      assert [d[0]] + d[1..] == d;
      [d[0]] + t
  }

  /** Assignment keeps the order of the keys and appends a new one. */
  lemma {:induction false} PutKeys<V>(d: Dict<V>, k: string, v: V)
    ensures Keys(Put(d, k, v)) == if k in KeySet(d) then Keys(d) else Keys(d) + [k]
  {
    if d != [] {
      var r := Put(d, k, v);
      assert Keys(d) == [d[0].0] + Keys(d[1..]) by {
        ConsKeys(d[0], d[1..]);
        assert [d[0]] + d[1..] == d;
      }
      assert k in KeySet(d) <==> d[0].0 == k || k in KeySet(d[1..]) by {
        KeySetCons(d);
      }
      if d[0].0 == k {
        assert Keys(r) == [k] + Keys(d[1..]) by {
          ConsKeys((k, v), d[1..]);
        }
      } else {
        var t := Put(d[1..], k, v);
        assert Keys(r) == [d[0].0] + Keys(t) by {
          ConsKeys(d[0], t);
        }
        PutKeys(d[1..], k, v);
        if k !in KeySet(d[1..]) {
          assert [d[0].0] + (Keys(d[1..]) + [k]) == [d[0].0] + Keys(d[1..]) + [k];
        }
      }
    }
  }

  lemma {:induction false} KeysAt<V>(d: Dict<V>, i: nat)
    requires i < |d|
    ensures Keys(d)[i] == d[i].0
  {
    if i > 0 {
      KeysAt(d[1..], i - 1);
    }
  }

  lemma ConsKeys<V>(x: (string, V), d: Dict<V>)
    ensures Keys([x] + d) == [x.0] + Keys(d)
  {
    assert ([x] + d)[1..] == d;
  }

  /** Reading a record with one more entry in front. */
  lemma ConsLookup<V>(x: (string, V), d: Dict<V>)
    ensures forall k :: Lookup([x] + d, k) == if x.0 == k then Some(x.1) else Lookup(d, k)
  {
    assert ([x] + d)[0] == x && ([x] + d)[1..] == d;
  }

  /** `delete obj[k]`: the key is gone, every other key and the order of the rest are kept. */
  function Remove<V(==)>(d: Dict<V>, k: string): (r: Dict<V>)
    ensures Lookup(r, k) == None
    ensures forall k' :: k' != k ==> Lookup(r, k') == Lookup(d, k')
    ensures forall i :: 0 <= i < |r| ==> r[i].0 != k
  {
    if d == [] then []
    else if d[0].0 == k then Remove(d[1..], k)
    else
      var r := [d[0]] + Remove(d[1..], k);
      assert r[1..] == Remove(d[1..], k);
      r
  }

  /** Prepending an entry whose key the rest lacks keeps keys unique. */
  lemma UniqueKeysCons<V>(x: (string, V), d: Dict<V>)
    requires UniqueKeys(d) && x.0 !in KeySet(d)
    ensures UniqueKeys([x] + d)
  {
    var r := [x] + d;
    forall i, j | 0 <= i < j < |r| ensures r[i].0 != r[j].0 {
      assert r[j] == d[j - 1];
      if i > 0 { assert r[i] == d[i - 1]; }
    }
  }

  lemma {:induction false} PutKeepsUniqueKeys<V>(d: Dict<V>, k: string, v: V)
    requires UniqueKeys(d)
    ensures UniqueKeys(Put(d, k, v))
  {
    if d != [] {
      UniqueKeysDrop(d, 0);
      if d[0].0 == k {
        UniqueKeysCons((k, v), d[1..]);
      } else {
        var t := Put(d[1..], k, v);
        PutKeepsUniqueKeys(d[1..], k, v);
        assert Lookup(t, d[0].0) == Lookup(d[1..], d[0].0) == None;
        UniqueKeysCons(d[0], t);
      }
    }
  }

  /** Assigning the value a key already holds changes nothing. */
  lemma {:induction false} PutExisting<V>(d: Dict<V>, k: string)
    requires Lookup(d, k).Some?
    ensures Put(d, k, Lookup(d, k).value) == d
  {
    if d[0].0 != k {
      PutExisting(d[1..], k);
    }
  }

  /** Assigning twice to one key is assigning once, with the later value. */
  lemma {:induction false} PutPut<V>(d: Dict<V>, k: string, v: V, w: V)
    ensures Put(Put(d, k, v), k, w) == Put(d, k, w)
  {
    if d != [] && d[0].0 != k {
      PutPut(d[1..], k, v, w);
    }
  }

  /** A key reads the value of its first entry: no earlier entry has that key. */
  lemma {:induction false} LookupFirst<V>(d: Dict<V>, k: string) returns (i: nat)
    requires Lookup(d, k).Some?
    ensures i < |d| && d[i] == (k, Lookup(d, k).value)
    ensures forall j :: 0 <= j < i ==> d[j].0 != k
  {
    if d[0].0 == k {
      i := 0;
    } else {
      var i' := LookupFirst(d[1..], k);
      i := i' + 1;
      forall j | 0 <= j < i ensures d[j].0 != k {
        if j > 0 { assert d[j] == d[1..][j - 1]; }
      }
    }
  }

  /** In a record without repeated keys, each entry is what its key reads. */
  lemma {:induction false} LookupUnique<V>(d: Dict<V>, i: nat)
    requires UniqueKeys(d) && i < |d|
    ensures Lookup(d, d[i].0) == Some(d[i].1)
  {
    if i > 0 {
      assert d[0].0 != d[i].0;
      assert d[1..][i - 1] == d[i];
      LookupUnique(d[1..], i - 1);
    }
  }

  /** Deleting a key twice is deleting it once. */
  lemma {:induction false} RemoveRemove<V>(d: Dict<V>, k: string)
    ensures Remove(Remove(d, k), k) == Remove(d, k)
  {
    if d != [] {
      RemoveRemove(d[1..], k);
      if d[0].0 != k {
        assert Remove(d, k)[1..] == Remove(d[1..], k);
      }
    }
  }

  /** A suffix of a record without repeated keys has none, and misses the key just before it. */
  lemma UniqueKeysDrop<V>(d: Dict<V>, i: nat)
    requires UniqueKeys(d) && i < |d|
    ensures UniqueKeys(d[i..]) && UniqueKeys(d[i + 1..])
    ensures d[i].0 !in KeySet(d[i + 1..])
  {
    var tail := d[i + 1..];
    forall j | 0 <= j < |tail| ensures tail[j].0 != d[i].0 {
      assert tail[j] == d[i + 1 + j];
    }
  }

  /** The value of the last entry with key `k`: what a later assignment leaves behind. */
  function LookupLast<V>(d: Dict<V>, k: string): (r: Option<V>)
    ensures r.Some? <==> k in KeySet(d)
    decreases |d|
  {
    if d == [] then None
    else if d[|d| - 1].0 == k then Some(d[|d| - 1].1)
    else
      KeySetSnoc(d);
      LookupLast(d[..|d| - 1], k)
  }

  /** Assigning the pairs one after another, in order, onto `acc`. */
  function PutAll<V(==)>(acc: Dict<V>, pairs: Dict<V>): Dict<V>
    decreases |pairs|
  {
    if pairs == [] then acc
    else Put(PutAll(acc, pairs[..|pairs| - 1]), pairs[|pairs| - 1].0, pairs[|pairs| - 1].1)
  }

  /** After assigning a list of pairs, a key holds its last assigned value, or what it held before. */
  lemma {:induction false} PutAllLookup<V>(acc: Dict<V>, pairs: Dict<V>, k: string)
    ensures Lookup(PutAll(acc, pairs), k) == if k in KeySet(pairs) then LookupLast(pairs, k) else Lookup(acc, k)
    decreases |pairs|
  {
    if pairs != [] {
      var init := pairs[..|pairs| - 1];
      PutAllLookup(acc, init, k);
      KeySetSnoc(pairs);
    }
  }

  /** In a record without repeated keys the last entry of a key is its only one. */
  lemma {:induction false} LookupLastUnique<V>(d: Dict<V>, i: nat)
    requires UniqueKeys(d) && i < |d|
    ensures LookupLast(d, d[i].0) == Some(d[i].1)
    decreases |d|
  {
    if i < |d| - 1 {
      assert d[|d| - 1].0 != d[i].0;
      assert d[..|d| - 1][i] == d[i];
      LookupLastUnique(d[..|d| - 1], i);
    }
  }
}
