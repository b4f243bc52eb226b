/** Insertion-ordered maps from strings, as association lists: the model of a
    JavaScript `Map` and of the own string keys of a plain object. */
module Assoc {
  import opened Wrappers

  /** The value of the first entry with key `key`. */
  function Lookup<V>(m: seq<(string, V)>, key: string): (r: Option<V>)
    ensures r.Some? <==> exists i :: 0 <= i < |m| && m[i].0 == key
    ensures r.Some? ==> exists i :: 0 <= i < |m| && m[i] == (key, r.value)
  {
    if m == [] then None
    else if m[0].0 == key then Some(m[0].1)
    else
      var r := Lookup(m[1..], key);
      assert forall i :: 1 <= i < |m| ==> m[i] == m[1..][i - 1];
      assert r.Some? ==> exists i :: 0 <= i < |m| - 1 && m[1..][i] == (key, r.value);
      r
  }

  /** `map.set(key, v)` and `obj[key] = v`: an existing key keeps its place
      and takes the new value, a new key is appended at the end. */
  function Put<V>(m: seq<(string, V)>, key: string, v: V): (r: seq<(string, V)>)
    ensures Lookup(r, key) == Some(v)
    ensures forall k :: k != key ==> Lookup(r, k) == Lookup(m, k)
    ensures forall i :: 0 <= i < |r| ==> r[i] == (key, v) || r[i] in m
    ensures forall i :: 0 <= i < |m| ==> m[i].0 == key || m[i] in r
    ensures |m| <= |r| <= |m| + 1
  {
    if m == [] then [(key, v)]
    else if m[0].0 == key then [(key, v)] + m[1..]
    else
      var rest := Put(m[1..], key, v);
      assert forall i :: 1 <= i < |m| ==> m[i] == m[1..][i - 1];
      [m[0]] + rest
  }

  /** No key occurs twice. */
  predicate DistinctKeys<V>(m: seq<(string, V)>) {
    forall i, j :: 0 <= i < j < |m| ==> m[i].0 != m[j].0
  }

  /** `Put` keeps the keys distinct, and the written key then carries the
      written value wherever it stands. */
  lemma {:induction false} PutDistinct<V>(m: seq<(string, V)>, key: string, v: V)
    requires DistinctKeys(m)
    ensures DistinctKeys(Put(m, key, v))
  {
    if m != [] && m[0].0 != key {
      var tail := m[1..];
      assert DistinctKeys(tail) by {
        forall i, j | 0 <= i < j < |tail|
          ensures tail[i].0 != tail[j].0
        {
          assert tail[i] == m[i + 1] && tail[j] == m[j + 1];
        }
      }
      PutDistinct(tail, key, v);
      var rest := Put(tail, key, v);
      assert Lookup(tail, m[0].0).None? by {
        forall i | 0 <= i < |tail|
          ensures tail[i].0 != m[0].0
        {
          assert tail[i] == m[i + 1];
        }
      }
      ConsDistinct(m[0], rest);
    }
  }

  /** An entry whose key the rest does not hold can go in front. */
  lemma ConsDistinct<V>(e: (string, V), m: seq<(string, V)>)
    requires DistinctKeys(m) && Lookup(m, e.0).None?
    ensures DistinctKeys([e] + m)
  {
    var r := [e] + m;
    forall i, j | 0 <= i < j < |r|
      ensures r[i].0 != r[j].0
    {
      assert r[j] == m[j - 1];
      if i > 0 {
        assert r[i] == m[i - 1];
      }
    }
  }

  /** In a map with distinct keys every entry is what `Lookup` finds. */
  lemma {:induction false} LookupEntry<V>(m: seq<(string, V)>, i: nat)
    requires DistinctKeys(m) && i < |m|
    ensures Lookup(m, m[i].0) == Some(m[i].1)
  {
    if i > 0 {
      LookupEntry(m[1..], i - 1);
    }
  }

  /** The map after a sequence of `set` calls, in order. */
  function PutAll<V>(m: seq<(string, V)>, writes: seq<(string, V)>): seq<(string, V)>
    decreases |writes|
  {
    if writes == [] then m else PutAll(Put(m, writes[0].0, writes[0].1), writes[1..])
  }

  lemma {:induction false} PutAllAppend<V>(m: seq<(string, V)>, a: seq<(string, V)>, b: seq<(string, V)>)
    ensures PutAll(m, a + b) == PutAll(PutAll(m, a), b)
    decreases |a|
  {
    if a == [] {
      assert a + b == b;
    } else {
      assert (a + b)[0] == a[0] && (a + b)[1..] == a[1..] + b;
      PutAllAppend(Put(m, a[0].0, a[0].1), a[1..], b);
    }
  }

  /** After a sequence of writes every entry comes from the map or from a
      write, and every written key is present. */
  lemma {:induction false} PutAllEntries<V>(m: seq<(string, V)>, writes: seq<(string, V)>)
    ensures forall e :: e in PutAll(m, writes) ==> e in m || e in writes
    ensures forall e :: e in writes ==> Lookup(PutAll(m, writes), e.0).Some?
    ensures forall e :: e in m ==> Lookup(PutAll(m, writes), e.0).Some?
    decreases |writes|
  {
    if writes != [] {
      var m' := Put(m, writes[0].0, writes[0].1);
      PutAllEntries(m', writes[1..]);
      forall e | e in m
        ensures Lookup(PutAll(m, writes), e.0).Some?
      {
        var i :| 0 <= i < |m| && m[i] == e;
        if e.0 != writes[0].0 {
          assert e in m';
        } else {
          assert Lookup(m', e.0).Some?;
          var j :| 0 <= j < |m'| && m'[j].0 == e.0;
          assert m'[j] in m';
        }
      }
      var w0 := writes[0];
      assert Lookup(m', w0.0) == Some(w0.1);
      var j :| 0 <= j < |m'| && m'[j] == (w0.0, w0.1);
      assert m'[j] in m';
    }
  }
}
