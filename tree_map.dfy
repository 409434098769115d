/** java.util.TreeMap with int keys, as the list of its entries in iteration
    order: keys strictly ascending, one entry per key. */
module TreeMap {
  import opened JavaLang

  /** Iteration order of a TreeMap: keys strictly ascending. */
  predicate Ascending<V>(m: seq<(int32, V)>)
  {
    forall i, j :: 0 <= i < j < |m| ==> m[i].0 < m[j].0
  }

  function Keys<V>(m: seq<(int32, V)>): set<int32>
  {
    if m == [] then {} else {m[0].0} + Keys(m[1..])
  }

  /** The keys are exactly the first components of the entries. */
  lemma {:induction false} KeysAt<V>(m: seq<(int32, V)>, x: int32)
    ensures x in Keys(m) <==> exists i :: 0 <= i < |m| && m[i].0 == x
  {
    if m != [] {
      KeysAt(m[1..], x);
      if exists i :: 0 <= i < |m| && m[i].0 == x {
        var i :| 0 <= i < |m| && m[i].0 == x;
        if i > 0 { assert m[1..][i - 1] == m[i]; }
      }
    }
  }

  /** TreeMap.get, with None for a key that is absent. */
  function Get<V>(m: seq<(int32, V)>, k: int32): (r: Option<V>)
    ensures r.Some? ==> (k, r.value) in m
    ensures r.None? ==> forall i :: 0 <= i < |m| ==> m[i].0 != k
  {
    if m == [] then None else if m[0].0 == k then Some(m[0].1) else Get(m[1..], k)
  }

  /** TreeMap.put: the entry goes in key order; an existing key keeps its
      place and takes the new value. */
  function Put<V>(m: seq<(int32, V)>, k: int32, v: V): (r: seq<(int32, V)>)
    ensures |m| <= |r| <= |m| + 1
  {
    if m == [] then [(k, v)]
    else if k < m[0].0 then [(k, v)] + m
    else if k == m[0].0 then [(k, v)] + m[1..]
    else [m[0]] + Put(m[1..], k, v)
  }

  /** put adds no entry other than the one it is given. */
  lemma {:induction false} PutEntries<V>(m: seq<(int32, V)>, k: int32, v: V)
    ensures forall e :: e in Put(m, k, v) ==> e in m || e == (k, v)
  {
    if m != [] && k > m[0].0 {
      PutEntries(m[1..], k, v);
      assert Put(m, k, v) == [m[0]] + Put(m[1..], k, v);
    }
  }

  lemma {:induction false} PutKeys<V>(m: seq<(int32, V)>, k: int32, v: V)
    ensures Keys(Put(m, k, v)) == Keys(m) + {k}
  {
    if m != [] && k > m[0].0 {
      PutKeys(m[1..], k, v);
    }
  }

  lemma {:induction false} PutAbove<V>(m: seq<(int32, V)>, k: int32, v: V, lo: int32)
    requires lo < k && forall i :: 0 <= i < |m| ==> lo < m[i].0
    ensures forall i :: 0 <= i < |Put(m, k, v)| ==> lo < Put(m, k, v)[i].0
  {
    if m != [] && k > m[0].0 {
      PutAbove(m[1..], k, v, lo);
    }
  }

  /** put keeps the entries in strictly ascending key order. */
  lemma {:induction false} PutAscending<V>(m: seq<(int32, V)>, k: int32, v: V)
    requires Ascending(m)
    ensures Ascending(Put(m, k, v))
  {
    if m != [] && k > m[0].0 {
      var t := Put(m[1..], k, v);
      PutAscending(m[1..], k, v);
      PutAbove(m[1..], k, v, m[0].0);
      assert Put(m, k, v) == [m[0]] + t;
    }
  }

  /** After put, get finds the new value under its key and the old values
      under every other key: a later put of the same key replaces the earlier. */
  lemma {:induction false} PutGet<V>(m: seq<(int32, V)>, k: int32, v: V, j: int32)
    requires Ascending(m)
    ensures Get(Put(m, k, v), j) == if j == k then Some(v) else Get(m, j)
  {
    if m != [] {
      if k > m[0].0 {
        PutGet(m[1..], k, v, j);
      } else if k == m[0].0 && j != k {
        assert Get(m, j) == Get(m[1..], j);
      }
    }
  }

  /** Every key that get finds is a key of the map, and conversely. */
  lemma {:induction false} GetKeys<V>(m: seq<(int32, V)>, k: int32)
    ensures Get(m, k).Some? <==> k in Keys(m)
  {
    if m != [] {
      GetKeys(m[1..], k);
    }
  }
}
