/**
 Python dictionaries: a finite map together with the insertion order of its
 keys. Assigning to an existing key keeps its position; a new key goes last;
 `pop`/`del` remove a key and keep the order of the others.
 */
module Dicts {
  import opened Wrappers

  predicate Distinct<T(==)>(s: seq<T>)
  {
    forall i, j :: 0 <= i < j < |s| ==> s[i] != s[j]
  }

  /** `s` without any occurrence of `x`, other elements in their order. */
  function Without<T(==,!new)>(s: seq<T>, x: T): (r: seq<T>)
    ensures forall y :: y in r <==> y in s && y != x
    ensures Distinct(s) ==> Distinct(r)
    ensures x !in s ==> r == s
    ensures |r| <= |s|
  {
    if |s| == 0 then []
    else if s[0] == x then Without(s[1..], x)
    else
      var rest := Without(s[1..], x);
      assert Distinct(s) ==> s[0] !in rest;
      assert x !in s ==> s == [s[0]] + s[1..];
      [s[0]] + rest
  }

  datatype Dict<K(==,!new), V> = Dict(keys: seq<K>, entries: map<K, V>)
  {
    ghost predicate Valid()
    {
      && Distinct(keys)
      && (forall k :: k in entries <==> k in keys)
    }

    predicate Has(k: K) { k in entries }

    function Get(k: K): (r: Option<V>)
      ensures r.Some? <==> k in entries
      ensures r.Some? ==> r.value == entries[k]
    {
      if k in entries then Some(entries[k]) else None
    }

    /** `d[k] = v`. */
    function Put(k: K, v: V): (d: Dict<K, V>)
      requires Valid()
      ensures d.Valid()
      ensures d.Get(k) == Some(v)
      ensures forall k' :: k' != k ==> d.Get(k') == Get(k')
      ensures k in keys ==> d.keys == keys
      ensures k !in keys ==> d.keys == keys + [k]
    {
      if k in keys then Dict(keys, entries[k := v])
      else
        assert Distinct(keys + [k]);
        Dict(keys + [k], entries[k := v])
    }

    /** `d.pop(k, None)`. */
    function Remove(k: K): (d: Dict<K, V>)
      requires Valid()
      ensures d.Valid()
      ensures d.Get(k) == None
      ensures forall k' :: k' != k ==> d.Get(k') == Get(k')
      ensures d.keys == Without(keys, k)
    {
      Dict(Without(keys, k), entries - {k})
    }

    /** `list(d.values())`, in key order. */
    function Values(): (r: seq<V>)
      requires Valid()
      ensures |r| == |keys|
      ensures forall i :: 0 <= i < |keys| ==> r[i] == entries[keys[i]]
    {
      seq(|keys|, i requires 0 <= i < |keys| => entries[keys[i]])
    }

    function Size(): nat { |keys| }
  }

  function Empty<K(==,!new), V>(): (d: Dict<K, V>)
    ensures d.Valid() && d.keys == [] && d.entries == map[]
  {
    Dict([], map[])
  }

  /** `dict(pairs)`: keys in order of first appearance, the last value for each key. */
  function FromPairs<K(==,!new), V>(pairs: seq<(K, V)>): (d: Dict<K, V>)
    ensures d.Valid()
    ensures forall i :: 0 <= i < |pairs| ==> pairs[i].0 in d.entries
    ensures forall k :: k in d.entries ==> exists i :: 0 <= i < |pairs| && pairs[i] == (k, d.entries[k])
    ensures forall i :: 0 <= i < |pairs| && (forall j :: i < j < |pairs| ==> pairs[j].0 != pairs[i].0) ==>
              d.Get(pairs[i].0) == Some(pairs[i].1)
    decreases |pairs|
  {
    if |pairs| == 0 then Empty()
    else
      var prev := FromPairs(pairs[..|pairs| - 1]);
      var d := prev.Put(pairs[|pairs| - 1].0, pairs[|pairs| - 1].1);
      FromPairsSnoc(pairs, prev, d);
      d
  }

  /** The step of `FromPairs`: what holds of the pairs but the last carries
      over once the last pair is stored. */
  lemma FromPairsSnoc<K(!new), V>(pairs: seq<(K, V)>, prev: Dict<K, V>, d: Dict<K, V>)
    requires |pairs| > 0 && prev.Valid()
    requires var init := pairs[..|pairs| - 1];
             && (forall i :: 0 <= i < |init| ==> init[i].0 in prev.entries)
             && (forall k :: k in prev.entries ==> exists i :: 0 <= i < |init| && init[i] == (k, prev.entries[k]))
             && (forall i :: 0 <= i < |init| && (forall j :: i < j < |init| ==> init[j].0 != init[i].0) ==>
                   prev.Get(init[i].0) == Some(init[i].1))
    requires d == prev.Put(pairs[|pairs| - 1].0, pairs[|pairs| - 1].1)
    ensures forall i :: 0 <= i < |pairs| ==> pairs[i].0 in d.entries
    ensures forall k :: k in d.entries ==> exists i :: 0 <= i < |pairs| && pairs[i] == (k, d.entries[k])
    ensures forall i :: 0 <= i < |pairs| && (forall j :: i < j < |pairs| ==> pairs[j].0 != pairs[i].0) ==>
              d.Get(pairs[i].0) == Some(pairs[i].1)
  {
    var init := pairs[..|pairs| - 1];
    var last := pairs[|pairs| - 1];
    forall k | k in d.entries ensures exists i :: 0 <= i < |pairs| && pairs[i] == (k, d.entries[k]) {
      if k != last.0 {
        var i :| 0 <= i < |init| && init[i] == (k, prev.entries[k]);
        assert pairs[i] == (k, d.entries[k]);
      } else {
        assert pairs[|pairs| - 1] == (k, d.entries[k]);
      }
    }
    forall i | 0 <= i < |pairs| && (forall j :: i < j < |pairs| ==> pairs[j].0 != pairs[i].0)
      ensures d.Get(pairs[i].0) == Some(pairs[i].1)
    {
      if i < |pairs| - 1 {
        assert init[i] == pairs[i];
        forall j | i < j < |init| ensures init[j].0 != init[i].0 {
          assert init[j] == pairs[j];
        }
      }
    }
    forall i | 0 <= i < |pairs| ensures pairs[i].0 in d.entries {
      if i < |pairs| - 1 { assert init[i] == pairs[i]; }
    }
  }

  /** The first key, in insertion order, whose value is `v`: the lookup
      `next(k for k, n in d.items() if n == v)`. */
  function FirstKeyOf<K(==,!new), V(==)>(d: Dict<K, V>, v: V): (r: Option<K>)
    requires d.Valid()
    ensures r.Some? ==> r.value in d.entries && d.entries[r.value] == v
    ensures r.Some? ==> forall i :: 0 <= i < |d.keys| && d.keys[i] == r.value ==>
                          forall j :: 0 <= j < i ==> d.entries[d.keys[j]] != v
    ensures r.None? <==> forall k :: k in d.entries ==> d.entries[k] != v
  {
    FirstIn(d.keys, d.entries, v)
  }

  function FirstIn<K(==,!new), V(==)>(ks: seq<K>, m: map<K, V>, v: V): (r: Option<K>)
    requires forall k :: k in ks ==> k in m
    ensures r.Some? ==> r.value in ks && m[r.value] == v
    ensures r.Some? ==> exists i :: 0 <= i < |ks| && ks[i] == r.value
                           && forall j :: 0 <= j < i ==> m[ks[j]] != v
    ensures r.None? <==> forall i :: 0 <= i < |ks| ==> m[ks[i]] != v
  {
    if |ks| == 0 then None
    else if m[ks[0]] == v then Some(ks[0])
    else
      var r := FirstIn(ks[1..], m, v);
      assert r.Some? ==> exists i :: 0 <= i < |ks| && ks[i] == r.value
                           && forall j :: 0 <= j < i ==> m[ks[j]] != v by {
        if r.Some? {
          var i :| 0 <= i < |ks[1..]| && ks[1..][i] == r.value
                   && forall j :: 0 <= j < i ==> m[ks[1..][j]] != v;
          assert ks[i + 1] == r.value;
          forall j | 0 <= j < i + 1 ensures m[ks[j]] != v {
            if j > 0 { assert ks[j] == ks[1..][j - 1]; }
          }
        }
      }
      assert r.None? ==> forall i :: 0 <= i < |ks| ==> m[ks[i]] != v by {
        if r.None? {
          forall i | 0 <= i < |ks| ensures m[ks[i]] != v {
            if i > 0 { assert ks[i] == ks[1..][i - 1]; }
          }
        }
      }
      r
  }

  /** The dictionary comprehension `{k: f(v) for k, v in d.items()}`. */
  function MapValues<K(==,!new), V, W>(d: Dict<K, V>, f: V -> W): (r: Dict<K, W>)
    requires d.Valid()
    ensures r.Valid() && r.keys == d.keys
    ensures forall k :: k in d.entries ==> k in r.entries && r.entries[k] == f(d.entries[k])
    ensures forall k :: k in r.entries ==> k in d.entries
  {
    Dict(d.keys, map k | k in d.entries :: f(d.entries[k]))
  }

  /** `d.pop(k, None)` for every key of `ks` in turn. */
  function RemoveAll<K(==,!new), V>(d: Dict<K, V>, ks: seq<K>): (r: Dict<K, V>)
    requires d.Valid()
    ensures r.Valid()
    ensures forall k :: k in ks ==> r.Get(k) == None
    ensures forall k :: k !in ks ==> r.Get(k) == d.Get(k)
    ensures forall k :: k in r.keys ==> k in d.keys
    decreases |ks|
  {
    if |ks| == 0 then d else RemoveAll(d.Remove(ks[0]), ks[1..])
  }
}
