/**
  A JavaScript object used as a dictionary. `Object.keys`, `Object.values` and
  `Object.entries` enumerate its keys in insertion order; assigning to a key that
  is already present overwrites the value and keeps the key where it was.
 */
module Dicts {
  import opened Options

  datatype Dict<K(==, !new), V> = Dict(keys: seq<K>, vals: map<K, V>) {

    /** The keys are distinct and are exactly the keys that hold a value. */
    ghost predicate Valid() {
      && (forall i, j :: 0 <= i < j < |keys| ==> keys[i] != keys[j])
      && (forall k :: k in vals <==> k in keys)
    }

    /** `obj[k] = v`. */
    function Put(k: K, v: V): (d: Dict<K, V>)
      requires Valid()
      ensures d.Valid()
      ensures d.vals.Keys == vals.Keys + {k}
      ensures |d.keys| == |keys| + (if k in vals then 0 else 1) && keys <= d.keys
    {
      if k in vals then Dict(keys, vals[k := v]) else Dict(keys + [k], vals[k := v])
    }

    /** `obj[k]`, where a missing key reads as `undefined`. */
    function Get(k: K): Option<V> {
      if k in vals then Some(vals[k]) else None
    }

    /** `Object.values(obj)`. */
    function Values(): (vs: seq<V>)
      requires Valid()
      ensures |vs| == |keys|
      ensures forall i :: 0 <= i < |keys| ==> keys[i] in vals && vs[i] == vals[keys[i]]
    {
      seq(|keys|, i requires 0 <= i < |keys| => vals[keys[i]])
    }

    /** `Object.entries(obj)`. */
    function Entries(): (es: seq<(K, V)>)
      requires Valid()
      ensures |es| == |keys|
      ensures forall i :: 0 <= i < |keys| ==> keys[i] in vals && es[i] == (keys[i], vals[keys[i]])
    {
      seq(|keys|, i requires 0 <= i < |keys| => (keys[i], vals[keys[i]]))
    }
  }

  /** `{}`. */
  function Empty<K(==, !new), V>(): (d: Dict<K, V>)
    ensures d.Valid() && d.keys == [] && d.vals == map[]
  {
    Dict([], map[])
  }

  /** The object after assigning every pair of `kvs` to it, first to last. */
  function PutAll<K(==, !new), V>(d: Dict<K, V>, kvs: seq<(K, V)>): (r: Dict<K, V>)
    requires d.Valid()
    ensures r.Valid()
    decreases |kvs|
  {
    if kvs == [] then d
    else PutAll(d, kvs[..|kvs| - 1]).Put(kvs[|kvs| - 1].0, kvs[|kvs| - 1].1)
  }

  /** The value of the last pair of `kvs` whose key is `k`: the one a sequence of assignments leaves behind. */
  function LastWrite<K(==, !new), V>(kvs: seq<(K, V)>, k: K): Option<V>
    decreases |kvs|
  {
    if kvs == [] then None
    else if kvs[|kvs| - 1].0 == k then Some(kvs[|kvs| - 1].1)
    else LastWrite(kvs[..|kvs| - 1], k)
  }

  /** The keys of `kvs` are pairwise distinct, as those of a JavaScript object's entries are. */
  ghost predicate DistinctKeys<K(!new), V>(kvs: seq<(K, V)>) {
    forall i, j :: 0 <= i < j < |kvs| ==> kvs[i].0 != kvs[j].0
  }

  /** Last writer wins: after the assignments, `k` holds the value written last, or its old value if `kvs` never writes it. */
  lemma {:induction false} PutAllLookup<K(!new), V>(d: Dict<K, V>, kvs: seq<(K, V)>, k: K)
    requires d.Valid()
    ensures PutAll(d, kvs).Get(k) == if LastWrite(kvs, k).Some? then LastWrite(kvs, k) else d.Get(k)
    ensures d.keys <= PutAll(d, kvs).keys
    decreases |kvs|
  {
    if kvs != [] {
      PutAllLookup(d, kvs[..|kvs| - 1], k);
    }
  }

  /** A key is written by some pair exactly when `LastWrite` finds it, and the pair found is the last one with that key. */
  lemma LastWriteIndex<K(!new), V>(kvs: seq<(K, V)>, k: K)
    ensures LastWrite(kvs, k).Some? <==> exists i :: 0 <= i < |kvs| && kvs[i].0 == k
    ensures forall i :: 0 <= i < |kvs| && kvs[i].0 == k && (forall j :: i < j < |kvs| ==> kvs[j].0 != k) ==>
      LastWrite(kvs, k) == Some(kvs[i].1)
  {
    LastWriteFound(kvs, k);
    forall i | 0 <= i < |kvs| && kvs[i].0 == k && (forall j :: i < j < |kvs| ==> kvs[j].0 != k) {
      LastWriteAt(kvs, k, i);
    }
  }

  lemma {:induction false} LastWriteFound<K(!new), V>(kvs: seq<(K, V)>, k: K)
    ensures LastWrite(kvs, k).Some? <==> exists i :: 0 <= i < |kvs| && kvs[i].0 == k
    decreases |kvs|
  {
    if kvs != [] {
      var n := |kvs| - 1;
      var prefix := kvs[..n];
      LastWriteFound(prefix, k);
      if kvs[n].0 != k {
        if exists i :: 0 <= i < |kvs| && kvs[i].0 == k {
          var i :| 0 <= i < |kvs| && kvs[i].0 == k;
          assert prefix[i] == kvs[i];
        }
        if exists i :: 0 <= i < n && prefix[i].0 == k {
          var i :| 0 <= i < n && prefix[i].0 == k;
          assert prefix[i] == kvs[i];
        }
      }
    }
  }

  lemma {:induction false} LastWriteAt<K(!new), V>(kvs: seq<(K, V)>, k: K, i: int)
    requires 0 <= i < |kvs| && kvs[i].0 == k
    requires forall j :: i < j < |kvs| ==> kvs[j].0 != k
    ensures LastWrite(kvs, k) == Some(kvs[i].1)
    decreases |kvs|
  {
    var n := |kvs| - 1;
    if i < n {
      var prefix := kvs[..n];
      assert prefix[i] == kvs[i];
      assert forall j :: i < j < n ==> prefix[j] == kvs[j];
      LastWriteAt(prefix, k, i);
    }
  }

  /** With distinct keys, every pair is the last one to write its key. */
  lemma DistinctLastWrite<K(!new), V>(kvs: seq<(K, V)>, i: int)
    requires DistinctKeys(kvs) && 0 <= i < |kvs|
    ensures LastWrite(kvs, kvs[i].0) == Some(kvs[i].1)
  {
    LastWriteIndex(kvs, kvs[i].0);
  }
  /** A non-empty sequence is its prefix followed by its last element. */
  lemma SnocLast<T>(s: seq<T>)
    requires s != []
    ensures s == s[..|s| - 1] + [s[|s| - 1]]
  {
  }

  /** Extending a prefix by one element. */
  lemma PrefixSnoc<T>(s: seq<T>, i: int)
    requires 0 <= i < |s|
    ensures s[..i + 1] == s[..i] + [s[i]]
  {
  }

  /** `obj[k] = g(obj[k])` for each key of `names` in turn. */
  function UpdateEach<K(==, !new), V>(d: Dict<K, V>, names: seq<K>, g: V -> V): (r: Dict<K, V>)
    requires d.Valid() && forall i :: 0 <= i < |names| ==> names[i] in d.vals
    ensures r.Valid() && r.keys == d.keys && r.vals.Keys == d.vals.Keys
    decreases |names|
  {
    if names == [] then d
    else
      var n := |names| - 1;
      var m := UpdateEach(d, names[..n], g);
      m.Put(names[n], g(m.vals[names[n]]))
  }

  /** With an idempotent update, each named entry is updated once and every other entry is untouched. */
  lemma {:induction false} UpdateEachSpec<K(!new), V>(d: Dict<K, V>, names: seq<K>, g: V -> V, k: K)
    requires d.Valid() && forall i :: 0 <= i < |names| ==> names[i] in d.vals
    requires k in d.vals
    requires forall v :: g(g(v)) == g(v)
    ensures UpdateEach(d, names, g).vals[k] == if k in names then g(d.vals[k]) else d.vals[k]
    decreases |names|
  {
    if names != [] {
      var n := |names| - 1;
      var prefix, x := names[..n], names[n];
      UpdateEachSpec(d, prefix, g, k);
      var m := UpdateEach(d, prefix, g);
      assert UpdateEach(d, names, g) == m.Put(x, g(m.vals[x]));
      SnocLast(names);
      if k == x {
        assert k in names;
        if k in prefix {
          assert g(g(d.vals[k])) == g(d.vals[k]);
        }
      } else {
        assert k in names <==> k in prefix;
      }
    }
  }

  /** Updating one more key. */
  lemma UpdateEachSnoc<K(!new), V>(d: Dict<K, V>, names: seq<K>, x: K, g: V -> V)
    requires d.Valid() && x in d.vals && forall i :: 0 <= i < |names| ==> names[i] in d.vals
    ensures var m := UpdateEach(d, names, g);
      UpdateEach(d, names + [x], g) == m.Put(x, g(m.vals[x]))
  {
    assert (names + [x])[..|names|] == names;
  }

  /** The records of several data files, one file after the other. */
  function Flatten<T>(files: seq<seq<T>>): seq<T>
    decreases |files|
  {
    if files == [] then [] else Flatten(files[..|files| - 1]) + files[|files| - 1]
  }

  /** Each `(name, raw)` pair with its raw record turned into a value by `f`. */
  function MapEntries<R, V>(es: seq<(string, R)>, f: (string, R) -> V): (kvs: seq<(string, V)>)
    ensures |kvs| == |es|
    ensures forall i :: 0 <= i < |es| ==> kvs[i] == (es[i].0, f(es[i].0, es[i].1))
  {
    seq(|es|, i requires 0 <= i < |es| => (es[i].0, f(es[i].0, es[i].1)))
  }
  /** Assigning one more pair after a sequence of assignments. */
  lemma PutAllSnoc<K(!new), V>(d: Dict<K, V>, kvs: seq<(K, V)>, k: K, v: V)
    requires d.Valid()
    ensures PutAll(d, kvs + [(k, v)]) == PutAll(d, kvs).Put(k, v)
  {
    assert (kvs + [(k, v)])[..|kvs|] == kvs;
  }

  lemma MapEntriesSnoc<R, V>(es: seq<(string, R)>, k: string, r: R, f: (string, R) -> V)
    ensures MapEntries(es + [(k, r)], f) == MapEntries(es, f) + [(k, f(k, r))]
  {
  }

  /** Loading one more record: its normalised value is assigned under its name. */
  lemma LoadSnoc<R, V>(es: seq<(string, R)>, e: (string, R), f: (string, R) -> V)
    ensures PutAll(Empty(), MapEntries(es + [e], f)) == PutAll(Empty(), MapEntries(es, f)).Put(e.0, f(e.0, e.1))
  {
    MapEntriesSnoc(es, e.0, e.1, f);
    PutAllSnoc(Empty(), MapEntries(es, f), e.0, f(e.0, e.1));
  }

  lemma FlattenSnoc<T>(files: seq<seq<T>>, i: int)
    requires 0 <= i < |files|
    ensures Flatten(files[..i + 1]) == Flatten(files[..i]) + files[i]
  {
    assert files[..i + 1][..i] == files[..i];
  }

  /** Normalising the records commutes with "last writer wins". */
  lemma {:induction false} LastWriteMap<R, V>(es: seq<(string, R)>, f: (string, R) -> V, k: string)
    ensures LastWrite(MapEntries(es, f), k) ==
      if LastWrite(es, k).Some? then Some(f(k, LastWrite(es, k).value)) else None
    decreases |es|
  {
    if es != [] {
      var n := |es| - 1;
      assert MapEntries(es, f)[..n] == MapEntries(es[..n], f);
      LastWriteMap(es[..n], f, k);
    }
  }

  /** The object loaded from `es`: key `k` holds its last record, normalised by `f`. */
  lemma LoadedLookup<R, V>(es: seq<(string, R)>, f: (string, R) -> V, k: string)
    ensures PutAll(Empty(), MapEntries(es, f)).Get(k) ==
      if LastWrite(es, k).Some? then Some(f(k, LastWrite(es, k).value)) else None
  {
    PutAllLookup(Empty(), MapEntries(es, f), k);
    LastWriteMap(es, f, k);
  }
}
