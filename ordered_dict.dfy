/**
 * Python's `dict` with its insertion order: the builders iterate over
 * `d.keys()` and `d.values()`, so the order in which keys were first
 * inserted is part of the statements they produce.
 */
module OrderedDict {
  import opened Maybe

  /** The items of a dict, in insertion order. */
  type Dict<K, V> = seq<(K, V)>

  /** `list(d.keys())`. */
  function Keys<K, V>(d: Dict<K, V>): (ks: seq<K>)
    ensures |ks| == |d| && forall i :: 0 <= i < |d| ==> ks[i] == d[i].0
  {
    if d == [] then [] else [d[0].0] + Keys(d[1..])
  }

  /** `list(d.values())`. */
  function Values<K, V>(d: Dict<K, V>): (vs: seq<V>)
    ensures |vs| == |d| && forall i :: 0 <= i < |d| ==> vs[i] == d[i].1
  {
    if d == [] then [] else [d[0].1] + Values(d[1..])
  }

  /** `d.get(k)`. */
  function Lookup<K(==), V>(d: Dict<K, V>, k: K): Option<V>
  {
    if d == [] then None else if d[0].0 == k then Some(d[0].1) else Lookup(d[1..], k)
  }

  /** `d[k] = v`: an existing key keeps its position and takes the new value; a new key goes last. */
  function Put<K(==), V>(d: Dict<K, V>, k: K, v: V): Dict<K, V>
  {
    if d == [] then [(k, v)]
    else if d[0].0 == k then [(k, v)] + d[1..]
    else [d[0]] + Put(d[1..], k, v)
  }

  /** The dict built by `for k, v in zip(ks, vs): d[k] = v`, starting from `{}`. */
  function FromPairs<K(==), V>(ks: seq<K>, vs: seq<V>): Dict<K, V>
    requires |ks| == |vs|
  {
    if ks == [] then []
    else Put(FromPairs(ks[..|ks| - 1], vs[..|vs| - 1]), ks[|ks| - 1], vs[|vs| - 1])
  }

  /** The pairs `(ks[i], vs[i])` side by side. */
  function Zip<K, V>(ks: seq<K>, vs: seq<V>): (d: Dict<K, V>)
    requires |ks| == |vs|
  {
    seq(|ks|, i requires 0 <= i < |ks| => (ks[i], vs[i]))
  }

  predicate Distinct<T(==)>(s: seq<T>)
  {
    forall i, j :: 0 <= i < j < |s| ==> s[i] != s[j]
  }

  /** `k in d` is exactly `d.get(k)` finding a value. */
  lemma {:induction false} LookupPresent<K, V>(d: Dict<K, V>, k: K)
    ensures Lookup(d, k).Some? <==> k in Keys(d)
  {
    if d != [] {
      LookupPresent(d[1..], k);
      assert Keys(d) == [d[0].0] + Keys(d[1..]);
    }
  }

  /** After `d[k] = v`, `d[k]` is `v` and every other key is untouched. */
  lemma {:induction false} PutLookup<K, V>(d: Dict<K, V>, k: K, v: V, j: K)
    ensures Lookup(Put(d, k, v), j) == if j == k then Some(v) else Lookup(d, j)
  {
    if d != [] && d[0].0 != k {
      PutLookup(d[1..], k, v, j);
      assert Put(d, k, v)[1..] == Put(d[1..], k, v);
    }
  }

  /** Inserting a key that is not yet present appends it. */
  lemma {:induction false} PutAbsent<K, V>(d: Dict<K, V>, k: K, v: V)
    requires k !in Keys(d)
    ensures Put(d, k, v) == d + [(k, v)]
  {
    if d != [] {
      assert Keys(d) == [d[0].0] + Keys(d[1..]);
      PutAbsent(d[1..], k, v);
      assert [d[0]] + (d[1..] + [(k, v)]) == d + [(k, v)];
    }
  }

  /** Inserting an existing key leaves the list of keys as it was. */
  lemma {:induction false} PutPresent<K, V>(d: Dict<K, V>, k: K, v: V)
    requires k in Keys(d)
    ensures Keys(Put(d, k, v)) == Keys(d)
  {
    if d[0].0 != k {
      assert k in Keys(d[1..]);
      PutPresent(d[1..], k, v);
    }
  }

  /** Every inserted key is present in the result, whether or not the keys repeat. */
  lemma {:induction false} FromPairsHasKeys<K, V>(ks: seq<K>, vs: seq<V>)
    requires |ks| == |vs|
    ensures forall k :: k in ks <==> k in Keys(FromPairs(ks, vs))
    ensures |Keys(FromPairs(ks, vs))| <= |ks|
  {
    if ks != [] {
      var n := |ks| - 1;
      var d := FromPairs(ks[..n], vs[..n]);
      FromPairsHasKeys(ks[..n], vs[..n]);
      assert ks == ks[..n] + [ks[n]];
      if ks[n] in Keys(d) {
        PutPresent(d, ks[n], vs[n]);
      } else {
        PutAbsent(d, ks[n], vs[n]);
        assert Keys(d + [(ks[n], vs[n])]) == Keys(d) + [ks[n]];
      }
    }
  }

  lemma {:induction false} ZipParts<K, V>(ks: seq<K>, vs: seq<V>)
    requires |ks| == |vs|
    ensures Keys(Zip(ks, vs)) == ks && Values(Zip(ks, vs)) == vs
  {
  }

  /** With distinct keys the dict keeps exactly the given pairs, in the given order. */
  lemma {:induction false} FromPairsDistinct<K, V>(ks: seq<K>, vs: seq<V>)
    requires |ks| == |vs| && Distinct(ks)
    ensures FromPairs(ks, vs) == Zip(ks, vs)
    ensures Keys(FromPairs(ks, vs)) == ks && Values(FromPairs(ks, vs)) == vs
  {
    if ks != [] {
      var n := |ks| - 1;
      var ks', vs' := ks[..n], vs[..n];
      assert Distinct(ks');
      FromPairsDistinct(ks', vs');
      var z := Zip(ks', vs');
      ZipParts(ks', vs');
      assert ks[n] !in Keys(z) by {
        assert Keys(z) == ks';
      }
      PutAbsent(z, ks[n], vs[n]);
      assert z + [(ks[n], vs[n])] == Zip(ks, vs);
    }
    ZipParts(ks, vs);
  }

  /** In a dict whose keys are distinct, looking up the `i`-th key gives the `i`-th value. */
  lemma {:induction false} LookupAt<K, V>(d: Dict<K, V>, i: nat)
    requires i < |d| && Distinct(Keys(d))
    ensures Lookup(d, d[i].0) == Some(d[i].1)
  {
    if i > 0 {
      assert d[0].0 == Keys(d)[0] && d[i].0 == Keys(d)[i];
      assert Keys(d[1..]) == Keys(d)[1..];
      LookupAt(d[1..], i - 1);
    }
  }
}
