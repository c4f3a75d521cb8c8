/** Python dicts with string keys, kept in insertion order (the order in which
    `for key in d` visits them and `json.dump` writes them). */
module Dicts {
  import opened Results

  type Dict<V> = seq<(string, V)>

  /** A JSON/YAML scalar as it appears in a loaded record. */
  datatype Scalar = SNull | SInt(i: int) | SStr(s: string)

  function Keys<V>(d: Dict<V>): (ks: seq<string>)
    ensures |ks| == |d|
  {
    if d == [] then [] else [d[0].0] + Keys(d[1..])
  }

  predicate HasKey<V>(d: Dict<V>, k: string) {
    k in Keys(d)
  }

  /** A real dict never holds a key twice. */
  predicate DistinctKeys<V>(d: Dict<V>) {
    d == [] || (d[0].0 !in Keys(d[1..]) && DistinctKeys(d[1..]))
  }

  /** `d.get(k)` */
  function Get<V>(d: Dict<V>, k: string): (r: Option<V>)
    ensures r.Some? <==> HasKey(d, k)
  {
    if d == [] then None
    else if d[0].0 == k then Some(d[0].1)
    else Get(d[1..], k)
  }

  lemma KeysAt<V>(d: Dict<V>, i: nat)
    requires i < |d|
    ensures Keys(d)[i] == d[i].0
  {
    if i > 0 { KeysAt(d[1..], i - 1); }
  }

  lemma KeysIndex<V>(d: Dict<V>)
    ensures forall i :: 0 <= i < |d| ==> Keys(d)[i] == d[i].0
  {
    forall i | 0 <= i < |d| ensures Keys(d)[i] == d[i].0 {
      KeysAt(d, i);
    }
  }

  /** `d[k] = v`: an existing key keeps its place, a new key goes last. */
  function Put<V>(d: Dict<V>, k: string, v: V): (r: Dict<V>)
    ensures Get(r, k) == Some(v)
    ensures forall k' :: k' != k ==> Get(r, k') == Get(d, k')
    ensures Keys(r) == if HasKey(d, k) then Keys(d) else Keys(d) + [k]
    ensures DistinctKeys(d) ==> DistinctKeys(r)
    ensures forall e :: e in r ==> e in d || e == (k, v)
  {
    if d == [] then [(k, v)]
    else if d[0].0 == k then
      var r := [(k, v)] + d[1..];
      assert r[1..] == d[1..];
      r
    else
      var t := Put(d[1..], k, v);
      var r := [d[0]] + t;
      assert r[1..] == t;
      r
  }

  /** `d.pop(k)`, dropping the value, for a key that is present. */
  function Remove<V>(d: Dict<V>, k: string): (r: Dict<V>)
    requires DistinctKeys(d)
    ensures DistinctKeys(r)
    ensures !HasKey(r, k)
    ensures forall k' :: k' != k ==> Get(r, k') == Get(d, k')
    ensures forall k' :: HasKey(r, k') <==> HasKey(d, k') && k' != k
  {
    if d == [] then d
    else if d[0].0 == k then d[1..]
    else
      var t := Remove(d[1..], k);
      var r := [d[0]] + t;
      assert r[1..] == t;
      assert Keys(r) == [d[0].0] + Keys(t);
      assert !HasKey(t, d[0].0);
      forall k' ensures HasKey(r, k') <==> HasKey(d, k') && k' != k {
        assert HasKey(r, k') <==> k' == d[0].0 || HasKey(t, k');
        assert HasKey(d, k') <==> k' == d[0].0 || HasKey(d[1..], k');
      }
      r
  }

  /** `{k: v for (k, v) in pairs}`: a later pair with the same key
      replaces the value of an earlier one. */
  function FromPairs<V>(pairs: seq<(string, V)>): Dict<V>
    decreases |pairs|
  {
    if pairs == [] then []
    else Put(FromPairs(pairs[..|pairs| - 1]), pairs[|pairs| - 1].0, pairs[|pairs| - 1].1)
  }

  /** A key is missing exactly when no pair carries it. */
  lemma {:induction false} FromPairsMissing<V>(pairs: seq<(string, V)>, key: string)
    ensures Get(FromPairs(pairs), key).None? <==> forall i :: 0 <= i < |pairs| ==> pairs[i].0 != key
    decreases |pairs|
  {
    if pairs != [] {
      var n := |pairs| - 1;
      var m := FromPairs(pairs[..n]);
      assert FromPairs(pairs) == Put(m, pairs[n].0, pairs[n].1);
      if pairs[n].0 == key {
        assert Get(FromPairs(pairs), key).Some?;
      } else {
        assert Get(FromPairs(pairs), key) == Get(m, key);
        FromPairsMissing(pairs[..n], key);
        var prefix := pairs[..n];
        if Get(m, key).None? {
          NoKeyExtends(pairs, prefix, key);
        } else {
          var i :| 0 <= i < n && prefix[i].0 == key;
          assert pairs[i].0 == key;
        }
      }
    }
  }

  lemma NoKeyExtends<V>(pairs: seq<(string, V)>, prefix: seq<(string, V)>, key: string)
    requires pairs != [] && prefix == pairs[..|pairs| - 1] && pairs[|pairs| - 1].0 != key
    requires forall i :: 0 <= i < |prefix| ==> prefix[i].0 != key
    ensures forall i :: 0 <= i < |pairs| ==> pairs[i].0 != key
  {
    forall i | 0 <= i < |prefix| ensures pairs[i].0 != key {
      assert prefix[i] == pairs[i];
    }
  }

  /** The last pair decides the value of its key; other keys keep the
      value of the earlier pairs. */
  lemma FromPairsStep<V>(pairs: seq<(string, V)>, key: string)
    requires pairs != []
    ensures Get(FromPairs(pairs), key)
         == if pairs[|pairs| - 1].0 == key then Some(pairs[|pairs| - 1].1) else Get(FromPairs(pairs[..|pairs| - 1]), key)
  {
  }

  /** A key carries the value of the last pair with that key. */
  lemma {:induction false} FromPairsLast<V>(pairs: seq<(string, V)>, key: string, i: nat)
    requires i < |pairs| && pairs[i].0 == key
    requires forall j :: i < j < |pairs| ==> pairs[j].0 != key
    ensures Get(FromPairs(pairs), key) == Some(pairs[i].1)
    decreases |pairs|
  {
    var n := |pairs| - 1;
    var prefix := pairs[..n];
    FromPairsStep(pairs, key);
    if i < n {
      assert prefix[i] == pairs[i];
      forall j | i < j < |prefix| ensures prefix[j].0 != key {
        assert prefix[j] == pairs[j];
      }
      FromPairsLast(prefix, key, i);
    }
  }
}
