/**
 * Insertion-ordered association lists with the semantics of a Ruby Hash:
 * `h[k]` finds the entry for `k`, `h[k] = v` replaces the value of an
 * existing key where it stands and appends a new key at the end, and
 * `h.delete(k)` drops the key.
 */
module OrderedMap {
  import opened Wrappers
  import opened Lists

  /** Keys are strings: every Hash in the modelled code is keyed by strings. */
  type Assoc<V> = seq<(string, V)>

  function Keys<V>(m: Assoc<V>): (ks: seq<string>)
    ensures |ks| == |m| && forall i :: 0 <= i < |m| ==> ks[i] == m[i].0
  {
    if m == [] then [] else [m[0].0] + Keys(m[1..])
  }

  /** No key occurs twice, as in every Ruby Hash. */
  ghost predicate UniqueKeys<V>(m: Assoc<V>)
  {
    Distinct(Keys(m))
  }

  /** Ruby `h[k]`: the value stored under `k`, if any. */
  function Get<V>(m: Assoc<V>, k: string): (r: Option<V>)
    ensures r.None? <==> k !in Keys(m)
  {
    if m == [] then None
    else if m[0].0 == k then Some(m[0].1)
    else
      assert Keys(m) == [m[0].0] + Keys(m[1..]);
      Get(m[1..], k)
  }

  /** What a lookup finds is an entry of the Hash. */
  lemma {:induction false} GetFound<V>(m: Assoc<V>, k: string)
    requires Get(m, k).Some?
    ensures (k, Get(m, k).value) in m
  {
    if m[0].0 != k {
      GetFound(m[1..], k);
    }
  }

  /** Ruby `h[k] || default`, for values that are never nil. */
  function GetOr<V>(m: Assoc<V>, k: string, default: V): (r: V)
    ensures k !in Keys(m) ==> r == default
    ensures k in Keys(m) ==> Get(m, k) == Some(r)
  {
    match Get(m, k)
    case Some(v) => v
    case None => default
  }

  /** Ruby `h[k] = v`. */
  function Put<V>(m: Assoc<V>, k: string, v: V): (r: Assoc<V>)
    ensures Get(r, k) == Some(v)
    ensures forall k' :: k' != k ==> Get(r, k') == Get(m, k')
    ensures Keys(r) == if k in Keys(m) then Keys(m) else Keys(m) + [k]
  {
    if m == [] then [(k, v)]
    else if m[0].0 == k then
      assert Keys([(k, v)] + m[1..]) == Keys(m);
      [(k, v)] + m[1..]
    else
      var rest := Put(m[1..], k, v);
      PutCons(m, k, v, rest);
      [m[0]] + rest
  }

  /** Storing past the first entry, where the key is not `k`, keeps that
      entry in front. */
  lemma PutCons<V>(m: Assoc<V>, k: string, v: V, rest: Assoc<V>)
    requires m != [] && m[0].0 != k
    requires Get(rest, k) == Some(v)
    requires forall k' :: k' != k ==> Get(rest, k') == Get(m[1..], k')
    requires Keys(rest) == if k in Keys(m[1..]) then Keys(m[1..]) else Keys(m[1..]) + [k]
    ensures Get([m[0]] + rest, k) == Some(v)
    ensures forall k' :: k' != k ==> Get([m[0]] + rest, k') == Get(m, k')
    ensures Keys([m[0]] + rest) == if k in Keys(m) then Keys(m) else Keys(m) + [k]
  {
    var r := [m[0]] + rest;
    assert r[0] == m[0] && r[1..] == rest;
    assert Keys(m) == [m[0].0] + Keys(m[1..]);
    assert Keys(r) == [m[0].0] + Keys(rest);
  }

  /** Ruby `h.delete(k)`. */
  function Delete<V>(m: Assoc<V>, k: string): (r: Assoc<V>)
    ensures Get(r, k) == None
    ensures forall k' :: k' != k ==> Get(r, k') == Get(m, k')
    ensures forall k' :: k' in Keys(r) <==> k' in Keys(m) && k' != k
    ensures UniqueKeys(m) ==> UniqueKeys(r)
  {
    if m == [] then []
    else
      var rest := Delete(m[1..], k);
      assert Keys(m) == [m[0].0] + Keys(m[1..]);
      if m[0].0 == k then rest
      else
        assert Keys([m[0]] + rest) == [m[0].0] + Keys(rest);
        assert UniqueKeys(m) ==> m[0].0 !in Keys(m[1..]);
        [m[0]] + rest
  }

  /** With distinct keys, each entry is what a lookup of its key finds. */
  lemma {:induction false} GetEntry<V>(m: Assoc<V>, i: nat)
    requires UniqueKeys(m) && i < |m|
    ensures Get(m, m[i].0) == Some(m[i].1)
  {
    if i > 0 {
      assert Keys(m)[0] != Keys(m)[i];
      assert Keys(m[1..]) == Keys(m)[1..];
      GetEntry(m[1..], i - 1);
    }
  }

  /** Storing the value a key already finds changes nothing. */
  lemma {:induction false} PutFound<V>(m: Assoc<V>, k: string, v: V)
    requires Get(m, k) == Some(v)
    ensures Put(m, k, v) == m
  {
    if m[0].0 != k {
      PutFound(m[1..], k, v);
    }
  }

  /** Storing a second, different key behind a one-entry Hash appends it. */
  lemma PutSecond<V>(k0: string, x: V, k1: string, y: V)
    requires k0 != k1
    ensures Put([(k0, x)], k1, y) == [(k0, x), (k1, y)]
  {
    var m := [(k0, x)];
    assert m[1..] == [];
    assert Put(m, k1, y) == [m[0]] + Put(m[1..], k1, y);
  }

  /** Storing under a key keeps the keys distinct. */
  lemma PutKeepsUniqueKeys<V>(m: Assoc<V>, k: string, v: V)
    requires UniqueKeys(m)
    ensures UniqueKeys(Put(m, k, v))
  {
    if k !in Keys(m) {
      DistinctAppend(Keys(m), k);
    }
  }

  /** Stores each pair in turn, as repeated `h[k] = v` does. */
  function PutAll<V>(all: Assoc<V>, kvs: Assoc<V>): Assoc<V>
    decreases kvs
  {
    if kvs == [] then all else PutAll(Put(all, kvs[0].0, kvs[0].1), kvs[1..])
  }

  lemma {:induction false} PutAllAppend<V>(all: Assoc<V>, xs: Assoc<V>, ys: Assoc<V>)
    ensures PutAll(all, xs + ys) == PutAll(PutAll(all, xs), ys)
    decreases xs
  {
    if xs != [] {
      assert (xs + ys)[1..] == xs[1..] + ys;
      PutAllAppend(Put(all, xs[0].0, xs[0].1), xs[1..], ys);
    } else {
      assert xs + ys == ys;
    }
  }

  lemma {:induction false} PutAllMiss<V>(all: Assoc<V>, kvs: Assoc<V>, k: string)
    requires forall i :: 0 <= i < |kvs| ==> kvs[i].0 != k
    ensures Get(PutAll(all, kvs), k) == Get(all, k)
    decreases kvs
  {
    if kvs != [] {
      PutAllMiss(Put(all, kvs[0].0, kvs[0].1), kvs[1..], k);
    }
  }

  lemma {:induction false} PutAllHit<V>(all: Assoc<V>, kvs: Assoc<V>, i: nat)
    requires i < |kvs| && forall j :: i < j < |kvs| ==> kvs[j].0 != kvs[i].0
    ensures Get(PutAll(all, kvs), kvs[i].0) == Some(kvs[i].1)
    decreases kvs
  {
    if i == 0 {
      PutAllHitHead(all, kvs);
    } else {
      PutAllHit(Put(all, kvs[0].0, kvs[0].1), kvs[1..], i - 1);
    }
  }

  lemma PutAllHitHead<V>(all: Assoc<V>, kvs: Assoc<V>)
    requires kvs != [] && forall j :: 0 < j < |kvs| ==> kvs[j].0 != kvs[0].0
    ensures Get(PutAll(all, kvs), kvs[0].0) == Some(kvs[0].1)
  {
    forall j | 0 <= j < |kvs[1..]| ensures kvs[1..][j].0 != kvs[0].0 {
      assert kvs[1..][j] == kvs[j + 1];
    }
    PutAllMiss(Put(all, kvs[0].0, kvs[0].1), kvs[1..], kvs[0].0);
  }

  lemma {:induction false} PutAllKeys<V>(all: Assoc<V>, kvs: Assoc<V>, k: string)
    ensures k in Keys(PutAll(all, kvs)) <==> k in Keys(all) || exists i :: 0 <= i < |kvs| && kvs[i].0 == k
    ensures UniqueKeys(all) ==> UniqueKeys(PutAll(all, kvs))
    decreases kvs
  {
    if kvs != [] {
      var next := Put(all, kvs[0].0, kvs[0].1);
      PutAllKeys(next, kvs[1..], k);
      if UniqueKeys(all) {
        PutKeepsUniqueKeys(all, kvs[0].0, kvs[0].1);
      }
      PutAllKeysStep(kvs, k);
    }
  }

  /** A key is among the pairs' keys exactly when it is the first or among the rest. */
  lemma PutAllKeysStep<V>(kvs: Assoc<V>, k: string)
    requires kvs != []
    ensures (exists i :: 0 <= i < |kvs| && kvs[i].0 == k) <==>
              kvs[0].0 == k || exists i :: 0 <= i < |kvs[1..]| && kvs[1..][i].0 == k
  {
    if exists i :: 0 <= i < |kvs| && kvs[i].0 == k {
      var i :| 0 <= i < |kvs| && kvs[i].0 == k;
      if i > 0 {
        assert kvs[1..][i - 1].0 == k;
      }
    }
    if exists i :: 0 <= i < |kvs[1..]| && kvs[1..][i].0 == k {
      var i :| 0 <= i < |kvs[1..]| && kvs[1..][i].0 == k;
      assert kvs[i + 1].0 == k;
    }
  }

}
