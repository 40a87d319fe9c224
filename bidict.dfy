/** The bidirectional dictionary (`bidict`) the recommender keeps for users and for items:
    a forward map in insertion order together with its inverse. */
module Bidict {
  import opened Common

  /** `keys` is the insertion order, `fwd` the forward map, `inv` its `.inverse`. */
  datatype Bidict<K, V> = Bidict(keys: seq<K>, fwd: map<K, V>, inv: map<V, K>)

  /** The forward and inverse maps undo each other and the key order lists the forward keys. */
  ghost predicate Valid<K(!new), V(!new)>(b: Bidict<K, V>) {
    && ValidODict(ODict(b.keys, b.fwd))
    && (forall k :: k in b.fwd ==> b.fwd[k] in b.inv && b.inv[b.fwd[k]] == k)
    && (forall v :: v in b.inv ==> b.inv[v] in b.fwd && b.fwd[b.inv[v]] == v)
  }

  /** No two of the listed keys share a value. */
  ghost predicate InjectiveOn<K, V>(keys: seq<K>, fwd: map<K, V>)
    requires forall k :: k in keys ==> k in fwd
  {
    forall i, j :: 0 <= i < j < |keys| ==> fwd[keys[i]] != fwd[keys[j]]
  }

  /** The inverse of `fwd` restricted to the first `n` keys, built item by item; a value met twice
      raises ValueDuplicationError, as `bidict` does by default. */
  function Inverse<K(!new), V(!new)>(keys: seq<K>, fwd: map<K, V>, n: nat): (r: Result<map<V, K>>)
    requires n <= |keys| && forall k :: k in keys ==> k in fwd
    ensures r.Err? ==> r.error == ValueDuplicationError
  {
    if n == 0 then Ok(map[])
    else
      var prev := Inverse(keys, fwd, n - 1);
      if prev.Err? || fwd[keys[n - 1]] in prev.value then Err(ValueDuplicationError)
      else Ok(prev.value[fwd[keys[n - 1]] := keys[n - 1]])
  }

  /** Building the inverse succeeds exactly when the first `n` keys have pairwise different values;
      it then maps each of their values back to its key and holds nothing else. */
  lemma {:induction false} InverseSpec<K(!new), V(!new)>(keys: seq<K>, fwd: map<K, V>, n: nat)
    requires n <= |keys| && NoDup(keys) && forall k :: k in keys ==> k in fwd
    ensures Inverse(keys, fwd, n).Ok? <==> InjectiveOn(keys[..n], fwd)
    ensures Inverse(keys, fwd, n).Ok? ==>
              forall i :: 0 <= i < n ==> fwd[keys[i]] in Inverse(keys, fwd, n).value &&
                                         Inverse(keys, fwd, n).value[fwd[keys[i]]] == keys[i]
    ensures Inverse(keys, fwd, n).Ok? ==>
              forall v :: v in Inverse(keys, fwd, n).value ==>
                            Inverse(keys, fwd, n).value[v] in keys[..n] && fwd[Inverse(keys, fwd, n).value[v]] == v
  {
    if n > 0 {
      InverseSpec(keys, fwd, n - 1);
      assert keys[..n - 1] == keys[..n][..n - 1];
      var prev := Inverse(keys, fwd, n - 1);
      if prev.Ok? {
        var v := fwd[keys[n - 1]];
        if v in prev.value {
          assert prev.value[v] in keys[..n - 1];
          var i :| 0 <= i < n - 1 && keys[i] == prev.value[v];
          assert fwd[keys[..n][i]] == fwd[keys[..n][n - 1]];
        }
      }
    }
  }

  /** `bidict(d)`: the forward map is `d`, in `d`'s key order. */
  function FromDict<K(!new), V(!new)>(d: ODict<K, V>): (r: Result<Bidict<K, V>>)
    requires ValidODict(d)
    ensures r.Err? ==> r.error == ValueDuplicationError
    ensures r.Ok? ==> r.value.keys == d.keys && r.value.fwd == d.m
  {
    assert d.keys[..|d.keys|] == d.keys;
    var inv := Inverse(d.keys, d.m, |d.keys|);
    if inv.Err? then Err(ValueDuplicationError)
    else Ok(Bidict(d.keys, d.m, inv.value))
  }

  /** `bidict(dict(zip(ks, vs)))` for the pairs `ps` of `(k, v)`. */
  function OfPairs<K(!new), V(!new)>(ps: seq<(K, V)>): (r: Result<Bidict<K, V>>)
    ensures r.Err? ==> r.error == ValueDuplicationError
    ensures r.Ok? ==> r.value.keys == Distinct(Firsts(ps)) && r.value.fwd == FromPairs(ps).m
  {
    FromDict(FromPairs(ps))
  }

  /** `bidict(d)` succeeds exactly when no two keys of `d` share a value, and then its two
      directions undo each other. */
  lemma {:induction false} FromDictValid<K(!new), V(!new)>(d: ODict<K, V>)
    requires ValidODict(d)
    ensures FromDict(d).Ok? <==> InjectiveOn(d.keys, d.m)
    ensures FromDict(d).Ok? ==> Valid(FromDict(d).value)
  {
    assert d.keys[..|d.keys|] == d.keys;
    InverseSpec(d.keys, d.m, |d.keys|);
  }

  /** A bidict built from pairs is valid, and it is built exactly when the last values of the
      distinct keys are pairwise different. */
  lemma {:induction false} OfPairsValid<K(!new), V(!new)>(ps: seq<(K, V)>)
    ensures OfPairs(ps).Ok? <==> InjectiveOn(FromPairs(ps).keys, FromPairs(ps).m)
    ensures OfPairs(ps).Ok? ==> Valid(OfPairs(ps).value)
  {
    FromDictValid(FromPairs(ps));
  }

  /** Pairs that pair keys and values one-to-one (equal keys exactly when equal values) build a
      bidict, and both directions give back the pairing: `fwd[k] == v` and `inv[v] == k` for
      every pair, and nothing else is stored. */
  lemma {:induction false} OneToOnePairs<K(!new), V(!new)>(ps: seq<(K, V)>)
    requires PairsOneToOne(ps)
    ensures OfPairs(ps).Ok?
    ensures forall i :: 0 <= i < |ps| ==>
              ps[i].0 in OfPairs(ps).value.fwd && OfPairs(ps).value.fwd[ps[i].0] == ps[i].1 &&
              ps[i].1 in OfPairs(ps).value.inv && OfPairs(ps).value.inv[ps[i].1] == ps[i].0
    ensures forall k :: k in OfPairs(ps).value.fwd ==> k in Firsts(ps)
  {
    var d := FromPairs(ps);
    FromPairsOneToOne(ps);
    forall i, j | 0 <= i < j < |d.keys|
      ensures d.m[d.keys[i]] != d.m[d.keys[j]]
    {
      assert d.keys[i] in d.m && d.keys[j] in d.m;
      var a :| 0 <= a < |ps| && ps[a].0 == d.keys[i];
      var b :| 0 <= b < |ps| && ps[b].0 == d.keys[j];
    }
    OfPairsValid(ps);
  }

}
