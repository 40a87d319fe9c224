/** Shared vocabulary of the model: the Python exceptions the code raises, optional values,
    order-preserving filters, `drop_duplicates` and ordered dictionaries built by `dict(zip(...))`. */
module Common {

  /** A value that may be absent: Python's `None`, or a missing cell (NaN) of a data frame. */
  datatype Option<T> = None | Some(value: T)

  /** The Python exceptions that the modelled code raises or lets through. */
  datatype Error =
    | KeyError        // a missing dictionary key or index label
    | IndexError      // `seq[0]` on an empty list, `split()[k]` with too few tokens
    | ValueError      // an argument of the wrong shape, an unparsable integer, a bad matrix index
    | TypeError       // arithmetic with `None`, subscripting `None`
    | AttributeError  // a method called on `None`
    | ValueDuplicationError  // a bidirectional dictionary given one value twice

  /** Either a value or the exception that was raised instead. */
  datatype Result<T> = Ok(value: T) | Err(error: Error)

  /** No element occurs twice. */
  predicate NoDup<T(==)>(s: seq<T>) {
    forall i, j :: 0 <= i < j < |s| ==> s[i] != s[j]
  }

  /** `a` can be obtained from `b` by deleting elements: the order of `a` is the order in `b`. */
  ghost predicate IsSubsequence<T>(a: seq<T>, b: seq<T>)
    decreases |b|
  {
    if a == [] then true
    else if b == [] then false
    else if a[0] == b[0] then IsSubsequence(a[1..], b[1..])
    else IsSubsequence(a, b[1..])
  }

  /** The elements of `s` satisfying `p`, in their order in `s` (a boolean mask applied with `.loc`). */
  function Filter<T(!new)>(s: seq<T>, p: T -> bool): (r: seq<T>)
    ensures |r| <= |s|
    ensures forall i :: 0 <= i < |r| ==> p(r[i])
    ensures forall x :: x in r <==> x in s && p(x)
  {
    if s == [] then []
    else if p(s[0]) then [s[0]] + Filter(s[1..], p)
    else Filter(s[1..], p)
  }

  lemma {:induction false} FilterIsSubsequence<T(!new)>(s: seq<T>, p: T -> bool)
    ensures IsSubsequence(Filter(s, p), s)
  {
    if s != [] {
      FilterIsSubsequence(s[1..], p);
      if !p(s[0]) {
        SubsequenceOfTail(Filter(s[1..], p), s);
      }
    }
  }

  /** A subsequence of the tail is a subsequence of the whole. */
  lemma {:induction false} SubsequenceOfTail<T>(a: seq<T>, b: seq<T>)
    requires b != [] && IsSubsequence(a, b[1..])
    ensures IsSubsequence(a, b)
    decreases 2 * |b|
  {
    if a != [] && a[0] != b[0] {
      assert IsSubsequence(a, b[1..]);
    } else if a != [] {
      // a[0] == b[0]: match it here, and the rest of a is in b[1..] past a first match
      assert b[1..] != [];
      SubsequenceDropHead(a, b[1..]);
      assert IsSubsequence(a[1..], b[1..]);
    }
  }

  /** Dropping the first element of a (non-empty) subsequence keeps it a subsequence. */
  lemma {:induction false} SubsequenceDropHead<T>(a: seq<T>, b: seq<T>)
    requires a != [] && IsSubsequence(a, b)
    ensures IsSubsequence(a[1..], b)
    decreases 2 * |b| + 1
  {
    assert b != [];
    if a[0] == b[0] {
      assert IsSubsequence(a[1..], b[1..]);
      if a[1..] != [] {
        SubsequenceOfTail(a[1..], b);
      }
    } else {
      SubsequenceDropHead(a, b[1..]);
      if a[1..] != [] {
        SubsequenceOfTail(a[1..], b);
      }
    }
  }

  /** A subsequence of a subsequence is a subsequence. */
  lemma {:induction false} SubsequenceTransitive<T>(a: seq<T>, b: seq<T>, c: seq<T>)
    requires IsSubsequence(a, b) && IsSubsequence(b, c)
    ensures IsSubsequence(a, c)
    decreases |c|
  {
    if a != [] {
      assert b != [] && c != [];
      if b[0] == c[0] {
        if a[0] == b[0] {
          SubsequenceTransitive(a[1..], b[1..], c[1..]);
        } else {
          SubsequenceTransitive(a, b[1..], c[1..]);
          SubsequenceOfTail(a, c);
        }
      } else {
        SubsequenceTransitive(a, b, c[1..]);
        SubsequenceOfTail(a, c);
      }
    }
  }

  /** Filtering keeps every kept element as often as it occurs, and no other. */
  lemma {:induction false} FilterMultiset<T(!new)>(s: seq<T>, p: T -> bool, x: T)
    ensures multiset(Filter(s, p))[x] == if p(x) then multiset(s)[x] else 0
  {
    if s != [] {
      FilterMultiset(s[1..], p, x);
      assert s == [s[0]] + s[1..];
    }
  }

  /** Two masks applied one after the other keep exactly the rows that pass both. */
  lemma {:induction false} FilterFilter<T(!new)>(s: seq<T>, p: T -> bool, q: T -> bool, pq: T -> bool)
    requires forall x :: pq(x) == (p(x) && q(x))
    ensures Filter(Filter(s, p), q) == Filter(s, pq)
  {
    if s != [] {
      FilterFilter(s[1..], p, q, pq);
    }
  }

  /** Filtering distributes over concatenation. */
  lemma {:induction false} FilterAppend<T(!new)>(a: seq<T>, b: seq<T>, p: T -> bool)
    ensures Filter(a + b, p) == Filter(a, p) + Filter(b, p)
  {
    if a == [] {
      assert a + b == b;
    } else {
      assert (a + b)[1..] == a[1..] + b;
      FilterAppend(a[1..], b, p);
    }
  }

  /** A mask every element passes keeps the whole sequence. */
  lemma {:induction false} FilterAll<T(!new)>(s: seq<T>, p: T -> bool)
    requires forall i :: 0 <= i < |s| ==> p(s[i])
    ensures Filter(s, p) == s
  {
    if s != [] {
      FilterAll(s[1..], p);
    }
  }

  /** Masks that agree on every element select the same rows. */
  lemma {:induction false} FilterCongruent<T(!new)>(s: seq<T>, p: T -> bool, q: T -> bool)
    requires forall i :: 0 <= i < |s| ==> p(s[i]) == q(s[i])
    ensures Filter(s, p) == Filter(s, q)
  {
    if s != [] {
      FilterCongruent(s[1..], p, q);
    }
  }

  /** `drop_duplicates()`: the first occurrence of every value, in order of first occurrence. */
  function Distinct<T(==,!new)>(s: seq<T>): (r: seq<T>)
    ensures |r| <= |s|
    ensures NoDup(r)
    ensures forall x :: x in r <==> x in s
  {
    if s == [] then []
    else
      var d := Distinct(s[..|s| - 1]);
      if s[|s| - 1] in d then d else d + [s[|s| - 1]]
  }

  /** Sequences without repetitions keep all their elements under `Distinct`. */
  lemma {:induction false} DistinctOfNoDup<T(!new)>(s: seq<T>)
    requires NoDup(s)
    ensures Distinct(s) == s
  {
    if s != [] {
      var init := s[..|s| - 1];
      assert NoDup(init);
      DistinctOfNoDup(init);
      assert s[|s| - 1] !in init;
      assert s == init + [s[|s| - 1]];
    }
  }

  /** A dictionary together with the order in which its keys were first inserted, as Python keeps it. */
  datatype ODict<K, V> = ODict(keys: seq<K>, m: map<K, V>)

  /** The key order lists exactly the keys, each once. */
  ghost predicate ValidODict<K(!new), V>(d: ODict<K, V>) {
    NoDup(d.keys) && (forall k :: k in d.m <==> k in d.keys)
  }

  /** `d[k] = v`: a new key goes to the end, an existing key keeps its place and gets the new value. */
  function Put<K(!new), V>(d: ODict<K, V>, k: K, v: V): (r: ODict<K, V>)
    requires ValidODict(d)
    ensures ValidODict(r)
    ensures r.m == d.m[k := v]
    ensures r.keys == if k in d.m then d.keys else d.keys + [k]
  {
    if k in d.m then ODict(d.keys, d.m[k := v]) else ODict(d.keys + [k], d.m[k := v])
  }

  /** The first components of a sequence of pairs. */
  function Firsts<K(!new), V>(ps: seq<(K, V)>): (r: seq<K>)
    ensures |r| == |ps|
    ensures forall i :: 0 <= i < |ps| ==> r[i] == ps[i].0
  {
    seq(|ps|, i requires 0 <= i < |ps| => ps[i].0)
  }

  /** `dict(zip(keys, values))`: keys in order of first occurrence; a repeated key keeps its
      first position and takes the value of its last occurrence. */
  function FromPairs<K(!new), V>(ps: seq<(K, V)>): (d: ODict<K, V>)
    ensures ValidODict(d)
    ensures d.keys == Distinct(Firsts(ps))
    ensures forall i :: 0 <= i < |ps| ==> ps[i].0 in d.m
    ensures forall k :: k in d.m ==> k in Firsts(ps)
  {
    if ps == [] then ODict([], map[])
    else
      var init := ps[..|ps| - 1];
      assert Firsts(ps) == Firsts(init) + [ps[|ps| - 1].0];
      assert Firsts(ps)[..|ps| - 1] == Firsts(init);
      Put(FromPairs(init), ps[|ps| - 1].0, ps[|ps| - 1].1)
  }

  /** The value stored for a key is the one paired with its last occurrence. */
  lemma {:induction false} FromPairsLastWins<K(!new), V>(ps: seq<(K, V)>, i: nat)
    requires i < |ps|
    requires forall j :: i < j < |ps| ==> ps[j].0 != ps[i].0
    ensures FromPairs(ps).m[ps[i].0] == ps[i].1
  {
    if i < |ps| - 1 {
      var init := ps[..|ps| - 1];
      FromPairsLastWins(init, i);
    }
  }

  /** The value stored for any key comes from some pair with that key. */
  lemma {:induction false} FromPairsValueFromPair<K(!new), V>(ps: seq<(K, V)>, k: K)
    requires k in FromPairs(ps).m
    ensures exists i :: 0 <= i < |ps| && ps[i] == (k, FromPairs(ps).m[k])
  {
    var last := ps[|ps| - 1];
    if last.0 != k {
      var init := ps[..|ps| - 1];
      FromPairsValueFromPair(init, k);
      var i :| 0 <= i < |init| && init[i] == (k, FromPairs(init).m[k]);
      assert ps[i] == init[i];
    } else {
      assert ps[|ps| - 1] == (k, FromPairs(ps).m[k]);
    }
  }

  /** The values of `m` at `keys`, in order. */
  function ValuesAt<K, V>(keys: seq<K>, m: map<K, V>): (vs: seq<V>)
    requires forall k :: k in keys ==> k in m
    ensures |vs| == |keys|
  {
    if keys == [] then [] else [m[keys[0]]] + ValuesAt(keys[1..], m)
  }

  /** `list(d.values())`: the values in key order. */
  function Values<K, V>(d: ODict<K, V>): (vs: seq<V>)
    requires forall k :: k in d.keys ==> k in d.m
    ensures |vs| == |d.keys|
  {
    ValuesAt(d.keys, d.m)
  }

  lemma {:induction false} ValuesAtIndex<K, V>(keys: seq<K>, m: map<K, V>, i: nat)
    requires (forall k :: k in keys ==> k in m) && i < |keys|
    ensures ValuesAt(keys, m)[i] == m[keys[i]]
  {
    if i > 0 {
      ValuesAtIndex(keys[1..], m, i - 1);
    }
  }

  /** The values list holds exactly the values of the dictionary. */
  lemma {:induction false} ValuesMembers<K(!new), V(!new)>(d: ODict<K, V>)
    requires ValidODict(d)
    ensures forall v :: v in Values(d) <==> exists k :: k in d.m && d.m[k] == v
  {
    forall v ensures v in Values(d) <==> exists k :: k in d.m && d.m[k] == v {
      if v in Values(d) {
        var i :| 0 <= i < |d.keys| && Values(d)[i] == v;
        ValuesAtIndex(d.keys, d.m, i);
      }
      if exists k :: k in d.m && d.m[k] == v {
        var k :| k in d.m && d.m[k] == v;
        var i :| 0 <= i < |d.keys| && d.keys[i] == k;
        ValuesAtIndex(d.keys, d.m, i);
      }
    }
  }

  /** A value that a key maps to is among the values. */
  lemma {:induction false} ValueOfKey<K(!new), V(!new)>(d: ODict<K, V>, k: K)
    requires ValidODict(d) && k in d.m
    ensures d.m[k] in Values(d)
  {
    ValuesMembers(d);
  }

  /** Every listed value is the value of some key. */
  lemma {:induction false} KeyOfValue<K(!new), V(!new)>(d: ODict<K, V>, v: V) returns (k: K)
    requires ValidODict(d) && v in Values(d)
    ensures k in d.m && d.m[k] == v
  {
    ValuesMembers(d);
    k :| k in d.m && d.m[k] == v;
  }

  /** A sequence without repetitions has as many elements as its set. */
  lemma {:induction false} NoDupCard<T>(s: seq<T>)
    requires NoDup(s)
    ensures |set x | x in s| == |s|
  {
    if s != [] {
      var init := s[..|s| - 1];
      assert NoDup(init);
      NoDupCard(init);
      assert s == init + [s[|s| - 1]];
      assert (set x | x in s) == (set x | x in init) + {s[|s| - 1]};
    }
  }

  /** `len(d)`: a dictionary whose keys are exactly `s` has `|s|` entries. */
  lemma {:induction false} ODictSize<K(!new), V>(d: ODict<K, V>, s: set<K>)
    requires ValidODict(d) && forall k :: k in d.m <==> k in s
    ensures |d.keys| == |s|
  {
    assert (set x | x in d.keys) == s;
    NoDupCard(d.keys);
  }

  /** Every pair with its components exchanged (`zip(b, a)` for `zip(a, b)`). */
  function Swapped<A, B>(ps: seq<(A, B)>): (r: seq<(B, A)>)
    ensures |r| == |ps|
  {
    if ps == [] then [] else [(ps[0].1, ps[0].0)] + Swapped(ps[1..])
  }

  lemma {:induction false} SwappedAt<A, B>(ps: seq<(A, B)>, k: nat)
    requires k < |ps|
    ensures Swapped(ps)[k] == (ps[k].1, ps[k].0)
  {
    if k > 0 {
      SwappedAt(ps[1..], k - 1);
    }
  }

  /** The pairs pair keys and values one-to-one: equal keys exactly when equal values. */
  ghost predicate PairsOneToOne<K, V>(ps: seq<(K, V)>) {
    forall i, j :: 0 <= i < |ps| && 0 <= j < |ps| ==> (ps[i].0 == ps[j].0 <==> ps[i].1 == ps[j].1)
  }

  /** One-to-one pairs give a dictionary holding every pair, and no other key. */
  lemma {:induction false} FromPairsOneToOne<K(!new), V(!new)>(ps: seq<(K, V)>)
    requires PairsOneToOne(ps)
    ensures forall i :: 0 <= i < |ps| ==> ps[i].0 in FromPairs(ps).m && FromPairs(ps).m[ps[i].0] == ps[i].1
    ensures forall k :: k in FromPairs(ps).m ==> exists i :: 0 <= i < |ps| && ps[i].0 == k
  {
    forall i | 0 <= i < |ps|
      ensures FromPairs(ps).m[ps[i].0] == ps[i].1
    {
      FromPairsValueFromPair(ps, ps[i].0);
    }
    forall k | k in FromPairs(ps).m
      ensures exists i :: 0 <= i < |ps| && ps[i].0 == k
    {
      FromPairsValueFromPair(ps, k);
    }
  }

  lemma {:induction false} SwappedOneToOne<K, V>(ps: seq<(K, V)>)
    requires PairsOneToOne(ps)
    ensures PairsOneToOne(Swapped(ps))
  {
    forall i | 0 <= i < |ps| ensures Swapped(ps)[i] == (ps[i].1, ps[i].0) {
      SwappedAt(ps, i);
    }
  }

  /** `dict(zip(ks, vs))` and `dict(zip(vs, ks))` over one-to-one pairs are mutual inverses, and
      the second knows exactly the values of the pairs. */
  lemma {:induction false} FromPairsInverse<K(!new), V(!new)>(ps: seq<(K, V)>)
    requires PairsOneToOne(ps)
    ensures forall v :: v in FromPairs(Swapped(ps)).m <==> exists i :: 0 <= i < |ps| && ps[i].1 == v
    ensures forall v :: v in FromPairs(Swapped(ps)).m ==>
              FromPairs(Swapped(ps)).m[v] in FromPairs(ps).m && FromPairs(ps).m[FromPairs(Swapped(ps)).m[v]] == v
    ensures forall k :: k in FromPairs(ps).m ==>
              FromPairs(ps).m[k] in FromPairs(Swapped(ps)).m && FromPairs(Swapped(ps)).m[FromPairs(ps).m[k]] == k
  {
    forall v ensures v in FromPairs(Swapped(ps)).m <==> exists i :: 0 <= i < |ps| && ps[i].1 == v {
      FromPairsInverseAt(ps, v);
    }
    forall v | v in FromPairs(Swapped(ps)).m
      ensures FromPairs(Swapped(ps)).m[v] in FromPairs(ps).m && FromPairs(ps).m[FromPairs(Swapped(ps)).m[v]] == v
    {
      FromPairsInverseAt(ps, v);
    }
    forall k | k in FromPairs(ps).m
      ensures FromPairs(ps).m[k] in FromPairs(Swapped(ps)).m && FromPairs(Swapped(ps)).m[FromPairs(ps).m[k]] == k
    {
      FromPairsForwardAt(ps, k);
    }
  }

  lemma {:induction false} FromPairsInverseAt<K(!new), V(!new)>(ps: seq<(K, V)>, v: V)
    requires PairsOneToOne(ps)
    ensures v in FromPairs(Swapped(ps)).m <==> exists i :: 0 <= i < |ps| && ps[i].1 == v
    ensures v in FromPairs(Swapped(ps)).m ==>
              FromPairs(Swapped(ps)).m[v] in FromPairs(ps).m && FromPairs(ps).m[FromPairs(Swapped(ps)).m[v]] == v
  {
    var sw := Swapped(ps);
    SwappedOneToOne(ps);
    FromPairsOneToOne(ps);
    FromPairsOneToOne(sw);
    if v in FromPairs(sw).m {
      var k :| 0 <= k < |sw| && sw[k].0 == v;
      SwappedAt(ps, k);
    }
    if exists i :: 0 <= i < |ps| && ps[i].1 == v {
      var i :| 0 <= i < |ps| && ps[i].1 == v;
      SwappedAt(ps, i);
    }
  }

  lemma {:induction false} FromPairsForwardAt<K(!new), V(!new)>(ps: seq<(K, V)>, k: K)
    requires PairsOneToOne(ps) && k in FromPairs(ps).m
    ensures FromPairs(ps).m[k] in FromPairs(Swapped(ps)).m && FromPairs(Swapped(ps)).m[FromPairs(ps).m[k]] == k
  {
    var sw := Swapped(ps);
    SwappedOneToOne(ps);
    FromPairsOneToOne(ps);
    FromPairsOneToOne(sw);
    var i :| 0 <= i < |ps| && ps[i].0 == k;
    SwappedAt(ps, i);
  }
}
