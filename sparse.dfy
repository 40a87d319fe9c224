/** The sparse matrices built with `scipy.sparse.csr_matrix((data, (row, col)))`: a matrix is its
    inferred shape and the map from stored coordinates to values. Storage layout (CSR index arrays)
    is not modelled; what a caller can observe of it is. */
module Sparse {
  import opened Common

  /** A sparse matrix: its shape and its stored entries. */
  datatype Matrix = Matrix(nrows: nat, ncols: nat, entries: map<(int, int), real>)

  /** The stored entries built from the first `n` triples: a coordinate listed twice holds the sum
      of its values, as scipy sums duplicate coordinates when converting to CSR. */
  function Accumulate(data: seq<real>, rows: seq<int>, cols: seq<int>, n: nat): (m: map<(int, int), real>)
    requires |data| == |rows| == |cols| && n <= |data|
  {
    if n == 0 then map[]
    else
      var m := Accumulate(data, rows, cols, n - 1);
      var p := (rows[n - 1], cols[n - 1]);
      m[p := (if p in m then m[p] else 0.0) + data[n - 1]]
  }

  /** The stored coordinates are exactly the listed ones. */
  lemma {:induction false} AccumulateKeys(data: seq<real>, rows: seq<int>, cols: seq<int>, n: nat)
    requires |data| == |rows| == |cols| && n <= |data|
    ensures forall k :: 0 <= k < n ==> (rows[k], cols[k]) in Accumulate(data, rows, cols, n)
    ensures forall p :: p in Accumulate(data, rows, cols, n) ==> exists k :: 0 <= k < n && p == (rows[k], cols[k])
  {
    if n > 0 {
      AccumulateKeys(data, rows, cols, n - 1);
    }
  }

  /** The largest element of a non-empty sequence. */
  function Max(s: seq<int>): (r: int)
    requires s != []
    ensures r in s && forall x :: x in s ==> x <= r
  {
    if |s| == 1 then s[0]
    else
      var m := Max(s[1..]);
      assert forall x :: x in s ==> x == s[0] || x in s[1..];
      if s[0] >= m then s[0] else m
  }

  /** Every index is non-negative. */
  predicate AllNonNegative(s: seq<int>) {
    forall i :: 0 <= i < |s| ==> s[i] >= 0
  }

  /** `csr_matrix((data, (rows, cols)))`: the shape is one more than the largest row and column
      index; no triples (the shape cannot be inferred) or a negative index raise ValueError. */
  function FromTriples(data: seq<real>, rows: seq<int>, cols: seq<int>): (r: Result<Matrix>)
    requires |data| == |rows| == |cols|
    ensures r.Err? <==> data == [] || !AllNonNegative(rows) || !AllNonNegative(cols)
    ensures r.Err? ==> r.error == ValueError
  {
    if data == [] || !AllNonNegative(rows) || !AllNonNegative(cols) then Err(ValueError)
    else Ok(Matrix(Max(rows) + 1, Max(cols) + 1, Accumulate(data, rows, cols, |data|)))
  }

  /** The inferred shape holds every listed coordinate, and it is the smallest that does. */
  lemma {:induction false} FromTriplesShape(data: seq<real>, rows: seq<int>, cols: seq<int>)
    requires |data| == |rows| == |cols| && FromTriples(data, rows, cols).Ok?
    ensures var m := FromTriples(data, rows, cols).value;
            (forall k :: 0 <= k < |data| ==> 0 <= rows[k] < m.nrows && 0 <= cols[k] < m.ncols) &&
            (exists k :: 0 <= k < |data| && rows[k] == m.nrows - 1) &&
            (exists k :: 0 <= k < |data| && cols[k] == m.ncols - 1)
  {
    assert forall k :: 0 <= k < |rows| ==> rows[k] in rows && cols[k] in cols;
  }

  /** The matrix built with rows and columns swapped is the transpose at `(i, j)`. */
  lemma {:induction false} AccumulateTransposed(data: seq<real>, rows: seq<int>, cols: seq<int>, n: nat, i: int, j: int)
    requires |data| == |rows| == |cols| && n <= |data|
    ensures (i, j) in Accumulate(data, rows, cols, n) <==> (j, i) in Accumulate(data, cols, rows, n)
    ensures (i, j) in Accumulate(data, rows, cols, n) ==>
              Accumulate(data, rows, cols, n)[(i, j)] == Accumulate(data, cols, rows, n)[(j, i)]
  {
    if n > 0 {
      AccumulateTransposed(data, rows, cols, n - 1, i, j);
    }
  }

  /** Both orientations built from the same triples fail together, or are transposes of each other:
      swapped shapes and `a[i, j] == b[j, i]` at every stored coordinate. */
  lemma {:induction false} TriplesTransposed(data: seq<real>, rows: seq<int>, cols: seq<int>)
    requires |data| == |rows| == |cols|
    ensures FromTriples(data, rows, cols).Ok? <==> FromTriples(data, cols, rows).Ok?
    ensures FromTriples(data, rows, cols).Ok? ==>
              var a, b := FromTriples(data, rows, cols).value, FromTriples(data, cols, rows).value;
              a.nrows == b.ncols && a.ncols == b.nrows &&
              (forall i, j :: (i, j) in a.entries <==> (j, i) in b.entries) &&
              (forall i, j :: (i, j) in a.entries ==> a.entries[(i, j)] == b.entries[(j, i)])
  {
    if FromTriples(data, rows, cols).Ok? {
      var a, b := FromTriples(data, rows, cols).value, FromTriples(data, cols, rows).value;
      forall i, j ensures ((i, j) in a.entries <==> (j, i) in b.entries) &&
                          ((i, j) in a.entries ==> a.entries[(i, j)] == b.entries[(j, i)])
      {
        AccumulateTransposed(data, rows, cols, |data|, i, j);
      }
    }
  }

  /** Swapping rows and columns does not change whether the matrix can be built. */
  lemma {:induction false} TriplesSwappedOk(data: seq<real>, rows: seq<int>, cols: seq<int>)
    requires |data| == |rows| == |cols|
    ensures FromTriples(data, rows, cols).Ok? <==> FromTriples(data, cols, rows).Ok?
  {
  }

  /** When no coordinate is listed twice, each stored value is the value given for it. */
  lemma {:induction false} AccumulateDistinct(data: seq<real>, rows: seq<int>, cols: seq<int>, n: nat, k: nat)
    requires |data| == |rows| == |cols| && k < n <= |data|
    requires forall j :: 0 <= j < n && j != k ==> (rows[j], cols[j]) != (rows[k], cols[k])
    ensures (rows[k], cols[k]) in Accumulate(data, rows, cols, n)
    ensures Accumulate(data, rows, cols, n)[(rows[k], cols[k])] == data[k]
  {
    if k < n - 1 {
      AccumulateDistinct(data, rows, cols, n - 1, k);
    } else {
      AccumulateKeys(data, rows, cols, n - 1);
      assert (rows[k], cols[k]) !in Accumulate(data, rows, cols, n - 1);
    }
  }

  /** `m * alpha`: every stored value is multiplied, the sparsity pattern and shape are kept. */
  function Scale(m: Matrix, alpha: real): (r: Matrix)
    ensures r.nrows == m.nrows && r.ncols == m.ncols && r.entries.Keys == m.entries.Keys
    ensures forall p :: p in m.entries ==> r.entries[p] == m.entries[p] * alpha
  {
    Matrix(m.nrows, m.ncols, map p | p in m.entries :: m.entries[p] * alpha)
  }
}
