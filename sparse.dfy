/** `spdiag`: a diagonal matrix in compressed-sparse-row (CSR) layout, built
    from the triple (data, column indices, row pointers) as
    `scipy.sparse.csr_matrix((data, indices, indptr), shape)` takes it. */
module Sparse {

  /** A CSR matrix: row `r` holds the stored entries `indptr[r] .. indptr[r+1]-1`,
      entry `k` sitting in column `indices[k]` with value `data[k]`. */
  datatype Csr = Csr(nrows: nat, ncols: nat, data: seq<real>, indices: seq<int>, indptr: seq<int>)

  /** The structural invariants `csr_matrix` checks of its three arrays. */
  predicate WellFormed(m: Csr)
  {
    && |m.indptr| == m.nrows + 1
    && m.indptr[0] == 0
    && m.indptr[m.nrows] == |m.data| == |m.indices|
    && (forall r :: 0 <= r < m.nrows ==> m.indptr[r] <= m.indptr[r + 1])
    && (forall k :: 0 <= k < |m.indices| ==> 0 <= m.indices[k] < m.ncols)
  }

  /** The sum of the stored values in positions `lo .. hi-1` that sit in column
      `col` (CSR lookup adds duplicate entries together). */
  function StoredSum(m: Csr, col: int, lo: nat, hi: nat): real
    requires lo <= hi <= |m.data| && hi <= |m.indices|
    decreases hi - lo
  {
    if lo == hi then 0.0
    else (if m.indices[lo] == col then m.data[lo] else 0.0) + StoredSum(m, col, lo + 1, hi)
  }

  /** The value of entry (i, j) of a well-formed CSR matrix. */
  function Entry(m: Csr, i: nat, j: nat): real
    requires WellFormed(m) && i < m.nrows && j < m.ncols
  {
    assert 0 <= m.indptr[i] <= m.indptr[i + 1] <= m.indptr[m.nrows] by {
      RowPointersMonotone(m, 0, i);
      RowPointersMonotone(m, i + 1, m.nrows);
    }
    StoredSum(m, j, m.indptr[i], m.indptr[i + 1])
  }

  /** Row pointers never decrease. */
  lemma {:induction false} RowPointersMonotone(m: Csr, a: nat, b: nat)
    requires |m.indptr| == m.nrows + 1
    requires forall r :: 0 <= r < m.nrows ==> m.indptr[r] <= m.indptr[r + 1]
    requires a <= b <= m.nrows
    ensures m.indptr[a] <= m.indptr[b]
    decreases b - a
  {
    if a < b {
      RowPointersMonotone(m, a + 1, b);
    }
  }

  /** `numpy.arange(n)`. */
  function Range(n: nat): (r: seq<int>)
    ensures |r| == n
    ensures forall k :: 0 <= k < n ==> r[k] == k
  {
    seq(n, k => k)
  }

  /** `spdiag(v)`: row pointers `0..N`, column indices `0..N-1`, data `v`,
      shape N x N. */
  function Spdiag(v: seq<real>): (m: Csr)
    ensures m.nrows == |v| && m.ncols == |v| && m.data == v
    ensures |m.indptr| == |v| + 1 && forall r :: 0 <= r <= |v| ==> m.indptr[r] == r
    ensures |m.indices| == |v| && forall k :: 0 <= k < |v| ==> m.indices[k] == k
  {
    var inds := Range(|v| + 1);
    Csr(|v|, |v|, v, inds[..|v|], inds)
  }

  /** The three arrays of `spdiag(v)` form a well-formed N x N matrix with
      exactly one stored entry per row. */
  lemma SpdiagShape(v: seq<real>)
    ensures var m := Spdiag(v);
      && WellFormed(m)
      && m.nrows == |v| && m.ncols == |v|
      && m.data == v
      && (forall r :: 0 <= r < |v| ==> m.indptr[r + 1] - m.indptr[r] == 1)
  {
  }

  /** `spdiag(v)` is the diagonal matrix of `v`: entry (i, i) is `v[i]` and
      every other entry is zero. */
  lemma {:induction false} SpdiagEntry(v: seq<real>, i: nat, j: nat)
    requires i < |v| && j < |v|
    ensures WellFormed(Spdiag(v))
    ensures Entry(Spdiag(v), i, j) == if i == j then v[i] else 0.0
  {
    var m := Spdiag(v);
    SpdiagShape(v);
    assert m.indptr[i] == i && m.indptr[i + 1] == i + 1;
    assert StoredSum(m, j, i + 1, i + 1) == 0.0;
    assert m.indices[i] == i;
  }

  /** The product of a well-formed CSR matrix with a vector, row by row. */
  function MatVec(m: Csr, x: seq<real>): (y: seq<real>)
    requires WellFormed(m) && |x| == m.ncols
    ensures |y| == m.nrows
    ensures forall i :: 0 <= i < m.nrows ==> y[i] == RowValue(m, x, i)
  {
    seq(m.nrows, i requires 0 <= i < m.nrows => RowValue(m, x, i))
  }

  /** Row `i` of the product: the dot product of the row's stored entries. */
  function RowValue(m: Csr, x: seq<real>, i: nat): real
    requires WellFormed(m) && |x| == m.ncols && i < m.nrows
  {
    assert 0 <= m.indptr[i] <= m.indptr[i + 1] <= m.indptr[m.nrows] by {
      RowPointersMonotone(m, 0, i);
      RowPointersMonotone(m, i + 1, m.nrows);
    }
    RowDot(m, x, m.indptr[i], m.indptr[i + 1])
  }

  /** The sum of `data[k] * x[indices[k]]` over the stored positions `lo .. hi-1`. */
  function RowDot(m: Csr, x: seq<real>, lo: nat, hi: nat): real
    requires WellFormed(m) && |x| == m.ncols
    requires lo <= hi <= |m.data|
    decreases hi - lo
  {
    if lo == hi then 0.0
    else m.data[lo] * x[m.indices[lo]] + RowDot(m, x, lo + 1, hi)
  }

  /** Multiplying by `spdiag(v)` scales each component: `(spdiag(v) x)[i] == v[i] * x[i]`,
      which is what the diagonal matrix is built for. */
  lemma {:induction false} SpdiagScales(v: seq<real>, x: seq<real>, i: nat)
    requires |x| == |v| && i < |v|
    ensures WellFormed(Spdiag(v))
    ensures MatVec(Spdiag(v), x)[i] == v[i] * x[i]
  {
    var m := Spdiag(v);
    SpdiagShape(v);
    assert m.indptr[i] == i && m.indptr[i + 1] == i + 1;
    MatVecRow(m, x, i);
    RowDotSingle(m, x, i);
    assert m.indices[i] == i && m.data[i] == v[i];
  }

  /** Component `i` of the product is row `i`'s dot product. */
  lemma MatVecRow(m: Csr, x: seq<real>, i: nat)
    requires WellFormed(m) && |x| == m.ncols && i < m.nrows
    ensures 0 <= m.indptr[i] <= m.indptr[i + 1] <= |m.data|
    ensures MatVec(m, x)[i] == RowDot(m, x, m.indptr[i], m.indptr[i + 1])
  {
    assert MatVec(m, x)[i] == RowValue(m, x, i);
    RowPointersMonotone(m, 0, i);
    RowPointersMonotone(m, i + 1, m.nrows);
  }

  /** One stored position contributes its value times the matching component. */
  lemma RowDotSingle(m: Csr, x: seq<real>, k: nat)
    requires WellFormed(m) && |x| == m.ncols && k < |m.data|
    ensures RowDot(m, x, k, k + 1) == m.data[k] * x[m.indices[k]]
  {
    assert RowDot(m, x, k + 1, k + 1) == 0.0;
  }
}
