/** Two-dimensional numeric arrays and the numpy indexing the pipeline relies on. */
module Matrices {
  import opened Results

  /** A 2-D array. The column count is kept apart from the rows because a numpy
      array with zero rows still has a width. */
  datatype Matrix = Matrix(cols: nat, rows: seq<seq<real>>)

  /** Every row has exactly `cols` entries (numpy arrays are rectangular). */
  predicate WellFormed(m: Matrix)
  {
    forall i :: 0 <= i < |m.rows| ==> |m.rows[i]| == m.cols
  }

  /** An index numpy accepts on an axis of length d: negative indices count from the end. */
  predicate InBounds(d: nat, c: int)
  {
    -(d as int) <= c < d
  }

  /** The position an in-bounds index denotes. */
  function Resolve(d: nat, c: int): (p: nat)
    requires InBounds(d, c)
    ensures p < d
    ensures c >= 0 ==> p == c
    ensures c < 0 ==> p + (-c) == d
  {
    if c < 0 then c + d else c
  }

  /** Position of the first out-of-bounds index, or |idx| when all are in bounds. */
  function FirstOutOfBounds(d: nat, idx: seq<int>): (k: nat)
    ensures k <= |idx|
    ensures forall j :: 0 <= j < k ==> InBounds(d, idx[j])
    ensures k < |idx| ==> !InBounds(d, idx[k])
  {
    if |idx| == 0 then 0
    else if !InBounds(d, idx[0]) then 0
    else 1 + FirstOutOfBounds(d, idx[1..])
  }

  /** `m[:, idx]`: the listed columns of every row, in the listed order (repeats allowed).
      numpy raises IndexError for an index outside [-cols, cols). */
  function ProjectColumns(m: Matrix, idx: seq<int>): (r: Result<Matrix>)
    requires WellFormed(m)
    ensures r.Ok? <==> forall k :: 0 <= k < |idx| ==> InBounds(m.cols, idx[k])
    ensures r.Err? ==> exists k :: 0 <= k < |idx| && !InBounds(m.cols, idx[k]) && r.failure == IndexOutOfRange(idx[k])
    ensures r.Ok? ==> WellFormed(r.value) && r.value.cols == |idx| && |r.value.rows| == |m.rows|
    ensures r.Ok? ==> forall i, k :: 0 <= i < |m.rows| && 0 <= k < |idx| ==>
                        r.value.rows[i][k] == m.rows[i][Resolve(m.cols, idx[k])]
  {
    var bad := FirstOutOfBounds(m.cols, idx);
    if bad < |idx| then Err(IndexOutOfRange(idx[bad]))
    else Ok(Matrix(|idx|, seq(|m.rows|, i requires 0 <= i < |m.rows| =>
                              seq(|idx|, k requires 0 <= k < |idx| => m.rows[i][Resolve(m.cols, idx[k])]))))
  }

  /** `m[idx]` for row indices already known to be valid (they come from np.where). */
  function SelectRows(m: Matrix, idx: seq<nat>): (r: Matrix)
    requires WellFormed(m)
    requires forall k :: 0 <= k < |idx| ==> idx[k] < |m.rows|
    ensures WellFormed(r) && r.cols == m.cols && |r.rows| == |idx|
    ensures forall k :: 0 <= k < |idx| ==> r.rows[k] == m.rows[idx[k]]
  {
    Matrix(m.cols, seq(|idx|, k requires 0 <= k < |idx| => m.rows[idx[k]]))
  }

  /** Column `j` of `m`, e.g. `predict_proba(...)[:, 1]`. */
  function Column(m: Matrix, j: nat): (r: seq<real>)
    requires WellFormed(m) && j < m.cols
    ensures |r| == |m.rows|
    ensures forall i :: 0 <= i < |m.rows| ==> r[i] == m.rows[i][j]
  {
    seq(|m.rows|, i requires 0 <= i < |m.rows| => m.rows[i][j])
  }
}
