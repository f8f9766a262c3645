/**
  Integer matrices and the zero padding that the label encoder, the batch
  collator and the trainer all apply. Tensor element values are integers
  here; the padding and truncation rules never look at them.
 */
module Matrices {

  /** `[0] * n` */
  function Zeros(n: nat): (z: seq<int>)
    ensures |z| == n
    ensures forall j :: 0 <= j < n ==> z[j] == 0
  {
    seq(n, _ => 0)
  }

  /**
    `row + [0] * (w - len(row))`, which is also what `F.pad(row, (0, w - len(row)))`
    does on the last axis; a non-positive count appends nothing.
   */
  function PadRight(row: seq<int>, w: int): (r: seq<int>)
    ensures |r| == if w > |row| then w else |row|
    ensures row <= r
    ensures forall j :: |row| <= j < |r| ==> r[j] == 0
  {
    row + Zeros(if w > |row| then w - |row| else 0)
  }

  /** A two-dimensional tensor: its rows and its number of columns (the shape is kept even with no rows). */
  datatype Matrix = Matrix(rows: seq<seq<int>>, cols: nat)

  /** Every row has exactly `cols` entries. */
  predicate Rectangular(m: Matrix)
  {
    forall i :: 0 <= i < |m.rows| ==> |m.rows[i]| == m.cols
  }

  /** The entry at (i, j), reading 0 outside the stored rows: what zero padding fills in. */
  function Entry(m: Matrix, i: nat, j: nat): int
  {
    if i < |m.rows| && j < |m.rows[i]| then m.rows[i][j] else 0
  }

  /** `n` rows of `w` zeros. */
  function ZeroRows(n: nat, w: nat): (z: seq<seq<int>>)
    ensures |z| == n
    ensures forall i :: 0 <= i < n ==> z[i] == Zeros(w)
  {
    seq(n, _ => Zeros(w))
  }

  /** The largest of some naturals, 0 for none. */
  function Max(xs: seq<nat>): (m: nat)
    ensures forall i :: 0 <= i < |xs| ==> xs[i] <= m
    ensures xs != [] ==> exists i :: 0 <= i < |xs| && xs[i] == m
    ensures xs == [] ==> m == 0
    decreases |xs|
  {
    if xs == [] then 0
    else
      var m := Max(xs[..|xs| - 1]);
      if xs[|xs| - 1] > m then xs[|xs| - 1] else m
  }

  /** Right-pads every row with zeros to `w` columns: `F.pad(m, (0, w - cols))`. */
  function PadCols(m: Matrix, w: nat): (r: Matrix)
    requires Rectangular(m) && m.cols <= w
    ensures Rectangular(r) && r.cols == w && |r.rows| == |m.rows|
    ensures forall i, j :: 0 <= i < |r.rows| && 0 <= j < w ==> r.rows[i][j] == Entry(m, i, j)
  {
    Matrix(seq(|m.rows|, i requires 0 <= i < |m.rows| => PadRight(m.rows[i], w)), w)
  }

  /** Appends rows of zeros up to `h` rows: `F.pad(m, (0, 0, 0, h - rows))`. */
  function PadRows(m: Matrix, h: nat): (r: Matrix)
    requires Rectangular(m) && |m.rows| <= h
    ensures Rectangular(r) && r.cols == m.cols && |r.rows| == h
    ensures forall i, j :: 0 <= i < h && 0 <= j < m.cols ==> r.rows[i][j] == Entry(m, i, j)
  {
    Matrix(m.rows + ZeroRows(h - |m.rows|, m.cols), m.cols)
  }

  /** The first `h` rows: `m[:h, :]`. */
  function TakeRows(m: Matrix, h: nat): (r: Matrix)
    requires Rectangular(m) && h <= |m.rows|
    ensures Rectangular(r) && r.cols == m.cols && |r.rows| == h
    ensures forall i, j :: 0 <= i < h && 0 <= j < m.cols ==> r.rows[i][j] == Entry(m, i, j)
  {
    Matrix(m.rows[..h], m.cols)
  }

  /** The first `w` columns of every row: `m[:, :w]`. */
  function TakeCols(m: Matrix, w: nat): (r: Matrix)
    requires Rectangular(m) && w <= m.cols
    ensures Rectangular(r) && r.cols == w && |r.rows| == |m.rows|
    ensures forall i, j :: 0 <= i < |r.rows| && 0 <= j < w ==> r.rows[i][j] == Entry(m, i, j)
  {
    Matrix(seq(|m.rows|, i requires 0 <= i < |m.rows| => m.rows[i][..w]), w)
  }
}
