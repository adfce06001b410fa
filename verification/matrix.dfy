/**
 The value type the graph stores in every node: a dense matrix of reals kept in
 row-major order. Only the three primitives the graph engine itself uses are
 modelled: a zero matrix of a given shape, the 1x1 matrix built from a scalar,
 and element-wise addition (the `+=` that accumulates gradients).
 */
module Matrices {

  /** A matrix shape: rows by columns. */
  datatype Dim = Dim(rows: nat, cols: nat)

  datatype RawMatrix = RawMatrix(rows: nat, cols: nat, data: seq<real>) {
    function Shape(): Dim {
      Dim(rows, cols)
    }
  }

  /** A matrix whose storage holds exactly rows * cols entries. */
  type Matrix = m: RawMatrix | |m.data| == m.rows * m.cols witness RawMatrix(0, 0, [])

  /** The default-constructed matrix: no rows, no columns. */
  const Empty: Matrix := RawMatrix(0, 0, [])

  /** `Zero(d)`: the all-zero matrix of shape `d`. */
  function Zero(d: Dim): (z: Matrix)
    ensures z.Shape() == d
    ensures forall k :: 0 <= k < |z.data| ==> z.data[k] == 0.0
  {
    RawMatrix(d.rows, d.cols, seq(d.rows * d.cols, _ => 0.0))
  }

  /** The 1x1 matrix whose single entry is `s`. */
  function Scalar(s: real): (m: Matrix)
    ensures m.rows == 1 && m.cols == 1 && m.data == [s]
  {
    RawMatrix(1, 1, [s])
  }

  /** Element-wise sum; the source's `+=` is only defined on equal shapes. */
  function Add(a: Matrix, b: Matrix): (c: Matrix)
    requires a.Shape() == b.Shape()
    ensures c.Shape() == a.Shape() && |c.data| == |a.data|
    ensures forall k :: 0 <= k < |c.data| ==> c.data[k] == a.data[k] + b.data[k]
  {
    RawMatrix(a.rows, a.cols, seq(|a.data|, k requires 0 <= k < |a.data| => a.data[k] + b.data[k]))
  }
}
