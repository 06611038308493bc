/** Channel-major image tensors, as torch lays them out: (channel, row, column). */
module Tensor {

  /** An image value: its three dimensions and its samples. */
  datatype Image = Image(channels: nat, rows: nat, cols: nat, px: seq<seq<seq<real>>>)
  {
    /** The samples really have the declared shape. */
    predicate Wf()
    {
      && |px| == channels
      && forall c :: 0 <= c < channels ==>
           && |px[c]| == rows
           && forall y :: 0 <= y < rows ==> |px[c][y]| == cols
    }

    function At(c: nat, y: nat, x: nat): real
      requires Wf() && c < channels && y < rows && x < cols
    {
      px[c][y][x]
    }

    /** Length of the axis a row-wise (byRow) or column-wise reorder moves along. */
    function AlongLen(byRow: bool): nat
    {
      if byRow then rows else cols
    }

    /** Length of the other spatial axis, copied in full. */
    function AcrossLen(byRow: bool): nat
    {
      if byRow then cols else rows
    }

    /** The sample at position `u` along the moved axis and `v` across it. */
    function Get(byRow: bool, c: nat, u: nat, v: nat): real
      requires Wf() && c < channels && u < AlongLen(byRow) && v < AcrossLen(byRow)
    {
      At(c, if byRow then u else v, if byRow then v else u)
    }
  }

  /** The all-zero image of a given shape (`torch.zeros`). */
  function Zeros(channels: nat, rows: nat, cols: nat): (z: Image)
    ensures z.Wf() && z.channels == channels && z.rows == rows && z.cols == cols
    ensures forall c, y, x :: 0 <= c < channels && 0 <= y < rows && 0 <= x < cols ==> z.At(c, y, x) == 0.0
  {
    Image(channels, rows, cols, seq(channels, _ => seq(rows, _ => seq(cols, _ => 0.0))))
  }

  /** The value currently held by a three-dimensional array. */
  ghost function Snapshot(a: array3<real>): (g: Image)
    reads a
    ensures g.Wf() && g.channels == a.Length0 && g.rows == a.Length1 && g.cols == a.Length2
    ensures forall c, y, x :: 0 <= c < a.Length0 && 0 <= y < a.Length1 && 0 <= x < a.Length2 ==>
              g.At(c, y, x) == a[c, y, x]
  {
    Image(a.Length0, a.Length1, a.Length2,
      seq(a.Length0, c requires 0 <= c < a.Length0 reads a =>
        seq(a.Length1, y requires 0 <= y < a.Length1 reads a =>
          seq(a.Length2, x requires 0 <= x < a.Length2 reads a => a[c, y, x]))))
  }

  /** Two well-formed images of one shape that agree on every sample are equal. */
  lemma Extensionality(g: Image, h: Image)
    requires g.Wf() && h.Wf()
    requires g.channels == h.channels && g.rows == h.rows && g.cols == h.cols
    requires forall c, y, x :: 0 <= c < g.channels && 0 <= y < g.rows && 0 <= x < g.cols ==>
               g.At(c, y, x) == h.At(c, y, x)
    ensures g == h
  {
    forall c | 0 <= c < g.channels
      ensures g.px[c] == h.px[c]
    {
      forall y | 0 <= y < g.rows
        ensures g.px[c][y] == h.px[c][y]
      {
        assert forall x :: 0 <= x < g.cols ==> g.px[c][y][x] == g.At(c, y, x);
      }
    }
  }
}
