/** The comparison batch of `Visualizer.reconstructions`: the original images, then their
    reconstructions, each list topped up with blank images when the grid asks for more
    images than were supplied. */
module Reconstructions {
  import opened Tensor

  /** Every image of the batch is a well-formed channels x rows x cols image. */
  predicate Shaped(batch: seq<Image>, channels: nat, rows: nat, cols: nat)
  {
    forall i :: 0 <= i < |batch| ==>
      batch[i].Wf() && batch[i].channels == channels && batch[i].rows == rows && batch[i].cols == cols
  }

  /** How many blank images pad each half: the shortfall of examples against the
      requested count, or none. */
  function Shortfall(requested: int, supplied: nat): (k: nat)
    ensures supplied + k == if requested > supplied then requested else supplied
  {
    if requested > supplied then requested - supplied else 0
  }

  /** `count` all-zero images of the given shape. */
  function Blanks(count: nat, channels: nat, rows: nat, cols: nat): (b: seq<Image>)
    ensures |b| == count && Shaped(b, channels, rows, cols)
    ensures forall i :: 0 <= i < count ==> b[i] == Zeros(channels, rows, cols)
  {
    seq(count, _ => Zeros(channels, rows, cols))
  }

  /** The batch handed to the grid: padded originals followed by padded reconstructions,
      both padded with the same blanks. */
  function Comparison(originals: seq<Image>, recons: seq<Image>, requested: int,
                      channels: nat, rows: nat, cols: nat): seq<Image>
  {
    var blanks := Blanks(Shortfall(requested, |originals|), channels, rows, cols);
    (originals + blanks) + (recons + blanks)
  }

  /** The batch lays out, in order: every original, the blanks, every reconstruction,
      the blanks again; the blanks are zero images shaped like the originals. */
  lemma ComparisonLayout(originals: seq<Image>, recons: seq<Image>, requested: int,
                         channels: nat, rows: nat, cols: nat)
    requires Shaped(originals, channels, rows, cols) && Shaped(recons, channels, rows, cols)
    ensures var k := Shortfall(requested, |originals|);
            var r := Comparison(originals, recons, requested, channels, rows, cols);
            var top := |originals| + k;
            |r| == top + |recons| + k &&
            Shaped(r, channels, rows, cols) &&
            (forall i :: 0 <= i < |originals| ==> r[i] == originals[i]) &&
            (forall i :: |originals| <= i < top ==> r[i] == Zeros(channels, rows, cols)) &&
            (forall i :: 0 <= i < |recons| ==> r[top + i] == recons[i]) &&
            (forall i :: top + |recons| <= i < |r| ==> r[i] == Zeros(channels, rows, cols))
  {
  }

  /** When the model returns one reconstruction per original (its contract), the two
      halves have equal length, the batch holds 2 * max(requested, examples) images,
      and image i of the top half sits directly above image i of the bottom half. */
  lemma ComparisonHalves(originals: seq<Image>, recons: seq<Image>, requested: int,
                         channels: nat, rows: nat, cols: nat)
    requires |recons| == |originals|
    ensures var r := Comparison(originals, recons, requested, channels, rows, cols);
            var half := if requested > |originals| then requested else |originals|;
            |r| == 2 * half &&
            forall i :: 0 <= i < |originals| ==> r[i] == originals[i] && r[half + i] == recons[i]
  {
  }

  /** With at least as many examples as requested nothing is padded or dropped: the
      batch is every original followed by every reconstruction. */
  lemma EnoughExamples(originals: seq<Image>, recons: seq<Image>, requested: int,
                       channels: nat, rows: nat, cols: nat)
    requires requested <= |originals|
    ensures Comparison(originals, recons, requested, channels, rows, cols) == originals + recons
  {
    assert Blanks(0, channels, rows, cols) == [];
  }
}
