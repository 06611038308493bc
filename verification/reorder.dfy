/** `reorder_img`: rearranges the cell bands of a grid image laid out as
    `torchvision.utils.make_grid` lays it out, into a fresh zero-filled canvas.

    Along the moved axis (rows when `byRow`, columns otherwise) cell `k` starts at
    `k * (padding + dim) + padding`, where `dim` is the cell height or width. For each
    position `j` of `reorder`, the band of `dim` lines starting at cell `reorder[j]`
    is copied to the band starting at cell `j`, across all channels and the whole
    other axis. Slices follow Python/torch rules: a slice that runs off the canvas is
    clipped, a one-line source is broadcast, and any other length mismatch makes
    torch raise. */
module Reorder {
  import opened Outcome
  import opened Tensor

  /** First line of cell `idx` along the moved axis: a leading border of `pad` lines,
      then `dim + pad` lines per earlier cell (StartFormula gives the closed form). */
  function Start(idx: nat, dim: nat, pad: nat): nat
  {
    if idx == 0 then pad else Start(idx - 1, dim, pad) + dim + pad
  }

  /** Cell `idx` starts at `idx * (padding + dim) + padding`, as `reorder_img` computes it. */
  lemma {:induction false} StartFormula(idx: nat, dim: nat, pad: nat)
    ensures Start(idx, dim, pad) == idx * (pad + dim) + pad
  {
    if idx > 0 {
      StartFormula(idx - 1, dim, pad);
      assert idx * (pad + dim) == (idx - 1) * (pad + dim) + (pad + dim);
    }
  }

  function Min(a: nat, b: nat): nat
  {
    if a <= b then a else b
  }

  /** Number of lines the slice `[start, start + dim)` keeps on an axis of `n` lines. */
  function Span(start: nat, dim: nat, n: nat): (k: nat)
    ensures k <= dim && (k == 0 || start + k <= n)
    ensures start < n ==> k == Min(dim, n - start)
  {
    if start >= n then 0 else Min(dim, n - start)
  }

  /** Which source line feeds line `t` of a destination slice of `la` lines copied from
      a source slice of `lb` lines: the same line, or the only one when it is broadcast. */
  function SourceOffset(t: nat, la: nat, lb: nat): nat
  {
    if la == lb then t else 0
  }

  /** torch accepts the copy of pair (`newIdx`, `oldIdx`): equal slice lengths, or a
      one-line source to broadcast. */
  predicate PairFits(newIdx: nat, oldIdx: nat, dim: nat, pad: nat, n: nat)
  {
    var la := Span(Start(newIdx, dim, pad), dim, n);
    var lb := Span(Start(oldIdx, dim, pad), dim, n);
    la == lb || lb == 1
  }

  /** torch accepts the first `k` pairs of `rs`. */
  predicate FitsUpTo(rs: seq<nat>, k: nat, dim: nat, pad: nat, n: nat)
  {
    k <= |rs| && forall j :: 0 <= j < k ==> PairFits(j, rs[j], dim, pad, n)
  }

  /** torch accepts every pair of `rs`. */
  predicate AllFit(rs: seq<nat>, dim: nat, pad: nat, n: nat)
  {
    FitsUpTo(rs, |rs|, dim, pad, n)
  }

  /** Line `u` lies in the (clipped) destination band of position `j`. */
  predicate InBand(j: nat, u: nat, dim: nat, pad: nat, n: nat)
  {
    Start(j, dim, pad) <= u < Start(j, dim, pad) + Span(Start(j, dim, pad), dim, n)
  }

  /** The source line that pair `j` copies to line `u` of its band. */
  function BandSource(rs: seq<nat>, j: nat, dim: nat, pad: nat, n: nat, u: nat): nat
    requires j < |rs| && Start(j, dim, pad) <= u
  {
    var a, b := Start(j, dim, pad), Start(rs[j], dim, pad);
    b + SourceOffset(u - a, Span(a, dim, n), Span(b, dim, n))
  }

  /** The source line copied to line `u` once the first `k` pairs of `rs` have been
      applied in order (a later pair overwrites an earlier one), or None when none of
      them writes `u`. */
  function SourceLine(rs: seq<nat>, k: nat, dim: nat, pad: nat, n: nat, u: nat): (r: Option<nat>)
    requires FitsUpTo(rs, k, dim, pad, n)
    ensures r.Some? ==> r.value < n
  {
    if k == 0 then None
    else if InBand(k - 1, u, dim, pad, n) then Some(BandSource(rs, k - 1, dim, pad, n, u))
    else SourceLine(rs, k - 1, dim, pad, n, u)
  }

  /** Cell height or width, whichever axis is moved. */
  function MovedDim(byRow: bool, height: nat, width: nat): nat
  {
    if byRow then height else width
  }

  /** Output sample (c, u, v), with u along the moved axis and v across it, once the
      first `k` pairs of `rs` have been applied to a zero canvas. */
  function PixelOf(g: Image, rs: seq<nat>, k: nat, byRow: bool, dim: nat, pad: nat, c: nat, u: nat, v: nat): real
    requires g.Wf() && FitsUpTo(rs, k, dim, pad, g.AlongLen(byRow))
    requires c < g.channels && u < g.AlongLen(byRow) && v < g.AcrossLen(byRow)
  {
    match SourceLine(rs, k, dim, pad, g.AlongLen(byRow), u)
    case Some(w) => g.Get(byRow, c, w, v)
    case None => 0.0
  }

  /** One loop step: if the canvas held the result of the first `j` pairs and pair `j`
      then overwrites its band with its source lines, the canvas holds the result of
      the first `j + 1` pairs. */
  lemma BandStep(g: Image, before: Image, after: Image, rs: seq<nat>, j: nat, byRow: bool, dim: nat, pad: nat)
    requires g.Wf() && before.Wf() && after.Wf()
    requires before.channels == after.channels == g.channels
    requires before.rows == after.rows == g.rows && before.cols == after.cols == g.cols
    requires j < |rs| && FitsUpTo(rs, j + 1, dim, pad, g.AlongLen(byRow)) && FitsUpTo(rs, j, dim, pad, g.AlongLen(byRow))
    requires forall c, u, v :: 0 <= c < g.channels && 0 <= u < g.AlongLen(byRow) && 0 <= v < g.AcrossLen(byRow) ==>
               before.Get(byRow, c, u, v) == PixelOf(g, rs, j, byRow, dim, pad, c, u, v)
    requires forall c, u, v :: 0 <= c < g.channels && 0 <= u < g.AlongLen(byRow) && 0 <= v < g.AcrossLen(byRow) ==>
               after.Get(byRow, c, u, v)
               == if InBand(j, u, dim, pad, g.AlongLen(byRow)) then g.Get(byRow, c, BandSource(rs, j, dim, pad, g.AlongLen(byRow), u), v)
                  else before.Get(byRow, c, u, v)
    ensures forall c, u, v :: 0 <= c < g.channels && 0 <= u < g.AlongLen(byRow) && 0 <= v < g.AcrossLen(byRow) ==>
              after.Get(byRow, c, u, v) == PixelOf(g, rs, j + 1, byRow, dim, pad, c, u, v)
  {
  }

  /** The value `reorder_img(g, rs, byRow, (_, height, width), pad)` computes. */
  function Reordered(g: Image, rs: seq<nat>, byRow: bool, height: nat, width: nat, pad: nat): (r: Result<Image>)
    requires g.Wf()
    ensures r.Ok? <==> AllFit(rs, MovedDim(byRow, height, width), pad, g.AlongLen(byRow))
    ensures r.Ok? ==> r.value.Wf() && r.value.channels == g.channels && r.value.rows == g.rows && r.value.cols == g.cols
  {
    var dim := MovedDim(byRow, height, width);
    if !AllFit(rs, dim, pad, g.AlongLen(byRow)) then Err(ShapeMismatch)
    else
      Ok(Image(g.channels, g.rows, g.cols,
        seq(g.channels, c requires 0 <= c < g.channels =>
          seq(g.rows, y requires 0 <= y < g.rows =>
            seq(g.cols, x requires 0 <= x < g.cols =>
              PixelOf(g, rs, |rs|, byRow, dim, pad, c, if byRow then y else x, if byRow then x else y))))))
  }

  /** Sample access into the reordered image, in along/across coordinates. */
  lemma ReorderedGet(g: Image, rs: seq<nat>, byRow: bool, height: nat, width: nat, pad: nat, c: nat, u: nat, v: nat)
    requires g.Wf() && AllFit(rs, MovedDim(byRow, height, width), pad, g.AlongLen(byRow))
    requires c < g.channels && u < g.AlongLen(byRow) && v < g.AcrossLen(byRow)
    ensures Reordered(g, rs, byRow, height, width, pad).value.Get(byRow, c, u, v)
         == PixelOf(g, rs, |rs|, byRow, MovedDim(byRow, height, width), pad, c, u, v)
  {
  }

  /** A later band starts past an earlier band and its trailing gutter. */
  lemma {:induction false} StartGap(i: nat, j: nat, dim: nat, pad: nat)
    requires i < j
    ensures Start(i, dim, pad) + dim + pad <= Start(j, dim, pad)
    decreases j
  {
    if i < j - 1 {
      StartGap(i, j - 1, dim, pad);
    }
  }

  /** Band copy: a destination line of position `i` holds the line of cell `rs[i]`
      it was copied from; no later pair writes into band `i`. */
  lemma {:induction false} SourceLineOfBand(rs: seq<nat>, k: nat, dim: nat, pad: nat, n: nat, i: nat, t: nat)
    requires FitsUpTo(rs, k, dim, pad, n) && i < k
    requires t < Span(Start(i, dim, pad), dim, n)
    ensures SourceLine(rs, k, dim, pad, n, Start(i, dim, pad) + t)
         == Some(Start(rs[i], dim, pad)
                 + SourceOffset(t, Span(Start(i, dim, pad), dim, n), Span(Start(rs[i], dim, pad), dim, n)))
  {
    if i < k - 1 {
      StartGap(i, k - 1, dim, pad);
      assert !InBand(k - 1, Start(i, dim, pad) + t, dim, pad, n);
      SourceLineOfBand(rs, k - 1, dim, pad, n, i, t);
    }
  }

  /** A line outside every destination band is written by no pair. */
  lemma {:induction false} SourceLineOutside(rs: seq<nat>, k: nat, dim: nat, pad: nat, n: nat, u: nat)
    requires FitsUpTo(rs, k, dim, pad, n)
    requires forall j :: 0 <= j < k ==> !InBand(j, u, dim, pad, n)
    ensures SourceLine(rs, k, dim, pad, n, u) == None
  {
    if k > 0 {
      SourceLineOutside(rs, k - 1, dim, pad, n, u);
    }
  }

  /** Every band of the first `m` cells lies wholly inside an axis of `n` lines. */
  predicate BandsFit(m: nat, dim: nat, pad: nat, n: nat)
  {
    forall i :: 0 <= i < m ==> Start(i, dim, pad) + dim <= n
  }

  /** `p` and `q` are permutations of 0..|p|-1, each undoing the other. */
  predicate Inverses(p: seq<nat>, q: seq<nat>)
  {
    && |p| == |q|
    && (forall j :: 0 <= j < |p| ==> p[j] < |p| && q[j] < |q|)
    && (forall j {:trigger p[q[j]]} :: 0 <= j < |p| ==> p[q[j]] == j)
    && (forall j {:trigger q[p[j]]} :: 0 <= j < |p| ==> q[p[j]] == j)
  }

  /** The identity permutation of `m` cells. */
  function Identity(m: nat): (rs: seq<nat>)
    ensures |rs| == m && forall k :: 0 <= k < m ==> rs[k] == k
  {
    seq(m, k => k)
  }

  /** A band that fits is not clipped. */
  lemma FullSpan(j: nat, dim: nat, pad: nat, n: nat)
    requires Start(j, dim, pad) + dim <= n
    ensures Span(Start(j, dim, pad), dim, n) == dim
  {
  }

  /** When all bands fit and every entry names a cell, torch accepts every copy. */
  lemma AllFitWhenBandsFit(rs: seq<nat>, dim: nat, pad: nat, n: nat)
    requires BandsFit(|rs|, dim, pad, n)
    requires forall j :: 0 <= j < |rs| ==> rs[j] < |rs|
    ensures AllFit(rs, dim, pad, n)
  {
    forall j | 0 <= j < |rs|
      ensures PairFits(j, rs[j], dim, pad, n)
    {
      FullSpan(j, dim, pad, n);
      FullSpan(rs[j], dim, pad, n);
    }
  }

  /** Band copy: line `t` of destination band `i` holds line `t` of source band `rs[i]`
      (or its only line, when a clipped one-line band is broadcast), on every channel
      and across the whole other axis. */
  lemma BandCopied(g: Image, rs: seq<nat>, byRow: bool, height: nat, width: nat, pad: nat,
                   i: nat, c: nat, t: nat, v: nat)
    requires g.Wf() && AllFit(rs, MovedDim(byRow, height, width), pad, g.AlongLen(byRow))
    requires i < |rs| && c < g.channels && v < g.AcrossLen(byRow)
    requires t < Span(Start(i, MovedDim(byRow, height, width), pad), MovedDim(byRow, height, width), g.AlongLen(byRow))
    ensures var dim, n := MovedDim(byRow, height, width), g.AlongLen(byRow);
            var la, lb := Span(Start(i, dim, pad), dim, n), Span(Start(rs[i], dim, pad), dim, n);
            && Start(rs[i], dim, pad) + SourceOffset(t, la, lb) < n
            && Reordered(g, rs, byRow, height, width, pad).value.Get(byRow, c, Start(i, dim, pad) + t, v)
               == g.Get(byRow, c, Start(rs[i], dim, pad) + SourceOffset(t, la, lb), v)
  {
    var dim := MovedDim(byRow, height, width);
    SourceLineOfBand(rs, |rs|, dim, pad, g.AlongLen(byRow), i, t);
    ReorderedGet(g, rs, byRow, height, width, pad, c, Start(i, dim, pad) + t, v);
  }

  /** A line that no destination band covers comes out zero, never copied from the input. */
  lemma UncoveredZero(g: Image, rs: seq<nat>, byRow: bool, height: nat, width: nat, pad: nat,
                      c: nat, u: nat, v: nat)
    requires g.Wf() && AllFit(rs, MovedDim(byRow, height, width), pad, g.AlongLen(byRow))
    requires c < g.channels && u < g.AlongLen(byRow) && v < g.AcrossLen(byRow)
    requires forall j :: 0 <= j < |rs| ==> !InBand(j, u, MovedDim(byRow, height, width), pad, g.AlongLen(byRow))
    ensures Reordered(g, rs, byRow, height, width, pad).value.Get(byRow, c, u, v) == 0.0
  {
    SourceLineOutside(rs, |rs|, MovedDim(byRow, height, width), pad, g.AlongLen(byRow), u);
    ReorderedGet(g, rs, byRow, height, width, pad, c, u, v);
  }

  /** Gutter lines (the leading border, and the `pad` lines after any cell) are zero in
      the output, whatever the input held there. */
  lemma GutterZero(g: Image, rs: seq<nat>, byRow: bool, height: nat, width: nat, pad: nat,
                   c: nat, i: nat, u: nat, v: nat)
    requires g.Wf() && AllFit(rs, MovedDim(byRow, height, width), pad, g.AlongLen(byRow))
    requires c < g.channels && u < g.AlongLen(byRow) && v < g.AcrossLen(byRow)
    requires u < pad
          || (Start(i, MovedDim(byRow, height, width), pad) + MovedDim(byRow, height, width) <= u
              && u < Start(i + 1, MovedDim(byRow, height, width), pad))
    ensures Reordered(g, rs, byRow, height, width, pad).value.Get(byRow, c, u, v) == 0.0
  {
    var dim, n := MovedDim(byRow, height, width), g.AlongLen(byRow);
    forall j | 0 <= j < |rs|
      ensures !InBand(j, u, dim, pad, n)
    {
      if pad <= u {
        if j < i {
          StartGap(j, i, dim, pad);
        } else if i + 1 < j {
          StartGap(i + 1, j, dim, pad);
        }
      }
    }
    UncoveredZero(g, rs, byRow, height, width, pad, c, u, v);
  }

  /** The identity reorder keeps every cell band (its gutters still come out zero, as
      GutterZero states). */
  lemma IdentityKeepsCells(g: Image, m: nat, byRow: bool, height: nat, width: nat, pad: nat,
                           i: nat, c: nat, t: nat, v: nat)
    requires g.Wf() && BandsFit(m, MovedDim(byRow, height, width), pad, g.AlongLen(byRow))
    requires i < m && t < MovedDim(byRow, height, width) && c < g.channels && v < g.AcrossLen(byRow)
    ensures Reordered(g, Identity(m), byRow, height, width, pad).Ok?
    ensures Reordered(g, Identity(m), byRow, height, width, pad).value.Get(byRow, c, Start(i, MovedDim(byRow, height, width), pad) + t, v)
         == g.Get(byRow, c, Start(i, MovedDim(byRow, height, width), pad) + t, v)
  {
    var dim, n := MovedDim(byRow, height, width), g.AlongLen(byRow);
    AllFitWhenBandsFit(Identity(m), dim, pad, n);
    FullSpan(i, dim, pad, n);
    BandCopied(g, Identity(m), byRow, height, width, pad, i, c, t, v);
  }

  /** Band copy for a reorder list whose bands all fit: band `i` of the output is band
      `rs[i]` of the input, line for line. */
  lemma BandCopiedFull(g: Image, rs: seq<nat>, byRow: bool, height: nat, width: nat, pad: nat,
                       i: nat, c: nat, t: nat, v: nat)
    requires g.Wf() && BandsFit(|rs|, MovedDim(byRow, height, width), pad, g.AlongLen(byRow))
    requires forall j :: 0 <= j < |rs| ==> rs[j] < |rs|
    requires i < |rs| && t < MovedDim(byRow, height, width) && c < g.channels && v < g.AcrossLen(byRow)
    ensures Reordered(g, rs, byRow, height, width, pad).Ok?
    ensures Reordered(g, rs, byRow, height, width, pad).value.Get(byRow, c, Start(i, MovedDim(byRow, height, width), pad) + t, v)
         == g.Get(byRow, c, Start(rs[i], MovedDim(byRow, height, width), pad) + t, v)
  {
    var dim, n := MovedDim(byRow, height, width), g.AlongLen(byRow);
    AllFitWhenBandsFit(rs, dim, pad, n);
    FullSpan(i, dim, pad, n);
    FullSpan(rs[i], dim, pad, n);
    BandCopied(g, rs, byRow, height, width, pad, i, c, t, v);
  }

  /** Round trip: reordering by a permutation `p` and then by its inverse `q` restores
      every cell band of the original. */
  lemma RoundTrip(g: Image, p: seq<nat>, q: seq<nat>, byRow: bool, height: nat, width: nat, pad: nat,
                  i: nat, c: nat, t: nat, v: nat)
    requires g.Wf() && Inverses(p, q)
    requires BandsFit(|p|, MovedDim(byRow, height, width), pad, g.AlongLen(byRow))
    requires i < |p| && t < MovedDim(byRow, height, width) && c < g.channels && v < g.AcrossLen(byRow)
    ensures Reordered(g, p, byRow, height, width, pad).Ok?
    ensures Reordered(Reordered(g, p, byRow, height, width, pad).value, q, byRow, height, width, pad).Ok?
    ensures Reordered(Reordered(g, p, byRow, height, width, pad).value, q, byRow, height, width, pad).value
              .Get(byRow, c, Start(i, MovedDim(byRow, height, width), pad) + t, v)
         == g.Get(byRow, c, Start(i, MovedDim(byRow, height, width), pad) + t, v)
  {
    var j := q[i];
    assert p[j] == i;
    BandCopiedFull(g, p, byRow, height, width, pad, j, c, t, v);
    var h := Reordered(g, p, byRow, height, width, pad).value;
    assert h.AlongLen(byRow) == g.AlongLen(byRow) && h.AcrossLen(byRow) == g.AcrossLen(byRow);
    BandCopiedFull(h, q, byRow, height, width, pad, i, c, t, v);
  }

  /** On a three-band grid, the order [1, 0, 2] swaps the first two bands and leaves the
      third where it was. */
  lemma SwapFirstTwo(g: Image, byRow: bool, height: nat, width: nat, pad: nat, c: nat, t: nat, v: nat)
    requires g.Wf() && BandsFit(3, MovedDim(byRow, height, width), pad, g.AlongLen(byRow))
    requires t < MovedDim(byRow, height, width) && c < g.channels && v < g.AcrossLen(byRow)
    ensures var dim, r := MovedDim(byRow, height, width), Reordered(g, [1, 0, 2], byRow, height, width, pad);
            r.Ok? &&
            r.value.Get(byRow, c, Start(0, dim, pad) + t, v) == g.Get(byRow, c, Start(1, dim, pad) + t, v) &&
            r.value.Get(byRow, c, Start(1, dim, pad) + t, v) == g.Get(byRow, c, Start(0, dim, pad) + t, v) &&
            r.value.Get(byRow, c, Start(2, dim, pad) + t, v) == g.Get(byRow, c, Start(2, dim, pad) + t, v)
  {
    var swap: seq<nat> := [1, 0, 2];
    BandCopiedFull(g, swap, byRow, height, width, pad, 0, c, t, v);
    BandCopiedFull(g, swap, byRow, height, width, pad, 1, c, t, v);
    BandCopiedFull(g, swap, byRow, height, width, pad, 2, c, t, v);
  }

  /** One row-band slice assignment `out[:, a:a+la, :] = orig[:, b:b+lb, :]`. */
  method CopyRows(out: array3<real>, orig: array3<real>, a: nat, la: nat, b: nat, lb: nat)
    requires out != orig
    requires out.Length0 == orig.Length0 && out.Length1 == orig.Length1 && out.Length2 == orig.Length2
    requires la == 0 || a + la <= out.Length1
    requires forall t :: 0 <= t < la ==> b + SourceOffset(t, la, lb) < orig.Length1
    modifies out
    ensures forall c, y, x :: 0 <= c < out.Length0 && 0 <= y < out.Length1 && 0 <= x < out.Length2 ==>
              out[c, y, x] == if a <= y < a + la then orig[c, b + SourceOffset(y - a, la, lb), x] else old(out[c, y, x])
  {
    forall c, y, x | 0 <= c < out.Length0 && a <= y < a + la && 0 <= x < out.Length2 {
      out[c, y, x] := orig[c, b + SourceOffset(y - a, la, lb), x];
    }
  }

  /** One column-band slice assignment `out[:, :, a:a+la] = orig[:, :, b:b+lb]`. */
  method CopyCols(out: array3<real>, orig: array3<real>, a: nat, la: nat, b: nat, lb: nat)
    requires out != orig
    requires out.Length0 == orig.Length0 && out.Length1 == orig.Length1 && out.Length2 == orig.Length2
    requires la == 0 || a + la <= out.Length2
    requires forall t :: 0 <= t < la ==> b + SourceOffset(t, la, lb) < orig.Length2
    modifies out
    ensures forall c, y, x :: 0 <= c < out.Length0 && 0 <= y < out.Length1 && 0 <= x < out.Length2 ==>
              out[c, y, x] == if a <= x < a + la then orig[c, y, b + SourceOffset(x - a, la, lb)] else old(out[c, y, x])
  {
    forall c, y, x | 0 <= c < out.Length0 && 0 <= y < out.Length1 && a <= x < a + la {
      out[c, y, x] := orig[c, y, b + SourceOffset(x - a, la, lb)];
    }
  }

  /** Pair `j` of the loop when reordering rows: the row band of cell `rs[j]` is copied
      over the row band of cell `j`. */
  method CopyRowBand(out: array3<real>, orig: array3<real>, rs: seq<nat>, j: nat, dim: nat, pad: nat)
    requires out != orig
    requires out.Length0 == orig.Length0 && out.Length1 == orig.Length1 && out.Length2 == orig.Length2
    requires j < |rs| && PairFits(j, rs[j], dim, pad, orig.Length1)
    modifies out
    ensures forall c, u, v :: 0 <= c < out.Length0 && 0 <= u < out.Length1 && 0 <= v < out.Length2 ==>
              Snapshot(out).Get(true, c, u, v)
              == if InBand(j, u, dim, pad, orig.Length1)
                 then Snapshot(orig).Get(true, c, BandSource(rs, j, dim, pad, orig.Length1, u), v)
                 else old(Snapshot(out)).Get(true, c, u, v)
  {
    ghost var before := Snapshot(out);
    ghost var g := Snapshot(orig);
    var n := out.Length1;
    var a, b := Start(j, dim, pad), Start(rs[j], dim, pad);
    var la, lb := Span(a, dim, n), Span(b, dim, n);
    CopyRows(out, orig, a, la, b, lb);
    ghost var after := Snapshot(out);
    forall c, u, v | 0 <= c < out.Length0 && 0 <= u < n && 0 <= v < out.Length2
      ensures after.Get(true, c, u, v)
              == if InBand(j, u, dim, pad, n) then g.Get(true, c, BandSource(rs, j, dim, pad, n, u), v)
                 else before.Get(true, c, u, v)
    {
      assert after.Get(true, c, u, v) == out[c, u, v];
    }
  }

  /** Pair `j` of the loop when reordering columns: the column band of cell `rs[j]` is
      copied over the column band of cell `j`. */
  method CopyColBand(out: array3<real>, orig: array3<real>, rs: seq<nat>, j: nat, dim: nat, pad: nat)
    requires out != orig
    requires out.Length0 == orig.Length0 && out.Length1 == orig.Length1 && out.Length2 == orig.Length2
    requires j < |rs| && PairFits(j, rs[j], dim, pad, orig.Length2)
    modifies out
    ensures forall c, u, v :: 0 <= c < out.Length0 && 0 <= u < out.Length2 && 0 <= v < out.Length1 ==>
              Snapshot(out).Get(false, c, u, v)
              == if InBand(j, u, dim, pad, orig.Length2)
                 then Snapshot(orig).Get(false, c, BandSource(rs, j, dim, pad, orig.Length2, u), v)
                 else old(Snapshot(out)).Get(false, c, u, v)
  {
    ghost var before := Snapshot(out);
    ghost var g := Snapshot(orig);
    var n := out.Length2;
    var a, b := Start(j, dim, pad), Start(rs[j], dim, pad);
    var la, lb := Span(a, dim, n), Span(b, dim, n);
    CopyCols(out, orig, a, la, b, lb);
    ghost var after := Snapshot(out);
    forall c, u, v | 0 <= c < out.Length0 && 0 <= u < n && 0 <= v < out.Length1
      ensures after.Get(false, c, u, v)
              == if InBand(j, u, dim, pad, n) then g.Get(false, c, BandSource(rs, j, dim, pad, n, u), v)
                 else before.Get(false, c, u, v)
    {
      assert after.Get(false, c, u, v) == out[c, v, u];
    }
  }

  /** Pair `j` of the loop: the band of cell `rs[j]` is copied over the band of cell `j`,
      by rows or by columns. */
  method CopyBand(out: array3<real>, orig: array3<real>, byRow: bool, rs: seq<nat>, j: nat, dim: nat, pad: nat)
    requires out != orig
    requires out.Length0 == orig.Length0 && out.Length1 == orig.Length1 && out.Length2 == orig.Length2
    requires j < |rs| && PairFits(j, rs[j], dim, pad, Snapshot(orig).AlongLen(byRow))
    modifies out
    ensures forall c, u, v :: 0 <= c < out.Length0 && 0 <= u < Snapshot(out).AlongLen(byRow) && 0 <= v < Snapshot(out).AcrossLen(byRow) ==>
              Snapshot(out).Get(byRow, c, u, v)
              == if InBand(j, u, dim, pad, Snapshot(orig).AlongLen(byRow))
                 then Snapshot(orig).Get(byRow, c, BandSource(rs, j, dim, pad, Snapshot(orig).AlongLen(byRow), u), v)
                 else old(Snapshot(out)).Get(byRow, c, u, v)
  {
    if byRow {
      CopyRowBand(out, orig, rs, j, dim, pad);
    } else {
      CopyColBand(out, orig, rs, j, dim, pad);
    }
  }

  /** The loop of `reorder_img` over a zero canvas: applies the pairs of `reorder` in
      order and stops at the first pair torch rejects. */
  method ApplyPairs(out: array3<real>, orig: array3<real>, byRow: bool, reorder: seq<nat>, dim: nat, padding: nat)
    returns (ok: bool)
    requires out != orig
    requires out.Length0 == orig.Length0 && out.Length1 == orig.Length1 && out.Length2 == orig.Length2
    requires forall c, y, x :: 0 <= c < out.Length0 && 0 <= y < out.Length1 && 0 <= x < out.Length2 ==> out[c, y, x] == 0.0
    modifies out
    ensures ok <==> AllFit(reorder, dim, padding, Snapshot(orig).AlongLen(byRow))
    ensures ok ==> forall c, u, v :: 0 <= c < out.Length0 && 0 <= u < Snapshot(orig).AlongLen(byRow) && 0 <= v < Snapshot(orig).AcrossLen(byRow) ==>
                     Snapshot(out).Get(byRow, c, u, v) == PixelOf(Snapshot(orig), reorder, |reorder|, byRow, dim, padding, c, u, v)
  {
    ghost var g := Snapshot(orig);
    var n := if byRow then orig.Length1 else orig.Length2;
    assert n == g.AlongLen(byRow);
    for j := 0 to |reorder|
      invariant FitsUpTo(reorder, j, dim, padding, n)
      invariant forall c, u, v :: 0 <= c < g.channels && 0 <= u < n && 0 <= v < g.AcrossLen(byRow) ==>
                  Snapshot(out).Get(byRow, c, u, v) == PixelOf(g, reorder, j, byRow, dim, padding, c, u, v)
    {
      if !PairFits(j, reorder[j], dim, padding, n) {
        return false;
      }
      ghost var before := Snapshot(out);
      CopyBand(out, orig, byRow, reorder, j, dim, padding);
      ghost var after := Snapshot(out);
      BandStep(g, before, after, reorder, j, byRow, dim, padding);
    }
    return true;
  }

  /** `reorder_img` itself: allocates a zero canvas of the input's size and, for each
      (new, old) pair in turn, overwrites one band of it with a slice of the input. */
  method ReorderImg(orig: array3<real>, reorder: seq<nat>, byRow: bool, height: nat, width: nat, padding: nat)
    returns (r: Result<array3<real>>)
    ensures r.Ok? ==> fresh(r.value)
    ensures r.Ok? ==> Reordered(Snapshot(orig), reorder, byRow, height, width, padding) == Ok(Snapshot(r.value))
    ensures r.Err? ==> Reordered(Snapshot(orig), reorder, byRow, height, width, padding) == Err(r.error)
  {
    var channels, rows, cols := orig.Length0, orig.Length1, orig.Length2;
    var out := new real[channels, rows, cols]((c, y, x) => 0.0);
    var dim := MovedDim(byRow, height, width);
    var ok := ApplyPairs(out, orig, byRow, reorder, dim, padding);
    if !ok {
      return Err(ShapeMismatch);
    }
    ghost var g, final := Snapshot(orig), Snapshot(out);
    forall c, y, x | 0 <= c < channels && 0 <= y < rows && 0 <= x < cols
      ensures final.At(c, y, x) == PixelOf(g, reorder, |reorder|, byRow, dim, padding, c, if byRow then y else x, if byRow then x else y)
    {
      assert final.At(c, y, x) == final.Get(byRow, c, if byRow then y else x, if byRow then x else y);
    }
    Extensionality(Reordered(g, reorder, byRow, height, width, padding).value, final);
    r := Ok(out);
  }
}
