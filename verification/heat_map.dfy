/** The heat-map raster fill of `Visualizer.generate_heat_maps`.

    `means` holds one row per input sample and one column per latent dimension. For
    each latent dimension `d` the code fills an H x W raster so that cell (x, y) holds
    `means[W * y + x][d]`, then hands the raster to the image sink (save mode) or
    returns it at once (return mode, which therefore only ever yields dimension 0). */
module HeatMap {
  import opened Outcome

  /** A raster, indexed [x][y] with x < height and y < width. */
  type Raster = seq<seq<int>>

  /** The `means` row that cell (x, y) of a raster of the given width reads. */
  function SampleIndex(x: nat, y: nat, width: nat): nat
  {
    width * y + x
  }

  /** How many rows of `means` the fill reads: one past the largest SampleIndex over
      all cells (none for an empty raster). */
  function RowsNeeded(height: nat, width: nat): nat
  {
    if height == 0 || width == 0 then 0 else width * (width - 1) + height
  }

  lemma MulMono(a: nat, b: nat, k: nat)
    requires a <= b
    ensures k * a <= k * b
  {
  }

  /** Every cell reads a row below RowsNeeded ... */
  lemma IndexBelowNeeded(x: nat, y: nat, height: nat, width: nat)
    requires x < height && y < width
    ensures SampleIndex(x, y, width) < RowsNeeded(height, width)
  {
    MulMono(y, width - 1, width);
  }

  /** ... and the last cell reads exactly the last of them, so the fill succeeds exactly
      when `means` has RowsNeeded rows. */
  lemma LastCellIndex(height: nat, width: nat)
    requires height > 0 && width > 0
    ensures SampleIndex(height - 1, width - 1, width) == RowsNeeded(height, width) - 1
  {
  }

  /** Storing a float into the int32 raster rounds toward zero. */
  function Trunc(v: real): (t: int)
    ensures (0.0 <= v ==> 0 <= t) && (v <= 0.0 ==> t <= 0)
    ensures -1.0 < v - t as real < 1.0 && (if 0.0 <= v then t as real <= v else v <= t as real)
  {
    if 0.0 <= v then v.Floor else -((-v).Floor)
  }

  /** `means` is a matrix with `cols` entries per row (a 2-D tensor). */
  predicate IsMatrix(means: seq<seq<real>>, cols: nat)
  {
    forall r :: 0 <= r < |means| ==> |means[r]| == cols
  }

  /** The raster of latent dimension `d`. */
  function RasterOf(means: seq<seq<real>>, cols: nat, d: nat, height: nat, width: nat): (h: Raster)
    requires IsMatrix(means, cols) && d < cols && RowsNeeded(height, width) <= |means|
    ensures |h| == height && forall x :: 0 <= x < height ==> |h[x]| == width
  {
    seq(height, x requires 0 <= x < height =>
      seq(width, y requires 0 <= y < width =>
        IndexBelowNeeded(x, y, height, width);
        Trunc(means[SampleIndex(x, y, width)][d])))
  }

  /** What `generate_heat_maps` hands out: every dimension's raster in save mode, only
      dimension 0's in return mode, nothing when there are no latent dimensions, and an
      index error when `means` is too short for the raster. */
  function HeatMaps(means: seq<seq<real>>, cols: nat, height: nat, width: nat, save: bool): Result<seq<Raster>>
    requires IsMatrix(means, cols)
  {
    if cols == 0 then Ok([])
    else if |means| < RowsNeeded(height, width) then Err(IndexOutOfRange)
    else if save then Ok(seq(cols, d requires 0 <= d < cols => RasterOf(means, cols, d, height, width)))
    else Ok([RasterOf(means, cols, 0, height, width)])
  }

  /** What the heat maps hold: they exist exactly when there are no latent dimensions or
      `means` has RowsNeeded rows; save mode hands out one raster per dimension and return
      mode only the first; raster k is H x W and its cell (x, y) is dimension k of row
      W * y + x, rounded toward zero. */
  lemma HeatMapsContents(means: seq<seq<real>>, cols: nat, height: nat, width: nat, save: bool)
    requires IsMatrix(means, cols)
    ensures HeatMaps(means, cols, height, width, save).Ok? <==> cols == 0 || RowsNeeded(height, width) <= |means|
    ensures HeatMaps(means, cols, height, width, save).Ok? ==>
              var maps := HeatMaps(means, cols, height, width, save).value;
              |maps| == (if save || cols == 0 then cols else 1) &&
              forall k :: 0 <= k < |maps| ==>
                |maps[k]| == height &&
                forall x :: 0 <= x < height ==>
                  |maps[k][x]| == width &&
                  forall y :: 0 <= y < width ==>
                    SampleIndex(x, y, width) < |means| && maps[k][x][y] == Trunc(means[SampleIndex(x, y, width)][k])
  {
    if cols > 0 && RowsNeeded(height, width) <= |means| {
      var maps := HeatMaps(means, cols, height, width, save).value;
      forall k, x, y | 0 <= k < |maps| && 0 <= x < height && 0 <= y < width
        ensures SampleIndex(x, y, width) < |means| && maps[k][x][y] == Trunc(means[SampleIndex(x, y, width)][k])
      {
        IndexBelowNeeded(x, y, height, width);
      }
    }
  }

  /** A 4 x 4 map over the values 0 .. 15 of a single dimension reads back cell (x, y)
      as 4 * y + x. */
  lemma FourByFour()
    ensures var means := seq(16, k => [k as real]);
            IsMatrix(means, 1) &&
            HeatMaps(means, 1, 4, 4, true).Ok? &&
            forall x, y :: 0 <= x < 4 && 0 <= y < 4 ==> HeatMaps(means, 1, 4, 4, true).value[0][x][y] == 4 * y + x
  {
    var means := seq(16, k => [k as real]);
    HeatMapsContents(means, 1, 4, 4, true);
  }

  /** Square maps read every sample exactly once: distinct cells read distinct rows ... */
  lemma SquareInjective(n: nat, x1: nat, y1: nat, x2: nat, y2: nat)
    requires x1 < n && y1 < n && x2 < n && y2 < n
    requires SampleIndex(x1, y1, n) == SampleIndex(x2, y2, n)
    ensures x1 == x2 && y1 == y2
  {
    if y1 < y2 {
      MulMono(y1 + 1, y2, n);
      assert false;
    } else if y2 < y1 {
      MulMono(y2 + 1, y1, n);
      assert false;
    }
  }

  /** ... and every row below n * n is read by some cell. */
  lemma SquareOnto(n: nat, k: nat)
    requires k < n * n
    ensures n > 0 && k % n < n && k / n < n && SampleIndex(k % n, k / n, n) == k
  {
    assert n > 0;
    if k / n >= n {
      MulMono(n, k / n, n);
      assert false;
    }
  }

  /** On an n x n map each row `k` below n * n shows up in exactly one cell of every
      raster: cell (k mod n, k div n) holds it, and no other cell reads row `k`. */
  lemma SquareMapsShowEachRowOnce(means: seq<seq<real>>, cols: nat, n: nat, save: bool, k: nat)
    requires IsMatrix(means, cols) && n * n <= |means| && k < n * n
    ensures HeatMaps(means, cols, n, n, save).Ok?
    ensures var maps := HeatMaps(means, cols, n, n, save).value;
            forall d :: 0 <= d < |maps| ==> maps[d][k % n][k / n] == Trunc(means[k][d])
    ensures forall x, y :: 0 <= x < n && 0 <= y < n && SampleIndex(x, y, n) == k ==>
              x == k % n && y == k / n
  {
    SquareOnto(n, k);
    var cx, cy := k % n, k / n;
    assert RowsNeeded(n, n) == n * n;
    HeatMapsContents(means, cols, n, n, save);
    var maps := HeatMaps(means, cols, n, n, save).value;
    forall d | 0 <= d < |maps|
      ensures maps[d][cx][cy] == Trunc(means[k][d])
    {
      assert SampleIndex(cx, cy, n) == k;
    }
    forall x, y | 0 <= x < n && 0 <= y < n && SampleIndex(x, y, n) == k
      ensures x == cx && y == cy
    {
      SquareInjective(n, x, y, cx, cy);
    }
  }

  /** A map taller than it is wide shows one sample twice: in every raster, cell
      (width, 0) and cell (0, 1) both hold row `width` of `means`. */
  lemma TallMapRepeatsRows(means: seq<seq<real>>, cols: nat, height: nat, width: nat, save: bool)
    requires IsMatrix(means, cols) && RowsNeeded(height, width) <= |means|
    requires width < height && 1 < width
    ensures HeatMaps(means, cols, height, width, save).Ok?
    ensures var maps := HeatMaps(means, cols, height, width, save).value;
            forall k :: 0 <= k < |maps| ==> maps[k][width][0] == maps[k][0][1]
  {
    HeatMapsContents(means, cols, height, width, save);
    assert SampleIndex(width, 0, width) == SampleIndex(0, 1, width);
  }

  /** A map wider than it is tall skips rows: row `height` lies below RowsNeeded, yet no
      cell reads it. */
  lemma WideMapSkipsRows(height: nat, width: nat)
    requires 0 < height < width
    ensures height < RowsNeeded(height, width)
    ensures forall x, y :: 0 <= x < height && 0 <= y < width ==> SampleIndex(x, y, width) != height
  {
    forall x, y | 0 <= x < height && 0 <= y < width
      ensures SampleIndex(x, y, width) != height
    {
      if y > 0 {
        MulMono(1, y, width);
      }
    }
  }

  /** Cell (x, y) of `heat` holds the row of `means` it reads, and that row exists. */
  predicate CellFilled(heat: array2<int>, means: seq<seq<real>>, d: nat, x: nat, y: nat)
    requires x < heat.Length0 && y < heat.Length1
    reads heat
  {
    var i := SampleIndex(x, y, heat.Length1);
    i < |means| && d < |means[i]| && heat[x, y] == Trunc(means[i][d])
  }

  /** SampleIndex grows with both coordinates. */
  lemma IndexMono(x1: nat, y1: nat, x2: nat, y2: nat, width: nat)
    requires x1 <= x2 && y1 <= y2
    ensures SampleIndex(x1, y1, width) <= SampleIndex(x2, y2, width)
  {
    MulMono(y1, y2, width);
  }

  /** The innermost loop: write column `y` of `heat` top to bottom, stopping with an
      index error at the first row `means` lacks; other columns are left alone. */
  method FillColumn(heat: array2<int>, means: seq<seq<real>>, cols: nat, d: nat, y: nat) returns (ok: bool)
    requires IsMatrix(means, cols) && d < cols && y < heat.Length1
    modifies heat
    ensures ok <==> heat.Length0 == 0 || SampleIndex(heat.Length0 - 1, y, heat.Length1) < |means|
    ensures ok ==> forall x :: 0 <= x < heat.Length0 ==> CellFilled(heat, means, d, x, y)
    ensures forall x, y' :: 0 <= x < heat.Length0 && 0 <= y' < heat.Length1 && y' != y ==>
              heat[x, y'] == old(heat[x, y'])
  {
    var height, width := heat.Length0, heat.Length1;
    for x := 0 to height
      invariant forall x' :: 0 <= x' < x ==> CellFilled(heat, means, d, x', y)
      invariant 0 < x ==> SampleIndex(x - 1, y, width) < |means|
      invariant forall x', y' :: 0 <= x' < height && 0 <= y' < width && y' != y ==> heat[x', y'] == old(heat[x', y'])
    {
      var i := SampleIndex(x, y, width);
      if i >= |means| {
        IndexMono(x, y, height - 1, y, width);
        return false;
      }
      heat[x, y] := Trunc(means[i][d]);
    }
    return true;
  }

  /** The two inner loops for latent dimension `d`: write every cell of `heat`, column
      by column, stopping with an index error at the first row `means` lacks. */
  method FillRaster(heat: array2<int>, means: seq<seq<real>>, cols: nat, d: nat) returns (ok: bool)
    requires IsMatrix(means, cols) && d < cols
    modifies heat
    ensures ok <==> RowsNeeded(heat.Length0, heat.Length1) <= |means|
    ensures ok ==> forall x, y :: 0 <= x < heat.Length0 && 0 <= y < heat.Length1 ==> CellFilled(heat, means, d, x, y)
  {
    var height, width := heat.Length0, heat.Length1;
    for y := 0 to width
      invariant forall x, y' :: 0 <= x < height && 0 <= y' < y ==> CellFilled(heat, means, d, x, y')
      invariant 0 < y && 0 < height ==> SampleIndex(height - 1, y - 1, width) < |means|
    {
      label before:
      ok := FillColumn(heat, means, cols, d, y);
      forall x, y' | 0 <= x < height && 0 <= y' < y
        ensures CellFilled(heat, means, d, x, y')
      {
        assert old@before(CellFilled(heat, means, d, x, y'));
      }
      if !ok {
        IndexBelowNeeded(height - 1, y, height, width);
        return;
      }
    }
    if 0 < height && 0 < width {
      LastCellIndex(height, width);
    }
    return true;
  }

  /** `generate_heat_maps` after the model call: one zero-initialised int raster,
      refilled for each latent dimension and handed out in the order the code does. */
  method GenerateHeatMaps(means: seq<seq<real>>, cols: nat, height: nat, width: nat, save: bool)
    returns (r: Result<seq<Raster>>)
    requires IsMatrix(means, cols)
    ensures r == HeatMaps(means, cols, height, width, save)
  {
    var heat := new int[height, width]((x, y) => 0);
    var emitted: seq<Raster> := [];
    for d := 0 to cols
      invariant RowsNeeded(height, width) <= |means| || d == 0
      invariant |emitted| == d
      invariant !save ==> d == 0
      invariant forall k :: 0 <= k < d ==> emitted[k] == RasterOf(means, cols, k, height, width)
    {
      var ok := FillRaster(heat, means, cols, d);
      if !ok {
        return Err(IndexOutOfRange);
      }
      var raster := seq(height, x requires 0 <= x < height reads heat =>
                      seq(width, y requires 0 <= y < width reads heat => heat[x, y]));
      assert raster == RasterOf(means, cols, d, height, width) by {
        var spec := RasterOf(means, cols, d, height, width);
        forall x | 0 <= x < height ensures raster[x] == spec[x] {
          forall y | 0 <= y < width ensures raster[x][y] == spec[x][y] {
            assert CellFilled(heat, means, d, x, y);
          }
        }
      }
      if !save {
        return Ok([raster]);
      }
      emitted := emitted + [raster];
    }
    if 0 < cols && save {
      assert emitted == seq(cols, d requires 0 <= d < cols => RasterOf(means, cols, d, height, width));
    }
    r := Ok(emitted);
  }
}
