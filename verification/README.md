# Latent-visualisation core of `viz/visualize.py`, in Dafny

This project models the parts of `viz/visualize.py` that do real indexing, ordering and
pixel arithmetic. It then proves what those parts promise about the images they build.
These parts are:

- **`reorder_img`** (`reorder.dfy`, module `Reorder`). It rearranges the cell bands of a
  grid image laid out with `make_grid` padding. The result goes into a fresh zero canvas.
  - The method `ReorderImg` works on an `array3<real>` tensor. It performs the same
    band-by-band slice assignments, in the same order, as the source.
  - It is proved equal to the value function `Reordered`.
  - The lemmas prove the following about `Reordered`:
    - band copy;
    - uncovered lines and gutters are zero;
    - the identity leaves every cell in place;
    - the `[1, 0, 2]` swap;
    - the round trip through a permutation and its inverse.
  - Slices follow Python/torch rules:
    - a slice running off the canvas is clipped;
    - a one-line source is broadcast;
    - any other length mismatch is torch's shape error (`ShapeMismatch`).
- **The heat-map fill of `generate_heat_maps`** (`heat_map.dfy`, module `HeatMap`).
  - `GenerateHeatMaps` runs the three nested loops over an `array2<int>` raster. It
    handles an out-of-range row of `means` as the source's index error, and truncates
    each float toward zero as the int32 store does.
  - It is proved to hand out exactly the rasters `HeatMaps` describes: every dimension
    in save mode, only dimension 0 in return mode.
- **The comparison batch of `reconstructions`** (`reconstructions.dfy`, module
  `Reconstructions`): originals, then reconstructions, each padded with the same blank
  images.
- **The KL ordering of `all_latent_traversals`, with `read_avg_kl_from_file`**
  (`kl_order.dfy`, module `KlOrder`).
  - This covers the reverse sort of the zipped (KL string, traversal row) pairs and the
    second sort that produces the labels.
  - Python compares the strings lexicographically by code point, and `zip` truncates.
  - A repeated KL string makes Python compare two traversal tensors, which raises
    (`AmbiguousTie`).
- **The prior-mode toggle of `samples`** (`samples.dfy`, module `Samples`).
  - This is a `Visualizer` class holding a `LatentTraverser` object whose `samplePrior`
    flag is saved, set, used for one grid draw and restored.

`outcome.dfy` holds the `Option`, `Result` and `Error` types. `tensor.dfy` holds the
`Image` value type, which is a channels × rows × cols grid of samples. It also holds a
ghost snapshot of an `array3`, which ties the array methods to the value functions.

### Behaviour of the code worth knowing

- **No permutation checks in `reorder_img`.** `reorder_img` checks neither that `reorder`
  is a permutation nor that the cells tile the canvas.
  - It accepts any list of cell indices.
  - Each position writes only its own cell band, and bands never overlap (`StartGap`).
  - A repeated entry shows one cell twice (`BandCopied`), and a list
    shorter than the grid leaves the trailing cells zero (`UncoveredZero`).
  - It fails only when torch refuses a slice assignment.
- **Heat-map rows read.** The fill reads row `width * y + x` for `x < height`, `y < width`.
  It therefore needs the first `width * (width - 1) + height` rows of `means`, which
  equals `height * width` only for square maps or maps one column wide. It fills `height * width`
  cells from them:
  - a square map reads each row exactly once (`SquareMapsShowEachRowOnce`);
  - a map taller than it is wide and at least two columns wide shows some rows twice in
    every raster (`TallMapRepeatsRows`);
  - a map wider than it is tall skips rows it needs (`WideMapSkipsRows`).
- **Ties in the KL sort.** A repeated KL string makes the tuple comparison fall through
  to the traversal tensors, and that raises.
- **Textual ordering.** The ranking compares the KL strings as text, so `"9.0"` ranks
  above `"10.0"` (`TextualRanking`).

## Model

| member | source | states |
|---|---|---|
| Reorder.ReorderImg | viz/visualize.py:261-274 | On success the returned canvas is fresh and equals `Reordered` of the input, sample for sample; it fails with torch's shape error exactly when `Reordered` does |
| Reorder.ApplyPairs | viz/visualize.py:264-272 | The copy loop over a zero canvas completes exactly when torch accepts every pair, and then every sample is what the pairs, applied in order, put there, each pair writing only its own cell band (zero where none wrote) |
| Reorder.Reordered | viz/visualize.py:261-272 | The reordered image exists exactly when every pair's clipped slices have equal length or a one-line source, and then has the input's shape |
| Reorder.CopyRowBand | viz/visualize.py:265-268 | One row-band assignment overwrites exactly the clipped destination band of pair `j` with its source lines and leaves every other line as it was |
| Reorder.CopyColBand | viz/visualize.py:269-272 | The same for a column band |
| Reorder.CopyBand | viz/visualize.py:265-272 | The same along the axis `by_row` selects |
| Reorder.CopyRows | viz/visualize.py:268 | The slice assignment `out[:, a:a+la, :] = orig[:, b:b+lb, :]` copies line for line, or broadcasts a one-line source, and changes nothing outside the slice |
| Reorder.CopyCols | viz/visualize.py:272 | The same for `out[:, :, a:a+la] = orig[:, :, b:b+lb]` |
| Reorder.Start | viz/visualize.py:266-271 | No ensures; the first line of a cell along the moved axis. See `StartFormula` and `StartGap` |
| Reorder.SourceOffset | viz/visualize.py:268-272 | No ensures; the source line for destination line `t`: the same line when the slices are as long, the only line when torch broadcasts. See `SourceLineOfBand` |
| Reorder.PairFits | viz/visualize.py:264-272 | No ensures; torch accepts the slice assignment exactly when the clipped slices have equal length or the source has one line. See `Reordered` and `ApplyPairs` |
| Reorder.StartFormula | viz/visualize.py:266-267 | The first line of cell `idx` is `idx * (padding + dim) + padding` |
| Reorder.Span | viz/visualize.py:266-271 | A slice `[start:start+dim]` on an axis of `n` lines keeps at most `dim` lines, all inside the axis, and exactly `min(dim, n - start)` when it starts inside |
| Reorder.SourceLine | viz/visualize.py:264-272 | The line that the last pair writing a destination line copies from, if any, lies inside the source image; no ensures beyond that, see `SourceLineOfBand` and `SourceLineOutside` |
| Reorder.PixelOf | viz/visualize.py:264-272 | No ensures; the sample left by the first `k` pairs. See `SourceLineOfBand`, `UncoveredZero` and `ApplyPairs` |
| Reorder.StartGap | viz/visualize.py:266-271 | A later cell starts at least `dim + padding` lines after an earlier one, so destination bands never overlap |
| Reorder.SourceLineOfBand | viz/visualize.py:264-272 | Once the pairs run, line `t` of destination band `i` holds line `t` of source band `reorder[i]`, or its only line when broadcast; no other pair writes there |
| Reorder.SourceLineOutside | viz/visualize.py:261-272 | A line in no destination band is written by no pair |
| Reorder.BandCopied | viz/visualize.py:264-272 | In the output, every channel and every across-axis position of band `i` holds the input's band `reorder[i]`, with the clipped and broadcast cases included |
| Reorder.UncoveredZero | viz/visualize.py:261-272 | A line outside every destination band is 0 in the output, whatever the input held |
| Reorder.GutterZero | viz/visualize.py:261-272 | The leading border and the padding lines after each cell are 0 in the output |
| Reorder.AllFitWhenBandsFit | viz/visualize.py:264-272 | When every band lies inside the canvas and every entry names a cell, torch accepts every copy |
| Reorder.BandCopiedFull | viz/visualize.py:264-272 | For such a list the result exists, and band `i` of the output is band `reorder[i]` of the input line for line |
| Reorder.IdentityKeepsCells | viz/visualize.py:264-272 | The identity order keeps every cell band of the input unchanged |
| Reorder.SwapFirstTwo | viz/visualize.py:264-272 | On a three-band grid the order `[1, 0, 2]` swaps bands 0 and 1 and keeps band 2 |
| Reorder.RoundTrip | viz/visualize.py:264-272 | Reordering by a permutation and then by its inverse restores every cell band of the original |
| Tensor.Zeros | viz/visualize.py:261 | The zero canvas has the given shape and every sample 0 |
| HeatMap.GenerateHeatMaps | viz/visualize.py:59-71 | The loops hand out exactly what `HeatMaps` describes, including the index error and the early return of return mode |
| HeatMap.FillRaster | viz/visualize.py:62-64 | For one dimension, the two inner loops succeed exactly when `means` has `RowsNeeded` rows; then cell (x, y) holds row `width * y + x` of that dimension, truncated |
| HeatMap.FillColumn | viz/visualize.py:63-64 | The innermost loop fills column `y` exactly when its last row exists, and leaves other columns alone |
| HeatMap.HeatMaps | viz/visualize.py:59-71 | No ensures; see `HeatMapsContents` |
| HeatMap.RasterOf | viz/visualize.py:61-64 | The raster of one dimension is height × width; its contents are stated by `HeatMapsContents` |
| HeatMap.HeatMapsContents | viz/visualize.py:61-71 | The maps exist exactly when there are no dimensions or `means` has `RowsNeeded` rows. Save mode yields one raster per dimension and return mode only the first. Raster `k` is height × width, and cell (x, y) is dimension `k` of row `width * y + x`, truncated toward zero |
| HeatMap.IndexBelowNeeded | viz/visualize.py:64 | Every cell reads a row below `RowsNeeded` |
| HeatMap.LastCellIndex | viz/visualize.py:64 | The last cell reads row `RowsNeeded - 1`, so the bound is tight |
| HeatMap.Trunc | viz/visualize.py:64 | Storing a float into the int32 raster keeps its sign, moves it less than 1 and never away from zero |
| HeatMap.FourByFour | viz/visualize.py:61-64 | A 4 × 4 map over the values 0..15 reads cell (x, y) as `4 * y + x` |
| HeatMap.SquareInjective | viz/visualize.py:62-64 | On a square map, distinct cells read distinct rows |
| HeatMap.SquareOnto | viz/visualize.py:62-64 | On an n × n map, every row below `n * n` is read by the cell (k mod n, k div n) |
| HeatMap.SquareMapsShowEachRowOnce | viz/visualize.py:61-71 | On an n × n map with `n * n` rows the maps exist, every raster shows row `k` (that dimension, truncated) at cell (k mod n, k div n), and no other cell reads row `k` |
| HeatMap.WideMapSkipsRows | viz/visualize.py:62-64 | On a map wider than it is tall, row `height` is below `RowsNeeded`, so the fill needs it, yet no cell reads it |
| HeatMap.SampleIndex | viz/visualize.py:64 | No ensures; the row `width * y + x` that cell (x, y) reads. See `HeatMapsContents` and `IndexBelowNeeded` |
| HeatMap.RowsNeeded | viz/visualize.py:61-64 | No ensures; one past the largest row the fill reads. See `IndexBelowNeeded`, `LastCellIndex` and `HeatMapsContents` |
| HeatMap.TallMapRepeatsRows | viz/visualize.py:61-71 | On a map taller than it is wide and at least two columns wide, with enough rows the maps exist, and in every raster cell (width, 0) equals cell (0, 1) |
| Reconstructions.Shortfall | viz/visualize.py:103-105 | Examples plus blanks make `max(requested, examples)` |
| Reconstructions.Blanks | viz/visualize.py:105 | The blank images are all-zero images of the originals' shape, as many as asked |
| Reconstructions.Comparison | viz/visualize.py:103-110 | No ensures; see `ComparisonLayout` and `ComparisonHalves` |
| Reconstructions.ComparisonLayout | viz/visualize.py:98-110 | The batch is every original in order, the blanks, every reconstruction in order, then the blanks again, with nothing dropped |
| Reconstructions.ComparisonHalves | viz/visualize.py:98-110 | With one reconstruction per original, the batch holds `2 * max(requested, examples)` images, and image `i` of the bottom half is the reconstruction of image `i` of the top half |
| Reconstructions.EnoughExamples | viz/visualize.py:103-110 | With at least as many examples as requested, nothing is padded or dropped |
| KlOrder.StrLessIrreflexive | viz/visualize.py:200 | Python's string `<` is irreflexive |
| KlOrder.StrLessAsymmetric | viz/visualize.py:200 | Python's string `<` never holds both ways between two strings |
| KlOrder.StrLessTransitive | viz/visualize.py:200 | Python's string `<` is transitive |
| KlOrder.StrLessTotal | viz/visualize.py:200 | Of two distinct strings, one is below the other under Python's string `<` |
| KlOrder.Zip | viz/visualize.py:200 | `zip` pairs position by position up to the shorter list |
| KlOrder.StrLess | viz/visualize.py:200 | No ensures; see `StrLessIrreflexive`, `StrLessAsymmetric`, `StrLessTransitive` and `StrLessTotal` |
| KlOrder.Insert | viz/visualize.py:200 | No ensures; see `InsertPermutes`, `InsertDescending` and `InsertKeys` |
| KlOrder.SortDesc | viz/visualize.py:200 | No ensures; see `SortPermutes`, `SortDescending` and `SortKeys` |
| KlOrder.InsertPermutes | viz/visualize.py:200 | Inserting one pair into a ranked list keeps every pair |
| KlOrder.SortPermutes | viz/visualize.py:200 | The sort returns a permutation of its pairs |
| KlOrder.InsertDescending | viz/visualize.py:200 | Inserting a pair with a new string keeps the list strictly descending |
| KlOrder.SortDescending | viz/visualize.py:200 | With distinct strings, the sort ranks every pair strictly above the next |
| KlOrder.InsertKeys | viz/visualize.py:200-201 | Where a pair lands depends only on the strings |
| KlOrder.SortKeys | viz/visualize.py:200-201 | The string order the sort produces depends on the strings alone, not on what is paired with them |
| KlOrder.OrderByKlSpec | viz/visualize.py:200-201 | The ordering succeeds exactly when the paired KL strings are distinct. Then one row comes out per pair, ranked by strictly falling string. Label `i` is the string that was paired with row `i`, and the (label, row) pairs are a permutation of the zipped pairs |
| KlOrder.OrderByKl | viz/visualize.py:200-201 | No ensures; see `OrderByKlSpec` |
| KlOrder.ThreeDimensions | viz/visualize.py:200-201 | KL strings 0.1, 0.9, 0.5 rank dimensions 1, 2, 0 with labels 0.9, 0.5, 0.1 |
| KlOrder.TextualRanking | viz/visualize.py:200-201 | KL strings "10.0" and "9.0" rank the 9.0 dimension first |
| KlOrder.LastRecordScores | viz/visualize.py:280-282 | An empty log is an error; otherwise the result is the last record without its first field, and putting that field back gives the record |
| KlOrder.RankTraversals | viz/visualize.py:195-201 | An empty log fails the traversal ordering before anything is ordered. Otherwise, with `scores` the last record's fields after the first, the ordering succeeds exactly when the strings zipped with the rows are distinct; then the rows come out ranked by strictly falling label, and the (label, row) pairs are a permutation of the zipped (score, row) pairs |
| Samples.LatentTraverser.TraverseGrid | viz/visualize.py:127 | A grid draw yields the draw of the current mode and records that mode |
| Samples.Visualizer.Samples | viz/visualize.py:124-131 | Exactly one grid is drawn, in prior mode. The decoded result is that draw. The traverser's flag is afterwards what it was before |

## Left out

- `make_grid`, `save_image`, `ToPILImage`, the PIL canvas, the resize and the label
  text placement (lines 66-71, 112-115, 133-136, 204-224) are image-library calls and
  drawing arithmetic outside the modelled core. So are the output filename split of
  `generate_heat_maps` (lines 67-68) and the save-or-return switch wherever it only
  chooses between them.
- The model itself is not modelled: the encoder/decoder passes, `_decode_latents`,
  device moves and eval/train switching. `means`, the reconstructions and the decoder
  are parameters. `means` is whatever the code reads at line 54.
- `LatentTraverser.traverse_line` and `traverse_grid` (`viz/latent_traversals.py`) are not
  part of this model. The grid draw is a function of the mode and the size, so the
  randomness of a prior draw is not modelled. `latent_traversal_line` and
  `latent_traversal_grid` only delegate to them and are left out.
- Samples.Visualizer.Samples: exceptions are not modelled. If `traverse_grid` raised,
  the code would leave the flag set to prior mode.
- KlOrder.OrderByKl: labels are kept as the KL strings. `round(float(s), 3)` and the
  `ValueError` for a non-numeric string are not modelled.
- `torch.cat` of an empty list when the log yields no KL strings (line 204) is not
  modelled.
- KlOrder.LastRecordScores takes the parsed CSV records. Opening the file and CSV
  quoting rules are not modelled.
- Reorder.ReorderImg: entries are natural numbers. Python's negative indices in
  `reorder` (slices counted from the end) are not modelled. Torch broadcasting is
  modelled only for one-line sources, which are the only ones a band slice can produce.
- Reorder.RoundTrip: only cell bands come back. Gutter lines come out zero, as
  GutterZero states, not as they were.
- HeatMap.GenerateHeatMaps: overflow of the int32 store (values outside the 32-bit
  range) and NaN or infinite means are not modelled. The float-to-int store is
  truncation toward zero on reals.
- Reconstructions.Comparison assumes the originals and reconstructions share the
  blanks' shape. In the code a mismatch would make `torch.cat` raise, and that is not
  modelled. The `view(-1, *img_size)` reshape of the reconstructions is not modelled.
