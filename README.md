# floodcomparison — a Dafny model of the flood-extent comparison

`floodcomparison(obsf, modf, thresh, outfolder)` compares an observed flood
extent with a modelled water-depth raster. It keeps only the cells within a
buffer around the observed flood. It thresholds the depth into a wet mask and
counts the four agreement buckets. From the counts it derives four scores:
hit rate H, false alarm ratio F, critical success index C and bias B.

This project models that pipeline as pure functions over rasters
(`seq<seq<T>>`), and proves what each stage and the whole comparison promise.

- `raster.dfy`, module `Raster`: raster shape, binary masks, and the sum of
  all cells (NumPy's `.sum()`), with lemmas that relate sums to cell counts.
- `flood_comparison.dfy`, module `FloodComparison`: the stages (buffer mask,
  clip, threshold, dry complements, the TP/FP/TN/FN buckets), the counts, the
  scores, the dimension gate `Compare`, and the properties.
- `scenario.dfy`, module `FloodScenario`: a worked 4x4 comparison.

Modelling choices:

- The observed raster is a grid of integers. The source never binarises it,
  so the model keeps the source's literal `x + y == 2` rule (`Both`). Every
  property that needs a 0/1 observation says so in its contract.
- Depths, distances and the threshold are `real`. The comparisons and the
  score ratios are exact; no floating point is modelled.
- The source checks `geo1[4] == geo2[4]` and `geo1[5] == geo2[5]`, the pixel
  counts of the two rasters. The model compares the row and column counts of
  the two grids. A mismatch gives `Err(DimensionMismatch)` instead of ending
  the process.
- The proximity raster comes from an external tool, so it is an input
  (`dist`). That tool computes it from the observed raster, so it has the
  observed raster's shape (a `requires` of `Compare`). Where a property needs
  it, the model assumes that every observed wet cell has a non-negative
  distance (`WetCellsHaveDistance`): the tool gives a target cell distance 0.
- A score whose denominator is 0 is `None`. NumPy would give nan or inf there.
- The buckets keep the source's names: `TN` is observed wet and modelled dry,
  and its sum `c` feeds H, C and B. `FN` is observed dry and modelled dry,
  and its sum `d` feeds no score.
- The 4x4 example gives `d = 13` (16 buffer cells minus a = 2, b = 1,
  c = 0), and `FourByFour` proves it.

## Model

| member | source | states |
|---|---|---|
| `FloodComparison.Compare` | floodcomparison/core.py:39-99 | fails exactly when the row or column counts differ; otherwise, cell by cell, the buffer is 1 exactly where the distance is >= 0 and the wet mask is 1 exactly where the depth clipped to the buffer is above the threshold; the counts are the tabulation of the observation against that buffer and mask, the agreement raster is TP and `a` is its number of wet cells, and the scores are those of the counts |
| `FloodComparison.BufferMask` | floodcomparison/core.py:49 | the buffer keeps the distance raster's shape, is binary, and is 1 exactly where the distance is >= 0, so the -9999 sentinel is outside |
| `FloodComparison.ClipDepth` | floodcomparison/core.py:53 | the clipped depth keeps the shape, equals the depth on buffer cells and is 0 on all others |
| `FloodComparison.WetMask` | floodcomparison/core.py:56 | the wet mask is binary and 1 exactly where the clipped depth is strictly above the threshold (a depth equal to it is dry) |
| `FloodComparison.WetMaskOutsideBuffer` | floodcomparison/core.py:53-56 | outside the buffer a cell is wet exactly when the threshold is negative; for a non-negative threshold the wet mask lies inside the buffer |
| `FloodComparison.WetMaskAntitone` | floodcomparison/core.py:56 | a higher threshold gives a wet mask that is nowhere above the lower threshold's |
| `FloodComparison.Both` | floodcomparison/core.py:60 | the `x + y == 2` rule gives a binary raster that is 1 exactly where the cells add to 2, which on binary masks means both are 1 |
| `FloodComparison.DryMask` | floodcomparison/core.py:67-70 | the dry mask is binary, 1 exactly on buffer cells that are not wet, so 0 outside the buffer and the complement `1 - wet` inside it |
| `FloodComparison.TP` | floodcomparison/core.py:73 | on binary inputs, TP is 1 exactly where observed and modelled are both wet |
| `FloodComparison.TN` | floodcomparison/core.py:74 | on a binary observation, TN is 1 exactly on buffer cells observed wet and modelled dry |
| `FloodComparison.FP` | floodcomparison/core.py:75 | on a binary wet mask, FP is 1 exactly on buffer cells observed dry and modelled wet |
| `FloodComparison.FN` | floodcomparison/core.py:76 | FN is 1 exactly on buffer cells observed dry and modelled dry |
| `FloodComparison.Count` | floodcomparison/core.py:79-82 | the sum of a binary mask is the number of its cells that hold 1, and is non-negative |
| `Raster.TotalOfBinary` | floodcomparison/core.py:79-82 | the sum of a binary raster equals its number of 1 cells and lies between 0 and its cell count |
| `FloodComparison.Tabulate` | floodcomparison/core.py:73-82 | a, b, c, d are the numbers of wet cells of TP, FP, TN and FN |
| `FloodComparison.Partition` | floodcomparison/core.py:65-82 | for a binary observation inside the buffer, TP + FP + TN + FN equals the buffer at every cell, so each buffer cell is in exactly one bucket and no other cell in any; hence a + b + c + d is the buffer's cell count, and a + c the observed wet count |
| `FloodComparison.ModelledWetCount` | floodcomparison/core.py:73-80 | when the wet mask also lies inside the buffer, a + b is the modelled wet count |
| `FloodComparison.CompareContingency` | floodcomparison/core.py:49-82 | for a binary observation whose wet cells have a distance, the comparison succeeds, a + b + c + d is the buffer size, a + c the observed wet count, and for a threshold >= 0, a + b the modelled wet count |
| `FloodComparison.HitRate` | floodcomparison/core.py:86 | H is defined exactly when a + c > 0, lies in [0, 1], is 1 exactly when c = 0 and 0 exactly when a = 0 |
| `FloodComparison.FalseAlarmRatio` | floodcomparison/core.py:87 | F is defined exactly when a + b > 0, lies in [0, 1], is 0 exactly when b = 0 and 1 exactly when a = 0 |
| `FloodComparison.CriticalSuccessIndex` | floodcomparison/core.py:88 | C is defined exactly when a + b + c > 0, lies in [0, 1], is 1 exactly when b = c = 0 and 0 exactly when a = 0 |
| `FloodComparison.Bias` | floodcomparison/core.py:85-89 | B is defined exactly when a + c > 0, is >= -1 (equal exactly when a + b = 0), and is 0, positive or negative exactly when b = c, b > c or b < c |
| `FloodComparison.Score` | floodcomparison/core.py:86-89 | each score is defined exactly when its denominator is positive; C never exceeds H nor 1 - F; and when a > 0, F < 1 and B = H / (1 - F) - 1 |
| `FloodComparison.ScoresOfWetCounts` | floodcomparison/core.py:86-89 | with a + c and a + b the observed and modelled wet counts, H and F are the wet-count fractions and B is their ratio minus 1, so B = 0 exactly when the counts are equal |
| `FloodComparison.ScoresAsWetFractions` | floodcomparison/core.py:79-89 | for a binary observation and a threshold >= 0, H = a / observed wet cells, F = b / modelled wet cells, B = modelled / observed wet cells - 1, and B = 0 exactly when the two wet areas have equal size |
| `FloodComparison.TabulateMonotone` | floodcomparison/core.py:67-81 | drying cells of the wet mask never raises a or b and never lowers c |
| `FloodComparison.ThresholdMonotone` | floodcomparison/core.py:53-81 | with observation and buffer fixed, raising the threshold never wets a cell, never raises a or b and never lowers c |
| `FloodScenario.FourByFour` | floodcomparison/core.py:49-89 | for a full buffer, observed wet at (0,0),(0,1) and modelled wet at (0,0),(0,1),(1,1): a = 2, b = 1, c = 0, d = 13, H = 1, F = 1/3, C = 2/3, B = 1/2 |

## Left out

- Raster reading and writing through `gdalutils` (`get_data`, `get_geo`, `write_raster`). Rasters are values passed in, and the written artifacts `buff.tif`, `mask.tif` and `aggr.tif` are fields of the result. This is a foreign library with file side effects.
- The `gdal_proximity.py` subprocess and its fixed 0.01 maximum distance. Its output is the input `dist`, and the only assumption about it is `WetCellsHaveDistance`. This is an external process.
- Creating the output folder and tolerating an existing one. This is filesystem plumbing.
- Printing the scores with two decimals. This is console formatting of floats.
- The process exit on a dimension mismatch. The model returns `Err(DimensionMismatch)` instead.
- NumPy's nan and inf when a denominator is 0. The model returns `None` for that score.
- Floating-point rounding of depths, distances and score ratios. The model uses exact `real` arithmetic.
- Non-binary observed rasters in the properties. `Compare` accepts any integers and applies the literal `x + y == 2` rule. Partition, monotonicity and the score readings are proved for 0/1 observations only. For example, an observed value of 2 inside the buffer falls in both TP (when modelled dry) and FN.
- A buffer built from both observed and modelled cells, and a configurable radius. Neither exists in the source.
