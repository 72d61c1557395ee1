# atlite `gis.py` in Dafny

This project models the geometric and raster bookkeeping in atlite's `atlite/gis.py`. atlite uses this code to map weather-grid cells onto target regions. The model has one Dafny module per piece of the file:

| file | module | models |
|---|---|---|
| `common.dfy` | `Wrappers` | `Option`, `Result` and the exceptions the code can raise (`Error`) |
| `coords.dfy` | `Coords` | `get_coords`: sorted bounds, the global lattice `-180 + k*dx` / `-90 + k*dy` built with `numpy.arange`, inclusive label selection |
| `sparse.dfy` | `Sparse` | `spdiag`: the CSR triple (data, column indices, row pointers) and the matrix it denotes |
| `shapes.dfy` | `Shapes` | `reproject_shapes` and its deprecated alias `reproject` over the three container kinds (Series, dict, anything else) |
| `geometry.dfy` | `Geometry` | shapes as axis-aligned boxes: area, `intersects`, intersection area, `within`, and the share `area(d & o) / area(o)` |
| `indicator.dfy` | `Indicator` | `compute_indicatormatrix`: a `lil_matrix` class, the `idx` dictionary built in a loop, the nested loop that fills the matrix in place |
| `raster.dfy` | `Raster` | `maybe_swap_spatial_dims` (the `swaps` dictionary built step by step, then `isel`) and `_as_transform` (rasterio's `from_origin`) |
| `regrid.dfy` | `Regrid` | `regrid`: axis normalisation, the two transforms, the `kwargs` updates, the single-dtype check, and per-slice resampling into a preallocated destination |

Values that come from foreign code are parameters:
- The coordinate transform of `reproject_shapes` is a function `project(crs1, crs2, shape)`.
- The STR-tree query is a list `query[i]` of origin positions for row `i`. It may be any list that contains every origin meeting `dest[i]`.
- Python's `id()` of each origin is the list `ids`.
- rasterio's resampling kernel is a function `warp(src, kw, r, c)`. It gives the value written into row `r`, column `c` of a destination plane.

The Python exceptions are results, not preconditions:
- `ZeroDivisionError` from `area / o.area`, and from a one-label axis in `_as_transform`.
- `IndexError` from reading the end labels of an empty axis.
- `ZeroDivisionError` from `arange` with step 0.
- the `AssertionError` of the dtype check.

Where the code and the prose describing it disagree, the model follows the code:
- `maybe_swap_spatial_dims` reverses y when its last label is below its first (gis.py:169-170). So the normalised y axis ASCENDS. It is not north-up.
- The docstring at gis.py:131-132 says an entry of 1 means the origin lies in the destination. The code gives exactly that, in both directions:
  - a share of 1 forces the origin to lie within the destination (`Geometry.ShareOneIsWithin`), and an origin within the destination has share 1 (`Geometry.ShareOfContainedIsOne`);
  - at the matrix level, entry (i, j) is 1 iff `orig[j]` lies within the row's shape and `j` is the column its identity maps to (`Indicator.ExpectedOneIffWithin`). No assumption of distinct objects is needed.

  A destination lying inside an origin gets the ratio of the two areas instead (`Geometry.ShareOfContainingOrigin`).
- An origin that appears twice in `orig` (the same object, so the same `id()`) is written only to the column of its LAST position. This is because `idx` keeps the last position for each identity (`Indicator.ExpectedDuplicateEarlierEmpty`).
- A dataset with no data variables fails the dtype check, because `len(set()) != 1` (`Regrid.RegridErrors`).
- The worked example of three unit squares under a sliding two-unit box gives the row `1-a, 1, a` (`Indicator.SlidingUnitSquaresRow`). At `a = 0.5` that is `0.5, 1.0, 0.5`.

## Model

| member | source | states |
|---|---|---|
| Coords.SortBounds | atlite/gis.py:60-61 | the result is the pair of bounds in ascending order, whichever order they came in |
| Coords.ArangeLength | atlite/gis.py:63-64 | the arange length is the least count of steps that covers `[start, stop)`; it is empty when the step points away from `stop` |
| Coords.GetCoords | atlite/gis.py:60-67 | fails (zero step) exactly when `dx` or `dy` is 0 |
| Coords.Arange | atlite/gis.py:63-64 | `numpy.arange(start, stop, step)` has `ArangeLength` elements, element `k` being `start + k*step` |
| Coords.Select | atlite/gis.py:67 | the label selection takes labels of the axis only, never more than it holds; none exceeds `hi`; the first one selected is at least `lo` |
| Coords.ArangeIncreasing | atlite/gis.py:63-64 | a positive-step arange is strictly increasing, and consecutive values differ by exactly the step |
| Coords.ArangeMembers | atlite/gis.py:63-64 | a value is in `arange(start, stop, step)` iff it lies in `[start, stop)` and equals `start + k*step` for some `k` |
| Coords.SelectMembers | atlite/gis.py:67 | on an ascending axis, the label selection keeps exactly the labels within `[lo, hi]` |
| Coords.SelectSpaced | atlite/gis.py:67 | selecting from an evenly spaced axis gives an evenly spaced axis |
| Coords.AxisSelection | atlite/gis.py:63-67 | one axis holds exactly the lattice points of `[origin, stop)` within the bounds, evenly spaced by the step |
| Coords.GetCoordsGrid | atlite/gis.py:60-67 | for positive steps: every x is in the sorted bounds, in `[-180, 180)` and equals `-180 + k*dx`; every such point is selected; neighbours are `dx` apart; likewise for y with `-90`, `90` and `dy` |
| Coords.GetCoordsBoundOrder | atlite/gis.py:60-61 | swapping the start and stop of x, or of y, gives the same result |
| Sparse.Range | atlite/gis.py:73 | `arange(n)` has length `n` and holds `k` at position `k` |
| Sparse.Spdiag | atlite/gis.py:71-74 | `spdiag(v)`: shape N x N with N = `len(v)`, data `v`, row pointers `0..N`, column indices `0..N-1` |
| Sparse.SpdiagShape | atlite/gis.py:71-74 | `spdiag(v)` is a well-formed N x N CSR matrix with N = `len(v)`, data `v` and exactly one stored entry per row |
| Sparse.SpdiagEntry | atlite/gis.py:71-74 | entry (i, i) of `spdiag(v)` is `v[i]` and every other entry is 0 |
| Sparse.SpdiagScales | atlite/gis.py:71-74 | multiplying `spdiag(v)` by `x` gives `v[i] * x[i]` in component `i` |
| Shapes.MapShapes | atlite/gis.py:93 | `map(f, items)` has the same length and holds `f(items[i])` at position `i` |
| Shapes.ReprojectShapes | atlite/gis.py:83-93 | container kind and length kept (a non-list iterable becomes a list); a Series keeps its index; a dict keeps its keys in order; element `i` becomes `T(shapes[i])` |
| Shapes.Reproject | atlite/gis.py:96-98 | the deprecated alias returns exactly what `reproject_shapes` returns |
| Shapes.ReprojectWellFormed | atlite/gis.py:88-93 | a well-formed collection (index and values aligned, keys unique) stays well formed |
| Shapes.ReprojectLookup | atlite/gis.py:90-91 | for a dict, `out[k] == T(shapes[k])` for every key, and a key missing before is missing after |
| Shapes.ReprojectCompose | atlite/gis.py:83-93 | reprojecting A to B and then B to C transforms each shape by both maps in turn and keeps the length |
| Shapes.RoundTrip | atlite/gis.py:83-93 | when B to A undoes A to B on every shape, the round trip returns the collection itself (a non-list iterable comes back as a list) |
| Geometry.Area | atlite/gis.py:157 | the area of a box is non-negative, and 0 exactly when the box is degenerate in x or y |
| Geometry.IntersectionArea | atlite/gis.py:156 | the common area of two boxes is non-negative |
| Geometry.IntersectsSymmetric | atlite/gis.py:154 | `intersects` and the common area are symmetric |
| Geometry.DisjointNoArea | atlite/gis.py:154-156 | boxes that do not intersect have no common area |
| Geometry.IntersectionAreaBounded | atlite/gis.py:156-157 | the common area is at most the area of either box |
| Geometry.WithinFullArea | atlite/gis.py:131-132 | an origin lying within the destination has all of its area in common with it |
| Geometry.ShareInUnitInterval | atlite/gis.py:156-157 | every share `area(d & o) / area(o)` lies in [0, 1] |
| Geometry.ShareOfContainedIsOne | atlite/gis.py:131-132 | an origin of positive area lying within the destination has share exactly 1 |
| Geometry.ShareOneIsWithin | atlite/gis.py:131-132 | a share of exactly 1 means the origin lies within the destination (the converse of `ShareOfContainedIsOne`) |
| Geometry.ShareOfContainingOrigin | atlite/gis.py:156-157 | a destination lying within the origin has share `area(d) / area(o)` |
| Indicator.LilMatrix.constructor | atlite/gis.py:148 | a new `lil_matrix` has the requested shape and no stored entries |
| Indicator.LilMatrix.Set | atlite/gis.py:157 | `m[i, j] = v` makes entry (i, j) read `v`, stores nothing for 0, and leaves every other entry unchanged |
| Indicator.LastIndex | atlite/gis.py:150 | the position of the last occurrence of an identity: it holds that identity and no later position does |
| Indicator.BuildIndex | atlite/gis.py:150 | `idx` has one key per identity in `orig`, and each key maps to that identity's last position |
| Indicator.RowsAsWritten | atlite/gis.py:152-153 | as written: `enumerate(dest)` over a non-empty dict yields keys, not shapes. With a non-empty `orig` the first key handed to `tree.query` fails. With an empty `orig` the tree answers nothing and the walk goes through. Other containers yield their shapes |
| Indicator.Rows | atlite/gis.py:152 | as intended: the rows are the container's shapes in order, the dict's values for a dict; it agrees with the code for every non-dict container |
| Indicator.DestRows | atlite/gis.py:147-152 | row `i` is `dest[i]` reprojected from `dest_crs` to `orig_crs`, and there are `len(dest)` rows |
| Indicator.ComputeIndicatorMatrix | atlite/gis.py:146-159 | with the rows walked as intended (a dict `dest` gives its shapes; see Findings): fails with ZeroDivision exactly when some origin of zero area meets some row's shape. Otherwise it returns a fresh `len(dest) x len(orig)` matrix whose entry (i, j) is `Expected`. The result is the same for every candidate list that contains all intersecting origins |
| Indicator.FillRows | atlite/gis.py:152-157 | the outer loop stops with a hit exactly when some row meets an origin of zero area; otherwise every entry of every row is `Expected` |
| Indicator.FillRow | atlite/gis.py:153-157 | the inner loop hits a zero-area origin iff row `d` meets one; otherwise every column `j` of row `i` ends as `Expected`, and other rows are unchanged |
| Indicator.RowExpected | atlite/gis.py:153-157 | when no candidate meeting `d` has zero area, no origin meeting `d` has zero area, and the processed row equals `Expected` in every column |
| Indicator.RowRaises | atlite/gis.py:157 | one row meeting a zero-area origin makes the whole computation raise |
| Indicator.NoZeroAreaHit | atlite/gis.py:152-157 | rows that meet only origins of positive area raise nothing |
| Indicator.RowAfterWrites | atlite/gis.py:153-157 | after any list of candidates, column `j` holds the share of `orig[j]` if some candidate writes column `j` (a meeting origin whose identity maps to `j`), and 0 otherwise; repeated or extra candidates change nothing |
| Indicator.RowComplete | atlite/gis.py:153-157 | once every intersecting origin is among the candidates, each column equals `Expected`, whatever else the candidate list holds |
| Indicator.WriterHoldsColumnShape | atlite/gis.py:155 | a candidate that writes column `j` is the same object as `orig[j]`, and `j` is that object's last position |
| Indicator.ExpectedInUnitInterval | atlite/gis.py:156-157 | every entry lies in [0, 1], for any row shape |
| Indicator.ExpectedDisjointZero | atlite/gis.py:154 | a column whose origin does not meet the row's shape stays 0 |
| Indicator.ExpectedDistinct | atlite/gis.py:131-132 | with distinct origin objects, a meeting origin's entry is `area(d & o) / area(o)`, and an origin lying within the row's shape gets exactly 1 |
| Indicator.ExpectedOneIffWithin | atlite/gis.py:131-132 | an entry is 1 iff its origin lies within the row's shape and the identity lookup sends that origin to this column; no assumption of distinct objects |
| Indicator.ExpectedDuplicateEarlierEmpty | atlite/gis.py:150 | a repeated origin object leaves the column of its earlier position at 0 |
| Indicator.SlidingUnitSquaresRow | atlite/gis.py:152-157 | three unit squares under the box `[a, a+2] x [0, 1]` give the row `1-a, 1, a` |
| Indicator.DictRowsDiffer | atlite/gis.py:152-153 | for a one-entry dict and a non-empty `orig`, the code as written fails where the intended row walk yields the dict's shape |
| Raster.Reverse | atlite/gis.py:168-170 | `slice(None, None, -1)` keeps the length and puts `s[n-1-i]` at position `i` |
| Raster.Isel | atlite/gis.py:172 | `ds.isel(**swaps)` keeps axis lengths and the variable count, and reverses the labels of exactly the axes in `swaps` |
| Raster.Normalise | atlite/gis.py:162-172 | what `maybe_swap_spatial_dims` returns: both axes ascend end to end, with lengths and variable count kept |
| Raster.MaybeSwapSpatialDims | atlite/gis.py:162-172 | fails with IndexError exactly when an axis is empty; otherwise reverses x iff its first label exceeds its last, and y iff its last label is below its first; the result ascends on both axes |
| Raster.ReverseInvolution | atlite/gis.py:168-170 | reversing twice gives the axis back |
| Raster.ReverseMultiset | atlite/gis.py:168-170 | reversal keeps the labels with their multiplicities |
| Raster.IselNothing | atlite/gis.py:172 | with no swaps the dataset is returned unchanged |
| Raster.AscendingUnchanged | atlite/gis.py:167-172 | data already ascending on both axes is returned unchanged |
| Raster.NormaliseIdempotent | atlite/gis.py:162-172 | normalising twice is normalising once |
| Raster.IselPreservesShape | atlite/gis.py:172 | `isel` keeps axis lengths, axis labels as multisets, variable count, dtypes, leading shapes and slice counts, and keeps data on the grid |
| Raster.IselConforms | atlite/gis.py:172 | data on the grid stays on the grid after `isel` |
| Raster.FlipPlaneCells | atlite/gis.py:172 | a flipped plane keeps its shape, and cell (r, c) comes from the mirrored row and column |
| Raster.IselKeepsLabels | atlite/gis.py:172 | each value keeps its coordinates: the value at (r, c) after `isel` is the value the original held at the same x and y labels |
| Raster.FromOrigin | atlite/gis.py:182 | `from_origin` maps pixel corner (0, 0) to `(west, north)` |
| Raster.FromOriginCorners | atlite/gis.py:182 | pixel corner (col, row) lies `col` pixel widths east and `row` pixel heights south of the origin |
| Raster.AsTransform | atlite/gis.py:175-182 | fails exactly when an axis has fewer than two labels (IndexError if empty, ZeroDivisionError if one label); otherwise `from_origin(x[0], y[-1], mean x step, mean y step)` |
| Raster.EvenlySpacedClosedForm | atlite/gis.py:179-180 | label `k` of an evenly spaced axis is `s[0] + k*step` |
| Raster.MeanStepOfEvenlySpaced | atlite/gis.py:179-180 | the mean step `(last - first) / (n - 1)` of an evenly spaced axis is its step |
| Raster.AsTransformOnEvenAxes | atlite/gis.py:175-182 | on evenly spaced axes the pixel sizes are the axis steps; corner (k, 0) is at `x[k]` and corner (0, r) at `y[n-1-r]`, so for a positive y step (an ascending y axis, as after `maybe_swap_spatial_dims`) row 0 is the largest y |
| Regrid.ReprojectArgs | atlite/gis.py:217-221 | `dst_shape` and both transforms override the caller's values; each crs defaults to EPSG:4326 only when absent; every other argument is passed through |
| Regrid.CompleteKwargs | atlite/gis.py:217-221 | the in-place `kwargs` updates produce `ReprojectArgs` |
| Regrid.ResamplePlane | atlite/gis.py:224-225 | the destination plane has `len(dimy)` rows of `len(dimx)` values, each the resampler's value for that cell |
| Regrid.ResampleVariable | atlite/gis.py:223-226 | a resampled variable keeps its dtype, leading shape and slice count, and every slice is `rows x cols` |
| Regrid.ReprojectSlices | atlite/gis.py:223-226 | the preallocated destination holds, at each leading index `k`, the resampled source slice `k` |
| Regrid.ReprojectVariables | atlite/gis.py:233-241 | each data variable is resampled on its own |
| Regrid.RegridResult | atlite/gis.py:207-241 | `regrid` raises IndexError on an empty data axis; on success the result carries the destination axes and one variable per input variable |
| Regrid.ResampleNormalised | atlite/gis.py:212-241 | after normalisation, `regrid` fails iff an axis of the data or of the destination has fewer than two labels or the dtypes are not one; on success it carries the destination axes and one variable per input variable |
| Regrid.Regrid | atlite/gis.py:207-241 | the method computes `RegridResult`: normalisation, transforms, keyword arguments, dtype check, resampling |
| Regrid.RegridNormalised | atlite/gis.py:212-241 | the steps after `maybe_swap_spatial_dims` compute `ResampleNormalised` |
| Regrid.DtypesSingleton | atlite/gis.py:229-231 | the dtype check passes iff there is at least one variable and all variables share one dtype |
| Regrid.IselDtypes | atlite/gis.py:228-229 | reordering the axes does not change the set of dtypes |
| Regrid.RegridErrors | atlite/gis.py:210-231 | `regrid` fails iff an axis of the data or of the destination has fewer than two labels or the dtypes are not one; an empty data axis gives IndexError; with usable axes the failure is the dtype check |
| Regrid.RegridShape | atlite/gis.py:233-241 | on success: the destination axes; per variable the same dtype and leading shape; every slice `len(dimy) x len(dimx)`; data on the grid stays on the grid |
| Regrid.NormalisedSlice | atlite/gis.py:223-241 | after normalisation, output slice `k` of variable `v` is input slice `k` of variable `v`, resampled with the completed keyword arguments |
| Regrid.RegridSlice | atlite/gis.py:210-241 | output slice `k` of variable `v` is the resampled input slice `k` of variable `v`, flipped along each wrongly ordered axis; it depends on no other slice and no other variable |

## Left out

- `grid_cell_areas` (gis.py:104-120): floating-point trigonometry and a pyproj reprojection to EPSG:3035. Its geographic branch also reads an undefined `dx` at gis.py:113.
- Projection maths: pyproj's `Transformer` and shapely's `transform` are the parameter `project`. Errors raised while building a `Transformer` are not modelled.
- rasterio's resampling kernels: the parameter `warp`.
- shapely's STR-tree and general polygons. Shapes are axis-aligned boxes, and the tree is its candidate lists.
- Floating point everywhere: coordinates, steps, areas and shares are exact reals. Rounding in `arange`, in the division at gis.py:157 and in the mean step at gis.py:179-180 is not modelled.
- `Sparse.Spdiag`: the `int32` index type is not modelled, because indices are unbounded integers.
- The time axis of `get_coords` (`pd.date_range(..., end="now")` reads the clock) and its `lon`/`lat` coordinate aliases.
- `Coords.GetCoordsGrid`: states the grid for positive steps only. A negative step gives empty axes, because `arange` from -180 up to 180 with a negative step is empty (`Coords.ArangeLength`).
- `Coords.GetCoords`: `numpy.arange` with step 0 raises `ZeroDivisionError`; the model reports it as the error `ZeroStep`.
- The `GeoDataFrame` unwrap at gis.py:146: `dest` is already a collection of shapes.
- `Indicator.ComputeIndicatorMatrix`: walks the rows of a dict `dest` as intended, through its shapes (`Indicator.Rows`). The code as written hands the dict's keys to `tree.query` and fails for a non-empty dict and a non-empty `orig` (see Findings; `Indicator.RowsAsWritten` models that walk). The matrix dtype is not modelled. Python `id()` values are the explicit list `ids`.
- xarray plumbing in `regrid`: coordinate names (`dimx.name`, `dimy.name`), attributes, `rename`, `assign_coords`, the core-dimension transposition of `apply_ufunc`, and output coordinates other than the two axes.
- A `DataArray` input to `regrid` is the one-variable case of a dataset. Variable names are not modelled: variables are a list.
- `Regrid.RegridShape`: gives every variable its own dtype. `output_dtypes=[dtypes.pop()]` is that dtype, because the check has already made the dtypes equal.
- Running `regrid` with Python assertions disabled (`-O`) would skip the dtype check. That is not modelled.
- dask `'parallelized'` execution (concurrency). What it relies on, the independence of slices, is `Regrid.RegridSlice`.
- The `DeprecationWarning` of `reproject` (a side effect with no effect on the result).
- `atlite/config.py`: configuration constants only, with no logic.

## Findings

| source | as written | input that shows it | evidently intended | confidence | as-written member | corrected member |
|---|---|---|---|---|---|---|
| atlite/gis.py:152-153 | `for i, d in enumerate(dest)` iterates a dict's keys. `reproject_shapes` at gis.py:90-91 returns an `OrderedDict` for a dict `dest`, so the keys reach `tree.query(d)` instead of the shapes | `dest = {"a": box(0, 0, 1, 1)}` with a non-empty `orig`: the row walk sees `"a"`, not the box, and `tree.query("a")` fails. With an empty `orig` the tree answers nothing, so the code goes through | walk the dict's values in key order, as for the other containers | medium, not executed | Indicator.RowsAsWritten | Indicator.Rows |
