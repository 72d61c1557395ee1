/** Raster bookkeeping of `atlite/gis.py`: `maybe_swap_spatial_dims`, which
    flips a dataset along the spatial axes whose labels run downwards, and
    `_as_transform`, which derives the affine pixel-to-coordinate transform
    rasterio expects from two coordinate axes.

    A dataset is modelled by its two spatial coordinate axes and its data
    variables. A variable keeps its leading (non-spatial) shape and, in
    row-major order of the leading indices, one plane per leading index; a
    plane is a list of rows along y, each row a list of values along x. */
module Raster {
  import opened Wrappers
  import Coords

  /** One spatial slice: `plane[r][c]` is the value at `(x[c], y[r])`. */
  type Plane<E> = seq<seq<E>>

  /** A data variable: dtype, the sizes of its leading dimensions and its
      spatial slices. */
  datatype Variable<D, E> = Variable(dtype: D, lead: seq<nat>, slices: seq<Plane<E>>)

  /** A dataset on the grid `x` by `y` (an `xarray.Dataset`; a `DataArray`
      is the dataset with one variable). */
  datatype Dataset<D, E> = Dataset(x: seq<real>, y: seq<real>, vars: seq<Variable<D, E>>)

  datatype Axis = X | Y

  /** The number of slices a leading shape holds. */
  function Product(lead: seq<nat>): nat
  {
    if lead == [] then 1 else lead[0] * Product(lead[1..])
  }

  /** A plane of `rows` rows, each of `cols` values. */
  predicate PlaneShape<E>(p: Plane<E>, rows: nat, cols: nat)
  {
    |p| == rows && forall r :: 0 <= r < rows ==> |p[r]| == cols
  }

  /** The data of every variable lies on the dataset's grid: one slice per
      leading index, each of the grid's shape. */
  predicate Conforms<D, E>(ds: Dataset<D, E>)
  {
    && (forall v :: 0 <= v < |ds.vars| ==> |ds.vars[v].slices| == Product(ds.vars[v].lead))
    && (forall v, k :: 0 <= v < |ds.vars| && 0 <= k < |ds.vars[v].slices| ==>
          PlaneShape(ds.vars[v].slices[k], |ds.y|, |ds.x|))
  }

  // ---------------------------------------------------------------------------
  // Reversal: `isel(dim=slice(None, None, -1))`

  function Reverse<T>(s: seq<T>): (r: seq<T>)
    ensures |r| == |s|
    ensures forall i :: 0 <= i < |s| ==> r[i] == s[|s| - 1 - i]
  {
    seq(|s|, i requires 0 <= i < |s| => s[|s| - 1 - i])
  }

  /** Where position `i` of an axis of length `n` comes from after the
      selection: itself, or its mirror image when the axis is reversed. */
  function Source(reversed: bool, n: nat, i: nat): nat
    requires i < n
  {
    if reversed then n - 1 - i else i
  }

  /** A plane reversed along y (its rows) and/or x (within each row). */
  function FlipPlane<E>(p: Plane<E>, flipY: bool, flipX: bool): Plane<E>
  {
    var rows := if flipY then Reverse(p) else p;
    seq(|rows|, r requires 0 <= r < |rows| => if flipX then Reverse(rows[r]) else rows[r])
  }

  function FlipVariable<D, E>(v: Variable<D, E>, flipY: bool, flipX: bool): Variable<D, E>
  {
    Variable(v.dtype, v.lead, seq(|v.slices|, k requires 0 <= k < |v.slices| =>
      FlipPlane(v.slices[k], flipY, flipX)))
  }

  /** `ds.isel(**swaps)`: the named axes reversed, labels and data together. */
  function Isel<D, E>(ds: Dataset<D, E>, swaps: set<Axis>): (r: Dataset<D, E>)
    ensures |r.x| == |ds.x| && |r.y| == |ds.y| && |r.vars| == |ds.vars|
    ensures r.x == if X in swaps then Reverse(ds.x) else ds.x
    ensures r.y == if Y in swaps then Reverse(ds.y) else ds.y
  {
    var fx, fy := X in swaps, Y in swaps;
    Dataset(if fx then Reverse(ds.x) else ds.x,
            if fy then Reverse(ds.y) else ds.y,
            seq(|ds.vars|, v requires 0 <= v < |ds.vars| => FlipVariable(ds.vars[v], fy, fx)))
  }

  /** The axes `maybe_swap_spatial_dims` reverses: x when its first label
      exceeds its last, y when its last label is below its first. */
  function Needed<D, E>(ds: Dataset<D, E>): (s: set<Axis>)
    requires |ds.x| > 0 && |ds.y| > 0
  {
    (if ds.x[0] > ds.x[|ds.x| - 1] then {X} else {}) +
    (if ds.y[|ds.y| - 1] < ds.y[0] then {Y} else {})
  }

  /** What `maybe_swap_spatial_dims` returns for a dataset with non-empty axes. */
  function Normalise<D, E>(ds: Dataset<D, E>): (r: Dataset<D, E>)
    requires |ds.x| > 0 && |ds.y| > 0
    ensures Ascending(r)
    ensures |r.x| == |ds.x| && |r.y| == |ds.y| && |r.vars| == |ds.vars|
  {
    Isel(ds, Needed(ds))
  }

  /** Both axes run from their smaller end label to their larger one. */
  predicate Ascending<D, E>(ds: Dataset<D, E>)
  {
    |ds.x| > 0 && |ds.y| > 0 && ds.x[0] <= ds.x[|ds.x| - 1] && ds.y[0] <= ds.y[|ds.y| - 1]
  }

  /** `maybe_swap_spatial_dims(ds, namex, namey)`: the swaps are collected
      in a dictionary one axis at a time, and `isel` is applied only when
      there is one. Reading the end labels of an empty index raises. */
  method MaybeSwapSpatialDims<D, E>(ds: Dataset<D, E>) returns (r: Result<Dataset<D, E>>)
    ensures r.Err? <==> |ds.x| == 0 || |ds.y| == 0
    ensures r.Err? ==> r.error == IndexOutOfRange
    ensures r.Ok? ==> r.value == Normalise(ds) && Ascending(r.value)
    ensures r.Ok? ==> r.value.x == (if ds.x[0] > ds.x[|ds.x| - 1] then Reverse(ds.x) else ds.x)
    ensures r.Ok? ==> r.value.y == (if ds.y[|ds.y| - 1] < ds.y[0] then Reverse(ds.y) else ds.y)
  {
    if |ds.x| == 0 || |ds.y| == 0 {
      return Err(IndexOutOfRange);
    }
    var swaps: set<Axis> := {};
    var lx, rx := ds.x[0], ds.x[|ds.x| - 1];
    var ly, uy := ds.y[0], ds.y[|ds.y| - 1];
    if lx > rx {
      swaps := swaps + {X};
    }
    if uy < ly {
      swaps := swaps + {Y};
    }
    assert swaps == Needed(ds);
    if swaps == {} {
      IselNothing(ds);
      return Ok(ds);
    }
    return Ok(Isel(ds, swaps));
  }

  // ---------------------------------------------------------------------------
  // Properties of the axis normalisation

  /** Reversing twice gives the sequence back. */
  lemma ReverseInvolution<T>(s: seq<T>)
    ensures Reverse(Reverse(s)) == s
  {}

  /** Reversal keeps the elements with their multiplicities. */
  lemma {:induction false} ReverseMultiset<T>(s: seq<T>)
    ensures multiset(Reverse(s)) == multiset(s)
  {
    if s != [] {
      var n := |s| - 1;
      assert Reverse(s) == [s[n]] + Reverse(s[..n]);
      ReverseMultiset(s[..n]);
      assert s == s[..n] + [s[n]];
    }
  }

  /** An empty selection leaves the dataset as it is. */
  lemma IselNothing<D, E>(ds: Dataset<D, E>)
    ensures Isel(ds, {}) == ds
  {
    forall v | 0 <= v < |ds.vars|
      ensures FlipVariable(ds.vars[v], false, false) == ds.vars[v]
    {
      var w := ds.vars[v];
      forall k | 0 <= k < |w.slices|
        ensures FlipPlane(w.slices[k], false, false) == w.slices[k]
      {}
    }
  }

  /** Data already ascending on both axes is returned unchanged. */
  lemma AscendingUnchanged<D, E>(ds: Dataset<D, E>)
    requires Ascending(ds)
    ensures Normalise(ds) == ds
  {
    assert Needed(ds) == {};
    IselNothing(ds);
  }

  /** The normalisation is idempotent. */
  lemma NormaliseIdempotent<D, E>(ds: Dataset<D, E>)
    requires |ds.x| > 0 && |ds.y| > 0
    ensures var n := Normalise(ds); |n.x| > 0 && |n.y| > 0 && Normalise(n) == n
  {
    AscendingUnchanged(Normalise(ds));
  }

  /** The selection only reorders: axis lengths, variable count, dtypes,
      leading shapes and slice counts stay, every axis keeps its labels as a
      multiset, and a conforming dataset stays conforming. */
  lemma IselPreservesShape<D, E>(ds: Dataset<D, E>, swaps: set<Axis>)
    ensures var s := Isel(ds, swaps);
      && |s.x| == |ds.x| && |s.y| == |ds.y| && |s.vars| == |ds.vars|
      && multiset(s.x) == multiset(ds.x) && multiset(s.y) == multiset(ds.y)
      && (forall v :: 0 <= v < |ds.vars| ==>
            s.vars[v].dtype == ds.vars[v].dtype && s.vars[v].lead == ds.vars[v].lead &&
            |s.vars[v].slices| == |ds.vars[v].slices|)
      && (Conforms(ds) ==> Conforms(s))
  {
    ReverseMultiset(ds.x);
    ReverseMultiset(ds.y);
    if Conforms(ds) {
      IselConforms(ds, swaps);
    }
  }

  lemma IselConforms<D, E>(ds: Dataset<D, E>, swaps: set<Axis>)
    requires Conforms(ds)
    ensures Conforms(Isel(ds, swaps))
  {
    var s := Isel(ds, swaps);
    forall v, k | 0 <= v < |s.vars| && 0 <= k < |s.vars[v].slices|
      ensures PlaneShape(s.vars[v].slices[k], |s.y|, |s.x|)
    {
      assert s.vars[v].slices[k] == FlipPlane(ds.vars[v].slices[k], Y in swaps, X in swaps);
      FlipPlaneCells(ds.vars[v].slices[k], |ds.y|, |ds.x|, Y in swaps, X in swaps);
    }
  }

  /** A flipped plane keeps its shape, and its cell `(r, c)` is the cell of
      the original at the mirrored positions. */
  lemma FlipPlaneCells<E>(p: Plane<E>, rows: nat, cols: nat, flipY: bool, flipX: bool)
    requires PlaneShape(p, rows, cols)
    ensures PlaneShape(FlipPlane(p, flipY, flipX), rows, cols)
    ensures forall r, c :: 0 <= r < rows && 0 <= c < cols ==>
              FlipPlane(p, flipY, flipX)[r][c] == p[Source(flipY, rows, r)][Source(flipX, cols, c)]
  {
    var q := FlipPlane(p, flipY, flipX);
    forall r | 0 <= r < rows
      ensures |q[r]| == cols
      ensures forall c :: 0 <= c < cols ==> q[r][c] == p[Source(flipY, rows, r)][Source(flipX, cols, c)]
    {
      var src := p[Source(flipY, rows, r)];
      assert |src| == cols;
      assert q[r] == if flipX then Reverse(src) else src;
    }
  }

  /** Every value keeps its coordinates: the value at row `r`, column `c` of
      a selected slice is the one the original held at the same labels. */
  lemma IselKeepsLabels<D, E>(ds: Dataset<D, E>, swaps: set<Axis>, v: nat, k: nat, r: nat, c: nat)
    requires Conforms(ds)
    requires v < |ds.vars| && k < |ds.vars[v].slices| && r < |ds.y| && c < |ds.x|
    ensures Conforms(Isel(ds, swaps))
    ensures var s := Isel(ds, swaps);
      var r0, c0 := Source(Y in swaps, |ds.y|, r), Source(X in swaps, |ds.x|, c);
      && s.y[r] == ds.y[r0] && s.x[c] == ds.x[c0]
      && s.vars[v].slices[k][r][c] == ds.vars[v].slices[k][r0][c0]
  {
    IselConforms(ds, swaps);
    var p := ds.vars[v].slices[k];
    assert Isel(ds, swaps).vars[v].slices[k] == FlipPlane(p, Y in swaps, X in swaps);
    FlipPlaneCells(p, |ds.y|, |ds.x|, Y in swaps, X in swaps);
  }

  // ---------------------------------------------------------------------------
  // `_as_transform`

  /** An affine map `(col, row) -> (a*col + b*row + c, d*col + e*row + f)`,
      rasterio's `Affine(a, b, c, d, e, f)`. */
  datatype Affine = Affine(a: real, b: real, c: real, d: real, e: real, f: real)

  /** The coordinates of the corner of pixel `(col, row)`. */
  function Apply(t: Affine, col: real, row: real): (real, real)
  {
    (t.a * col + t.b * row + t.c, t.d * col + t.e * row + t.f)
  }

  /** `rasterio.transform.from_origin(west, north, xsize, ysize)`: the top-left
      corner at `(west, north)`, columns growing east, rows growing south. */
  function FromOrigin(west: real, north: real, xsize: real, ysize: real): (t: Affine)
    ensures Apply(t, 0.0, 0.0) == (west, north)
  {
    Affine(xsize, 0.0, west, 0.0, -ysize, north)
  }

  /** Pixel corner `(col, row)` of `from_origin` lies `col` pixel widths east
      and `row` pixel heights south of the origin. */
  lemma FromOriginCorners(west: real, north: real, xsize: real, ysize: real, col: real, row: real)
    ensures Apply(FromOrigin(west, north, xsize, ysize), col, row) ==
              (west + xsize * col, north - ysize * row)
  {
    var t := FromOrigin(west, north, xsize, ysize);
    ZeroProduct(row);
    ZeroProduct(col);
    NegatedProduct(ysize, row);
    assert Apply(t, col, row).0 == xsize * col + 0.0 * row + west;
    assert Apply(t, col, row).1 == 0.0 * col + (-ysize) * row + north;
  }

  lemma ZeroProduct(a: real)
    ensures 0.0 * a == 0.0
  {}

  lemma NegatedProduct(a: real, b: real)
    ensures (-a) * b == -(a * b)
  {}

  /** The mean step of an axis: `(last - first) / (n - 1)`. */
  function MeanStep(s: seq<real>): real
    requires |s| >= 2
  {
    (s[|s| - 1] - s[0]) / ((|s| - 1) as real)
  }

  /** `_as_transform(x, y)`. Reading the end labels of an empty axis raises
      `IndexError` (both axes are read before any division); a one-label
      axis makes the float division by `len - 1` raise
      `ZeroDivisionError`. */
  function AsTransform(x: seq<real>, y: seq<real>): (r: Result<Affine>)
    ensures r.Err? <==> |x| < 2 || |y| < 2
    ensures r.Err? ==> r.error == (if |x| == 0 || |y| == 0 then IndexOutOfRange else ZeroDivision)
    ensures r.Ok? ==> r.value == FromOrigin(x[0], y[|y| - 1], MeanStep(x), MeanStep(y))
  {
    if |x| == 0 || |y| == 0 then Err(IndexOutOfRange)
    else if |x| == 1 || |y| == 1 then Err(ZeroDivision)
    else
      var dx := (x[|x| - 1] - x[0]) / ((|x| - 1) as real);
      var dy := (y[|y| - 1] - y[0]) / ((|y| - 1) as real);
      Ok(Affine(dx, 0.0, x[0], 0.0, -dy, y[|y| - 1]))
  }

  // ---------------------------------------------------------------------------
  // Properties of the transform

  /** An evenly spaced axis reaches label `k` after `k` steps. */
  lemma {:induction false} EvenlySpacedClosedForm(s: seq<real>, step: real, k: nat)
    requires Coords.EvenlySpaced(s, step) && k < |s|
    ensures s[k] == s[0] + (k as real) * step
  {
    if k > 0 {
      EvenlySpacedClosedForm(s, step, k - 1);
      assert s[k] - s[k - 1] == step;
      StepMultiple(k - 1, step);
    }
  }

  lemma StepMultiple(k: nat, step: real)
    ensures ((k + 1) as real) * step == (k as real) * step + step
  {}

  /** For an evenly spaced axis the mean step is the step. */
  lemma MeanStepOfEvenlySpaced(s: seq<real>, step: real)
    requires Coords.EvenlySpaced(s, step) && |s| >= 2
    ensures MeanStep(s) == step
  {
    EvenlySpacedClosedForm(s, step, |s| - 1);
    CancelFactor(|s| - 1, step);
  }

  lemma CancelFactor(n: nat, step: real)
    requires n > 0
    ensures ((n as real) * step) / (n as real) == step
  {}

  /** On evenly spaced axes with steps `sx`, `sy` the transform has exactly
      those pixel sizes and maps pixel corner `(k, 0)` to label `x[k]` and
      `(0, r)` to label `y[n-1-r]`: row 0 sits at the largest y. */
  lemma AsTransformOnEvenAxes(x: seq<real>, y: seq<real>, sx: real, sy: real, k: nat, r: nat)
    requires Coords.EvenlySpaced(x, sx) && Coords.EvenlySpaced(y, sy)
    requires |x| >= 2 && |y| >= 2 && k < |x| && r < |y|
    ensures AsTransform(x, y).Ok?
    ensures var t := AsTransform(x, y).value;
      && t.a == sx && t.e == -sy
      && Apply(t, k as real, 0.0).0 == x[k]
      && Apply(t, 0.0, r as real).1 == y[|y| - 1 - r]
  {
    var t := AsTransform(x, y).value;
    MeanStepOfEvenlySpaced(x, sx);
    MeanStepOfEvenlySpaced(y, sy);
    EvenlySpacedClosedForm(x, sx, k);
    EvenlySpacedClosedForm(y, sy, |y| - 1);
    EvenlySpacedClosedForm(y, sy, |y| - 1 - r);
    StepDifference(|y| - 1, r, sy);
    FromOriginCorners(x[0], y[|y| - 1], sx, sy, k as real, 0.0);
    FromOriginCorners(x[0], y[|y| - 1], sx, sy, 0.0, r as real);
  }

  lemma StepDifference(n: nat, r: nat, step: real)
    requires r <= n
    ensures ((n - r) as real) * step == (n as real) * step - step * (r as real)
  {}
}
