/** `regrid(ds, dimx, dimy, **kwargs)`: the bookkeeping around rasterio's
    `reproject`. The dataset is normalised with `maybe_swap_spatial_dims`,
    source and destination transforms are derived with `_as_transform`, the
    keyword arguments for the resampler are completed, the data variables
    must share one dtype, and every spatial slice of every variable is
    resampled onto the destination grid on its own.

    The resampling kernel is the parameter `warp`: `warp(src, kw, r, c)` is
    the value the resampler writes into row `r`, column `c` of the
    destination plane when given the source plane `src` and the keyword
    arguments `kw`. */
module Regrid {
  import opened Wrappers
  import opened Raster

  /** The values of the keyword arguments passed on to the resampler. */
  datatype Kwarg<V> =
    | DstShape(rows: nat, cols: nat)  // dst_shape
    | Transform(t: Affine)            // src_transform, dst_transform
    | CrsInit(init: string)           // dict(init=...)
    | Given(v: V)                     // any other value a caller passes

  /** The reference system both crs arguments default to. */
  const Epsg4326: string := "EPSG:4326"

  /** The keyword arguments `reproject` receives: the caller's, with the
      destination shape and both transforms overriding whatever was given,
      and each crs set to EPSG:4326 only when the caller left it out. */
  function ReprojectArgs<V>(kwargs: map<string, Kwarg<V>>, rows: nat, cols: nat,
                            src: Affine, dst: Affine): (kw: map<string, Kwarg<V>>)
    ensures kw.Keys == kwargs.Keys + {"dst_shape", "src_transform", "dst_transform", "src_crs", "dst_crs"}
    ensures kw["dst_shape"] == DstShape(rows, cols)
    ensures kw["src_transform"] == Transform(src) && kw["dst_transform"] == Transform(dst)
    ensures kw["src_crs"] == if "src_crs" in kwargs then kwargs["src_crs"] else CrsInit(Epsg4326)
    ensures kw["dst_crs"] == if "dst_crs" in kwargs then kwargs["dst_crs"] else CrsInit(Epsg4326)
    ensures forall k :: k in kwargs && k !in {"dst_shape", "src_transform", "dst_transform"} ==>
              kw[k] == kwargs[k]
  {
    var updated := kwargs["dst_shape" := DstShape(rows, cols)]
                         ["src_transform" := Transform(src)]
                         ["dst_transform" := Transform(dst)];
    var withSrc := if "src_crs" in updated then updated else updated["src_crs" := CrsInit(Epsg4326)];
    if "dst_crs" in withSrc then withSrc else withSrc["dst_crs" := CrsInit(Epsg4326)]
  }

  /** The destination plane of one source plane. */
  function ResamplePlane<E, V>(warp: (Plane<E>, map<string, Kwarg<V>>, nat, nat) -> E,
                               src: Plane<E>, kw: map<string, Kwarg<V>>,
                               rows: nat, cols: nat): (p: Plane<E>)
    ensures PlaneShape(p, rows, cols)
    ensures forall r, c :: 0 <= r < rows && 0 <= c < cols ==> p[r][c] == warp(src, kw, r, c)
  {
    seq(rows, r requires 0 <= r < rows => seq(cols, c requires 0 <= c < cols => warp(src, kw, r, c)))
  }

  /** A variable resampled slice by slice: same dtype, same leading shape. */
  function ResampleVariable<D, E, V>(warp: (Plane<E>, map<string, Kwarg<V>>, nat, nat) -> E,
                                     v: Variable<D, E>, kw: map<string, Kwarg<V>>,
                                     rows: nat, cols: nat): (r: Variable<D, E>)
    ensures r.dtype == v.dtype && r.lead == v.lead && |r.slices| == |v.slices|
    ensures forall k :: 0 <= k < |r.slices| ==> PlaneShape(r.slices[k], rows, cols)
  {
    Variable(v.dtype, v.lead, seq(|v.slices|, k requires 0 <= k < |v.slices| =>
      ResamplePlane(warp, v.slices[k], kw, rows, cols)))
  }

  /** `{da.dtype for da in data_vars}`. */
  function Dtypes<D(==), E>(ds: Dataset<D, E>): set<D>
  {
    set i | 0 <= i < |ds.vars| :: ds.vars[i].dtype
  }

  /** What `regrid` returns, or the exception it raises. */
  function RegridResult<D(==), E, V>(ds: Dataset<D, E>, dimx: seq<real>, dimy: seq<real>,
                                     kwargs: map<string, Kwarg<V>>,
                                     warp: (Plane<E>, map<string, Kwarg<V>>, nat, nat) -> E)
    : (r: Result<Dataset<D, E>>)
    ensures |ds.x| == 0 || |ds.y| == 0 ==> r == Err(IndexOutOfRange)
    ensures r.Ok? ==> r.value.x == dimx && r.value.y == dimy && |r.value.vars| == |ds.vars|
  {
    if |ds.x| == 0 || |ds.y| == 0 then Err(IndexOutOfRange)
    else ResampleNormalised(Normalise(ds), dimx, dimy, kwargs, warp)
  }

  /** What `regrid` does once the axes are normalised. */
  function ResampleNormalised<D(==), E, V>(n: Dataset<D, E>, dimx: seq<real>, dimy: seq<real>,
                                           kwargs: map<string, Kwarg<V>>,
                                           warp: (Plane<E>, map<string, Kwarg<V>>, nat, nat) -> E)
    : (r: Result<Dataset<D, E>>)
    ensures r.Err? <==> |n.x| < 2 || |n.y| < 2 || |dimx| < 2 || |dimy| < 2 || |Dtypes(n)| != 1
    ensures r.Ok? ==> r.value.x == dimx && r.value.y == dimy && |r.value.vars| == |n.vars|
  {
    var src :- AsTransform(n.x, n.y);
    var dst :- AsTransform(dimx, dimy);
    var kw := ReprojectArgs(kwargs, |dimy|, |dimx|, src, dst);
    if |Dtypes(n)| != 1 then Err(MixedDtypes)
    else Ok(Dataset(dimx, dimy, seq(|n.vars|, v requires 0 <= v < |n.vars| =>
           ResampleVariable(warp, n.vars[v], kw, |dimy|, |dimx|))))
  }

  /** `_reproject(src, dst_shape, **kwargs)` for one variable: a destination
      array of one plane per leading index is allocated and the resampler
      fills it slice by slice; slice `k` of the result is computed from slice
      `k` of the source alone. */
  method ReprojectSlices<D, E, V>(warp: (Plane<E>, map<string, Kwarg<V>>, nat, nat) -> E,
                                  src: Variable<D, E>, kw: map<string, Kwarg<V>>,
                                  rows: nat, cols: nat)
    returns (planes: seq<Plane<E>>)
    ensures |planes| == |src.slices|
    ensures forall k :: 0 <= k < |planes| ==>
              planes[k] == ResamplePlane(warp, src.slices[k], kw, rows, cols)
  {
    var dst := new Plane<E>[|src.slices|];
    var k := 0;
    while k < dst.Length
      invariant 0 <= k <= dst.Length
      invariant forall j :: 0 <= j < k ==> dst[j] == ResamplePlane(warp, src.slices[j], kw, rows, cols)
    {
      dst[k] := ResamplePlane(warp, src.slices[k], kw, rows, cols);
      k := k + 1;
    }
    planes := dst[..];
  }

  /** `regrid(ds, dimx, dimy, **kwargs)`. */
  method Regrid<D(==), E, V>(ds: Dataset<D, E>, dimx: seq<real>, dimy: seq<real>,
                             kwargs: map<string, Kwarg<V>>,
                             warp: (Plane<E>, map<string, Kwarg<V>>, nat, nat) -> E)
    returns (res: Result<Dataset<D, E>>)
    ensures res == RegridResult(ds, dimx, dimy, kwargs, warp)
  {
    var swapped := MaybeSwapSpatialDims(ds);
    if swapped.Err? {
      return Err(swapped.error);
    }
    res := RegridNormalised(swapped.value, dimx, dimy, kwargs, warp);
  }

  /** The steps of `regrid` after `maybe_swap_spatial_dims`. */
  method RegridNormalised<D(==), E, V>(n: Dataset<D, E>, dimx: seq<real>, dimy: seq<real>,
                                       kwargs: map<string, Kwarg<V>>,
                                       warp: (Plane<E>, map<string, Kwarg<V>>, nat, nat) -> E)
    returns (res: Result<Dataset<D, E>>)
    ensures res == ResampleNormalised(n, dimx, dimy, kwargs, warp)
  {
    var srcTransform := AsTransform(n.x, n.y);
    if srcTransform.Err? {
      return Err(srcTransform.error);
    }
    var dstTransform := AsTransform(dimx, dimy);
    if dstTransform.Err? {
      return Err(dstTransform.error);
    }
    var rows, cols := |dimy|, |dimx|;

    var kw := CompleteKwargs(kwargs, rows, cols, srcTransform.value, dstTransform.value);

    var dtypes := set i | 0 <= i < |n.vars| :: n.vars[i].dtype;
    if |dtypes| != 1 {
      return Err(MixedDtypes);
    }
    var out := ReprojectVariables(warp, n.vars, kw, rows, cols);
    assert out == seq(|n.vars|, v requires 0 <= v < |n.vars| =>
                      ResampleVariable(warp, n.vars[v], kw, rows, cols));
    return Ok(Dataset(dimx, dimy, out));
  }

  /** The updates of `kwargs` before the resampler is called: the three
      entries `regrid` computes are written over the caller's, then the two
      crs entries get their default unless present. */
  method CompleteKwargs<V>(kwargs: map<string, Kwarg<V>>, rows: nat, cols: nat,
                           src: Affine, dst: Affine)
    returns (kw: map<string, Kwarg<V>>)
    ensures kw == ReprojectArgs(kwargs, rows, cols, src, dst)
  {
    kw := kwargs;
    kw := kw["dst_shape" := DstShape(rows, cols)];
    kw := kw["src_transform" := Transform(src)];
    kw := kw["dst_transform" := Transform(dst)];
    if "src_crs" !in kw {
      kw := kw["src_crs" := CrsInit(Epsg4326)];
    }
    if "dst_crs" !in kw {
      kw := kw["dst_crs" := CrsInit(Epsg4326)];
    }
  }

  /** `apply_ufunc` over the data variables: each is resampled on its own. */
  method ReprojectVariables<D, E, V>(warp: (Plane<E>, map<string, Kwarg<V>>, nat, nat) -> E,
                                     vars: seq<Variable<D, E>>, kw: map<string, Kwarg<V>>,
                                     rows: nat, cols: nat)
    returns (out: seq<Variable<D, E>>)
    ensures |out| == |vars|
    ensures forall v :: 0 <= v < |vars| ==> out[v] == ResampleVariable(warp, vars[v], kw, rows, cols)
  {
    out := [];
    var v := 0;
    while v < |vars|
      invariant 0 <= v <= |vars|
      invariant |out| == v
      invariant forall w :: 0 <= w < v ==> out[w] == ResampleVariable(warp, vars[w], kw, rows, cols)
    {
      var src := vars[v];
      var planes := ReprojectSlices(warp, src, kw, rows, cols);
      assert planes == ResampleVariable(warp, src, kw, rows, cols).slices;
      out := out + [Variable(src.dtype, src.lead, planes)];
      v := v + 1;
    }
  }

  // ---------------------------------------------------------------------------
  // Properties

  /** The dtype check passes exactly when there is at least one variable and
      all variables share one dtype. */
  lemma DtypesSingleton<D, E>(ds: Dataset<D, E>)
    ensures |Dtypes(ds)| == 1 <==>
              |ds.vars| > 0 && forall v :: 0 <= v < |ds.vars| ==> ds.vars[v].dtype == ds.vars[0].dtype
  {
    if |ds.vars| > 0 && forall v :: 0 <= v < |ds.vars| ==> ds.vars[v].dtype == ds.vars[0].dtype {
      assert Dtypes(ds) == {ds.vars[0].dtype};
    }
    if |Dtypes(ds)| == 1 {
      var t :| t in Dtypes(ds);
      SingletonMembers(Dtypes(ds), t);
      forall v | 0 <= v < |ds.vars|
        ensures ds.vars[v].dtype == ds.vars[0].dtype
      {
        assert ds.vars[v].dtype in Dtypes(ds) && ds.vars[0].dtype in Dtypes(ds);
      }
    }
  }

  lemma SingletonMembers<T>(s: set<T>, t: T)
    requires |s| == 1 && t in s
    ensures s == {t}
  {
    if u :| u in s && u != t {
      assert |{t, u}| == 2;
      assert {t, u} <= s;
      SubsetCard({t, u}, s);
      assert false;
    }
  }

  lemma SubsetCard<T>(a: set<T>, b: set<T>)
    requires a <= b
    ensures |a| <= |b|
  {
    assert b == a + (b - a);
  }

  /** Reordering the axes does not change the dtypes. */
  lemma IselDtypes<D, E>(ds: Dataset<D, E>, swaps: set<Axis>)
    ensures Dtypes(Isel(ds, swaps)) == Dtypes(ds)
  {
    var s := Isel(ds, swaps);
    forall t | t in Dtypes(ds)
      ensures t in Dtypes(s)
    {
      var v :| 0 <= v < |ds.vars| && ds.vars[v].dtype == t;
      assert s.vars[v].dtype == t;
    }
    forall t | t in Dtypes(s)
      ensures t in Dtypes(ds)
    {
      var v :| 0 <= v < |s.vars| && s.vars[v].dtype == t;
      assert ds.vars[v].dtype == t;
    }
  }

  /** `regrid` fails exactly when an axis of the data or of the destination
      has fewer than two labels, or the data variables do not share a single
      dtype; an empty axis raises `IndexError`, a one-label axis
      `ZeroDivisionError`, and the dtype check an `AssertionError`. */
  lemma RegridErrors<D, E, V>(ds: Dataset<D, E>, dimx: seq<real>, dimy: seq<real>,
                                  kwargs: map<string, Kwarg<V>>,
                                  warp: (Plane<E>, map<string, Kwarg<V>>, nat, nat) -> E)
    ensures var r := RegridResult(ds, dimx, dimy, kwargs, warp);
      var axesOk := |ds.x| >= 2 && |ds.y| >= 2 && |dimx| >= 2 && |dimy| >= 2;
      && (r.Err? <==> !axesOk || |Dtypes(ds)| != 1)
      && (r.Err? && (|ds.x| == 0 || |ds.y| == 0) ==> r.error == IndexOutOfRange)
      && (r.Err? && axesOk ==> r.error == MixedDtypes)
  {
    if |ds.x| > 0 && |ds.y| > 0 {
      IselDtypes(ds, Needed(ds));
      IselPreservesShape(ds, Needed(ds));
    }
  }

  /** A successful `regrid` returns the destination axes and, per variable,
      the same dtype and leading shape, with every slice resampled to
      `len(dimy)` rows of `len(dimx)` values; conforming data gives a
      conforming result. */
  lemma RegridShape<D, E, V>(ds: Dataset<D, E>, dimx: seq<real>, dimy: seq<real>,
                                 kwargs: map<string, Kwarg<V>>,
                                 warp: (Plane<E>, map<string, Kwarg<V>>, nat, nat) -> E)
    requires RegridResult(ds, dimx, dimy, kwargs, warp).Ok?
    ensures var out := RegridResult(ds, dimx, dimy, kwargs, warp).value;
      && out.x == dimx && out.y == dimy && |out.vars| == |ds.vars|
      && (forall v :: 0 <= v < |ds.vars| ==>
            && out.vars[v].dtype == ds.vars[v].dtype
            && out.vars[v].lead == ds.vars[v].lead
            && |out.vars[v].slices| == |ds.vars[v].slices|
            && forall k :: 0 <= k < |out.vars[v].slices| ==>
                 PlaneShape(out.vars[v].slices[k], |dimy|, |dimx|))
      && (Conforms(ds) ==> Conforms(out))
  {
    IselPreservesShape(ds, Needed(ds));
  }

  /** The keyword arguments the resampler receives for a dataset with axes
      `x` and `y`: they see the axes only after the normalisation. */
  function RegridKwargs<V>(x: seq<real>, y: seq<real>, dimx: seq<real>, dimy: seq<real>,
                           kwargs: map<string, Kwarg<V>>): map<string, Kwarg<V>>
    requires |x| >= 2 && |y| >= 2 && |dimx| >= 2 && |dimy| >= 2
  {
    var nx := if x[0] > x[|x| - 1] then Reverse(x) else x;
    var ny := if y[|y| - 1] < y[0] then Reverse(y) else y;
    ReprojectArgs(kwargs, |dimy|, |dimx|, AsTransform(nx, ny).value, AsTransform(dimx, dimy).value)
  }

  /** Once the axes are normalised, slice `k` of variable `v` in the result
      is slice `k` of variable `v` of the input, resampled. */
  lemma NormalisedSlice<D, E, V>(n: Dataset<D, E>, dimx: seq<real>, dimy: seq<real>,
                                 kwargs: map<string, Kwarg<V>>,
                                 warp: (Plane<E>, map<string, Kwarg<V>>, nat, nat) -> E,
                                 v: nat, k: nat)
    requires ResampleNormalised(n, dimx, dimy, kwargs, warp).Ok?
    requires v < |n.vars| && k < |n.vars[v].slices|
    ensures |n.x| >= 2 && |n.y| >= 2 && |dimx| >= 2 && |dimy| >= 2
    ensures var out := ResampleNormalised(n, dimx, dimy, kwargs, warp).value;
      |out.vars| == |n.vars| && |out.vars[v].slices| == |n.vars[v].slices| &&
      out.vars[v].slices[k] ==
        ResamplePlane(warp, n.vars[v].slices[k],
                      ReprojectArgs(kwargs, |dimy|, |dimx|, AsTransform(n.x, n.y).value,
                                    AsTransform(dimx, dimy).value), |dimy|, |dimx|)
  {
  }

  /** Slice `k` of variable `v` in the result is the resampled slice `k` of
      variable `v` of the input, flipped along each axis that runs the wrong way. */
  lemma RegridSlice<D, E, V>(ds: Dataset<D, E>, dimx: seq<real>, dimy: seq<real>,
                             kwargs: map<string, Kwarg<V>>,
                             warp: (Plane<E>, map<string, Kwarg<V>>, nat, nat) -> E,
                             v: nat, k: nat)
    requires RegridResult(ds, dimx, dimy, kwargs, warp).Ok?
    requires v < |ds.vars| && k < |ds.vars[v].slices|
    ensures |ds.x| >= 2 && |ds.y| >= 2 && |dimx| >= 2 && |dimy| >= 2
    ensures var out := RegridResult(ds, dimx, dimy, kwargs, warp).value;
      |out.vars| == |ds.vars| && |out.vars[v].slices| == |ds.vars[v].slices| &&
      out.vars[v].slices[k] ==
        ResamplePlane(warp, FlipPlane(ds.vars[v].slices[k], ds.y[|ds.y| - 1] < ds.y[0],
                                      ds.x[0] > ds.x[|ds.x| - 1]),
                      RegridKwargs(ds.x, ds.y, dimx, dimy, kwargs), |dimy|, |dimx|)
  {
    var n := Normalise(ds);
    assert RegridResult(ds, dimx, dimy, kwargs, warp) == ResampleNormalised(n, dimx, dimy, kwargs, warp);
    NormalisedSlice(n, dimx, dimy, kwargs, warp, v, k);
    assert n.vars[v].slices[k] == FlipPlane(ds.vars[v].slices[k], ds.y[|ds.y| - 1] < ds.y[0],
                                            ds.x[0] > ds.x[|ds.x| - 1]);
  }
}
