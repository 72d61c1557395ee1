/** Grid construction of `get_coords`: each pair of user bounds is sorted, a fixed
    global lattice `-180 + k*dx` (and `-90 + k*dy`) is laid as `numpy.arange` lays
    it, and the lattice points inside the inclusive bounds are kept, as a
    label-based `sel(x=slice(lo, hi))` on an ascending index keeps them.
    Coordinates are reals, not floating-point numbers. */
module Coords {
  import opened Wrappers

  /** The canonical global domain the lattice is laid over. */
  const LonStart: real := -180.0
  const LonStop: real := 180.0
  const LatStart: real := -90.0
  const LatStop: real := 90.0

  /** A Python `slice(start, stop)` of coordinate labels, in either order. */
  datatype Bounds = Bounds(start: real, stop: real)

  /** The spatial coordinate axes of the dataset `get_coords` returns. */
  datatype Grid = Grid(x: seq<real>, y: seq<real>)

  /** `slice(*sorted([b.start, b.stop]))`. */
  function SortBounds(b: Bounds): (r: Bounds)
    ensures r.start <= r.stop
    ensures r.start == (if b.start <= b.stop then b.start else b.stop)
    ensures r.stop == (if b.start <= b.stop then b.stop else b.start)
  {
    if b.stop < b.start then Bounds(b.stop, b.start) else b
  }

  /** The least integer not below `q`. */
  function Ceil(q: real): (n: int)
    ensures q <= n as real < q + 1.0
  {
    -((-q).Floor)
  }

  /** The k-th point of the lattice with origin `origin` and spacing `step`. */
  function LatticeAt(origin: real, step: real, k: nat): real
  {
    origin + k as real * step
  }

  /** `v` is a point of the lattice `origin + k*step`. */
  ghost predicate OnLattice(v: real, origin: real, step: real)
  {
    exists k: nat :: v == LatticeAt(origin, step, k)
  }

  /** The number of elements of `numpy.arange(start, stop, step)`:
      `ceil((stop - start) / step)`, and none when that is not positive. */
  function ArangeLength(start: real, stop: real, step: real): (n: nat)
    requires step != 0.0
    ensures step > 0.0 ==> stop - start <= (n as real) * step
    ensures step > 0.0 && n > 0 ==> ((n - 1) as real) * step < stop - start
    ensures step > 0.0 && stop <= start ==> n == 0
    ensures step < 0.0 && start <= stop ==> n == 0
  {
    var c := Ceil((stop - start) / step);
    if c <= 0 then
      0
    else
      CeilScaled(start, stop, step);
      c
  }

  lemma MulStrict(a: real, b: real, s: real)
    requires s > 0.0 && a < b
    ensures a * s < b * s
  {}

  lemma MulWeak(a: real, b: real, s: real)
    requires s > 0.0 && a <= b
    ensures a * s <= b * s
  {}

  /** The ceiling of `(stop - start) / step`, scaled back by the step. */
  lemma CeilScaled(start: real, stop: real, step: real)
    requires step != 0.0
    ensures var c := Ceil((stop - start) / step);
      && (step > 0.0 ==> stop - start <= (c as real) * step)
      && (step > 0.0 ==> ((c - 1) as real) * step < stop - start)
      && (step > 0.0 && c > 0 ==> start < stop)
      && (step < 0.0 && c > 0 ==> stop < start)
  {
    var q := (stop - start) / step;
    var c := Ceil(q);
    if step > 0.0 {
      CeilScaledUp(start, stop, step);
      if c > 0 {
        PositiveSpan(start, stop, step, c);
      }
    } else if c > 0 {
      assert q * step == stop - start;
      assert q > 0.0;
    }
  }

  lemma CeilScaledUp(start: real, stop: real, step: real)
    requires step > 0.0
    ensures var c := Ceil((stop - start) / step);
      && stop - start <= (c as real) * step
      && ((c - 1) as real) * step < stop - start
  {
    CeilCovers(start, stop, step);
    CeilLessOneBelow(start, stop, step);
  }

  lemma CeilCovers(start: real, stop: real, step: real)
    requires step > 0.0
    ensures stop - start <= (Ceil((stop - start) / step) as real) * step
  {
    var q := (stop - start) / step;
    ScaledBack(stop - start, step);
    MulWeak(q, Ceil(q) as real, step);
  }

  lemma CeilLessOneBelow(start: real, stop: real, step: real)
    requires step > 0.0
    ensures ((Ceil((stop - start) / step) - 1) as real) * step < stop - start
  {
    var q := (stop - start) / step;
    ScaledBack(stop - start, step);
    MulStrict((Ceil(q) - 1) as real, q, step);
  }

  lemma ScaledBack(d: real, step: real)
    requires step != 0.0
    ensures (d / step) * step == d
  {}

  lemma PositiveSpan(start: real, stop: real, step: real, c: int)
    requires step > 0.0 && c > 0
    requires ((c - 1) as real) * step < stop - start
    ensures start < stop
  {
    MulWeak(0.0, (c - 1) as real, step);
  }

  /** `numpy.arange(start, stop, step)` over the reals. */
  function Arange(start: real, stop: real, step: real): (r: seq<real>)
    requires step != 0.0
    ensures |r| == ArangeLength(start, stop, step)
    ensures forall k :: 0 <= k < |r| ==> r[k] == LatticeAt(start, step, k)
  {
    seq(ArangeLength(start, stop, step), k requires 0 <= k => LatticeAt(start, step, k))
  }

  /** Strictly increasing, as a positive-step lattice is. */
  ghost predicate Increasing(s: seq<real>)
  {
    forall i, j :: 0 <= i < j < |s| ==> s[i] < s[j]
  }

  /** Consecutive values differ by exactly `step`. */
  ghost predicate EvenlySpaced(s: seq<real>, step: real)
  {
    forall i :: 0 <= i < |s| - 1 ==> s[i + 1] - s[i] == step
  }

  /** Index of the first element not below `lo` in an ascending sequence
      (`searchsorted(lo, side='left')`). */
  function SearchLeft(s: seq<real>, lo: real): (i: nat)
    ensures i <= |s|
    ensures forall k :: 0 <= k < i ==> s[k] < lo
    ensures i < |s| ==> lo <= s[i]
  {
    if s == [] || lo <= s[0] then 0 else 1 + SearchLeft(s[1..], lo)
  }

  /** Index just past the last element not above `hi` in an ascending sequence
      (`searchsorted(hi, side='right')`). */
  function SearchRight(s: seq<real>, hi: real): (j: nat)
    ensures j <= |s|
    ensures forall k :: 0 <= k < j ==> s[k] <= hi
    ensures j < |s| ==> hi < s[j]
  {
    if s == [] || hi < s[0] then 0 else 1 + SearchRight(s[1..], hi)
  }

  /** Label-based inclusive selection `sel(x=slice(lo, hi))` on an ascending
      index: the contiguous block between the two search positions. */
  function Select(s: seq<real>, lo: real, hi: real): (r: seq<real>)
    ensures |r| <= |s|
    ensures forall v :: v in r ==> v in s
    ensures forall k :: 0 <= k < |r| ==> r[k] <= hi
    ensures |r| > 0 ==> lo <= r[0]
  {
    var i := SearchLeft(s, lo);
    var j := SearchRight(s, hi);
    if i <= j then s[i..j] else []
  }

  /** `get_coords` restricted to its spatial axes. */
  function GetCoords(x: Bounds, y: Bounds, dx: real, dy: real): (r: Result<Grid>)
    ensures r.Err? <==> dx == 0.0 || dy == 0.0
  {
    if dx == 0.0 || dy == 0.0 then Err(ZeroStep)
    else
      var xs := SortBounds(x);
      var ys := SortBounds(y);
      Ok(Grid(Select(Arange(LonStart, LonStop, dx), xs.start, xs.stop),
              Select(Arange(LatStart, LatStop, dy), ys.start, ys.stop)))
  }

  // ---------------------------------------------------------------------------
  // Properties

  lemma ArangeIncreasing(start: real, stop: real, step: real)
    requires step > 0.0
    ensures Increasing(Arange(start, stop, step))
    ensures EvenlySpaced(Arange(start, stop, step), step)
  {
    var a := Arange(start, stop, step);
    forall i, j | 0 <= i < j < |a| ensures a[i] < a[j] {
      LatticeStrict(start, step, i, j);
    }
    forall i | 0 <= i < |a| - 1 ensures a[i + 1] - a[i] == step {
      LatticeNext(start, step, i);
    }
  }

  lemma LatticeStrict(origin: real, step: real, i: nat, j: nat)
    requires step > 0.0 && i < j
    ensures LatticeAt(origin, step, i) < LatticeAt(origin, step, j)
  {
    MulStrict(i as real, j as real, step);
  }

  lemma LatticeNext(origin: real, step: real, k: nat)
    ensures LatticeAt(origin, step, k + 1) == LatticeAt(origin, step, k) + step
  {}

  /** A point is in `arange(start, stop, step)` exactly when it lies in
      `[start, stop)` and on the lattice. */
  lemma ArangeMembers(start: real, stop: real, step: real, v: real)
    requires step > 0.0
    ensures v in Arange(start, stop, step) <==>
              start <= v < stop && OnLattice(v, start, step)
  {
    var a := Arange(start, stop, step);
    var n := ArangeLength(start, stop, step);
    if v in a {
      var k :| 0 <= k < |a| && a[k] == v;
      LatticeBelow(start, stop, step, k, n);
    }
    if start <= v < stop && OnLattice(v, start, step) {
      var k: nat :| v == LatticeAt(start, step, k);
      LatticeBelow(start, stop, step, k, n);
      assert a[k] == v;
    }
  }

  /** Lattice index `k` is below the length `n` of a positive-step arange
      exactly when its point lies below the stop. */
  lemma LatticeBelow(start: real, stop: real, step: real, k: nat, n: nat)
    requires step > 0.0 && n == ArangeLength(start, stop, step)
    ensures k < n <==> LatticeAt(start, step, k) < stop
  {
    if k < n {
      BelowLength(start, stop, step, k, n);
    } else {
      AtOrPastLength(start, stop, step, k, n);
    }
  }

  lemma BelowLength(start: real, stop: real, step: real, k: nat, n: nat)
    requires step > 0.0 && k < n
    requires ((n - 1) as real) * step < stop - start
    ensures start + k as real * step < stop
  {
    MulWeak(k as real, (n - 1) as real, step);
  }

  lemma AtOrPastLength(start: real, stop: real, step: real, k: nat, n: nat)
    requires step > 0.0 && n <= k
    requires stop - start <= (n as real) * step
    ensures stop <= start + k as real * step
  {
    MulWeak(n as real, k as real, step);
  }

  /** On an ascending sequence the selection keeps exactly the elements in
      `[lo, hi]`, in their order, as one contiguous block. */
  lemma SelectMembers(s: seq<real>, lo: real, hi: real, v: real)
    requires Increasing(s)
    ensures v in Select(s, lo, hi) <==> v in s && lo <= v <= hi
  {
    var i := SearchLeft(s, lo);
    var j := SearchRight(s, hi);
    if v in s && lo <= v <= hi {
      var k :| 0 <= k < |s| && s[k] == v;
      if j < |s| { assert hi < s[j]; }
      assert i <= k < j;
      assert s[i..j][k - i] == v;
    }
    if v in Select(s, lo, hi) {
      assert i <= j;
      var k :| 0 <= k < j - i && s[i..j][k] == v;
      assert s[i + k] == v;
      assert i + k < |s| ==> lo <= s[i] && (k > 0 ==> s[i] < s[i + k]);
    }
  }

  /** A selection from an evenly spaced sequence is evenly spaced. */
  lemma SelectSpaced(s: seq<real>, lo: real, hi: real, step: real)
    requires EvenlySpaced(s, step)
    ensures EvenlySpaced(Select(s, lo, hi), step)
  {
    var i := SearchLeft(s, lo);
    var j := SearchRight(s, hi);
    if i <= j {
      var r := s[i..j];
      forall k | 0 <= k < |r| - 1 ensures r[k + 1] - r[k] == step {
        assert r[k] == s[i + k] && r[k + 1] == s[i + k + 1];
      }
    }
  }

  /** What one axis of `get_coords` holds: the lattice points of
      `[origin, stop)` inside `[lo, hi]`, all of them, evenly spaced by `step`. */
  lemma {:induction false} AxisSelection(origin: real, stop: real, step: real, lo: real, hi: real)
    requires step > 0.0
    ensures var r := Select(Arange(origin, stop, step), lo, hi);
      && EvenlySpaced(r, step)
      && (forall v :: v in r <==> lo <= v <= hi && origin <= v < stop && OnLattice(v, origin, step))
  {
    var a := Arange(origin, stop, step);
    ArangeIncreasing(origin, stop, step);
    SelectSpaced(a, lo, hi, step);
    forall v ensures v in Select(a, lo, hi) <==> lo <= v <= hi && origin <= v < stop && OnLattice(v, origin, step) {
      SelectMembers(a, lo, hi, v);
      ArangeMembers(origin, stop, step, v);
    }
  }

  /** The grid `get_coords` builds, for positive steps: every x lies within the
      sorted bounds and in [-180, 180) and is a point `-180 + k*dx`, every such
      point within the bounds is selected, and neighbours are `dx` apart; the
      same holds for y with -90, 90 and `dy`. */
  lemma GetCoordsGrid(x: Bounds, y: Bounds, dx: real, dy: real)
    requires dx > 0.0 && dy > 0.0
    ensures GetCoords(x, y, dx, dy).Ok?
    ensures var g := GetCoords(x, y, dx, dy).value;
      var xs := SortBounds(x);
      var ys := SortBounds(y);
      && EvenlySpaced(g.x, dx) && EvenlySpaced(g.y, dy)
      && (forall v :: v in g.x <==>
            xs.start <= v <= xs.stop && LonStart <= v < LonStop && OnLattice(v, LonStart, dx))
      && (forall v :: v in g.y <==>
            ys.start <= v <= ys.stop && LatStart <= v < LatStop && OnLattice(v, LatStart, dy))
  {
    var xs := SortBounds(x);
    var ys := SortBounds(y);
    AxisSelection(LonStart, LonStop, dx, xs.start, xs.stop);
    AxisSelection(LatStart, LatStop, dy, ys.start, ys.stop);
  }

  /** The order in which either pair of bounds is given does not matter. */
  lemma GetCoordsBoundOrder(x: Bounds, y: Bounds, dx: real, dy: real)
    ensures GetCoords(Bounds(x.stop, x.start), y, dx, dy) == GetCoords(x, y, dx, dy)
    ensures GetCoords(x, Bounds(y.stop, y.start), dx, dy) == GetCoords(x, y, dx, dy)
  {
    assert SortBounds(Bounds(x.stop, x.start)) == SortBounds(x);
    assert SortBounds(Bounds(y.stop, y.start)) == SortBounds(y);
  }
}
