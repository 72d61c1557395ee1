/** Axis-aligned rectangles with real coordinates: the geometry the indicator
    matrix is computed over. A grid cell is such a box, and for boxes the
    shapely predicates used by `compute_indicatormatrix` (`intersects`,
    `intersection(...).area`, `area`) and the STR-tree's bounding-box test
    have exact closed forms. */
module Geometry {

  /** A closed box `[minx, maxx] x [miny, maxy]` (shapely's `box`). */
  datatype Rect = Rect(minx: real, miny: real, maxx: real, maxy: real)

  predicate WellFormed(r: Rect)
  {
    r.minx <= r.maxx && r.miny <= r.maxy
  }

  function Max(a: real, b: real): real { if a < b then b else a }
  function Min(a: real, b: real): real { if a < b then a else b }

  /** `r.area`. */
  function Area(r: Rect): (a: real)
    requires WellFormed(r)
    ensures a >= 0.0
    ensures a == 0.0 <==> r.minx == r.maxx || r.miny == r.maxy
  {
    NonNegProduct(r.maxx - r.minx, r.maxy - r.miny);
    (r.maxx - r.minx) * (r.maxy - r.miny)
  }

  /** Signed overlap of the two intervals `[lo1, hi1]` and `[lo2, hi2]`:
      negative when they are apart. */
  function Overlap(lo1: real, hi1: real, lo2: real, hi2: real): real
  {
    Min(hi1, hi2) - Max(lo1, lo2)
  }

  /** `a.intersects(b)`: the closed boxes share at least one point (touching
      boundaries count). For boxes this is also the STR-tree's envelope test. */
  predicate Intersects(a: Rect, b: Rect)
  {
    Overlap(a.minx, a.maxx, b.minx, b.maxx) >= 0.0 &&
    Overlap(a.miny, a.maxy, b.miny, b.maxy) >= 0.0
  }

  /** `a.intersection(b).area`: the product of the clamped overlaps. */
  function IntersectionArea(a: Rect, b: Rect): (r: real)
    ensures r >= 0.0
  {
    var w := Max(0.0, Overlap(a.minx, a.maxx, b.minx, b.maxx));
    var h := Max(0.0, Overlap(a.miny, a.maxy, b.miny, b.maxy));
    NonNegProduct(w, h);
    w * h
  }

  /** `inner.within(outer)`: every point of `inner` lies in `outer`. */
  predicate Within(inner: Rect, outer: Rect)
  {
    outer.minx <= inner.minx && inner.maxx <= outer.maxx &&
    outer.miny <= inner.miny && inner.maxy <= outer.maxy
  }

  /** The indicator value of `compute_indicatormatrix`: the share of the
      origin's area that lies in the destination, `area(d & o) / area(o)`. */
  function Share(d: Rect, o: Rect): real
    requires WellFormed(o) && Area(o) > 0.0
  {
    IntersectionArea(d, o) / Area(o)
  }

  // ---------------------------------------------------------------------------
  // Arithmetic helpers

  lemma NonNegProduct(a: real, b: real)
    requires a >= 0.0 && b >= 0.0
    ensures a * b >= 0.0
    ensures a * b == 0.0 <==> a == 0.0 || b == 0.0
  {}

  lemma ProductMono(a: real, b: real, c: real, d: real)
    requires 0.0 <= a <= c && 0.0 <= b <= d
    ensures a * b <= c * d
  {
    assert a * b <= c * b;
    assert c * b <= c * d;
  }

  // ---------------------------------------------------------------------------
  // Properties

  /** Intersection is symmetric, so `o.intersects(d)` and `d.intersects(o)`
      agree, and so do the two intersection areas. */
  lemma IntersectsSymmetric(a: Rect, b: Rect)
    ensures Intersects(a, b) <==> Intersects(b, a)
    ensures IntersectionArea(a, b) == IntersectionArea(b, a)
  {
    assert Overlap(a.minx, a.maxx, b.minx, b.maxx) == Overlap(b.minx, b.maxx, a.minx, a.maxx);
    assert Overlap(a.miny, a.maxy, b.miny, b.maxy) == Overlap(b.miny, b.maxy, a.miny, a.maxy);
  }

  /** Boxes that do not intersect have no common area. */
  lemma DisjointNoArea(a: Rect, b: Rect)
    requires !Intersects(a, b)
    ensures IntersectionArea(a, b) == 0.0
  {}

  /** The common area never exceeds the area of either box. */
  lemma IntersectionAreaBounded(d: Rect, o: Rect)
    requires WellFormed(o)
    ensures IntersectionArea(d, o) <= Area(o)
    ensures WellFormed(d) ==> IntersectionArea(d, o) <= Area(d)
  {
    var w := Max(0.0, Overlap(d.minx, d.maxx, o.minx, o.maxx));
    var h := Max(0.0, Overlap(d.miny, d.maxy, o.miny, o.maxy));
    ProductMono(w, h, o.maxx - o.minx, o.maxy - o.miny);
    if WellFormed(d) {
      ProductMono(w, h, d.maxx - d.minx, d.maxy - d.miny);
    }
  }

  /** An origin box lying inside the destination has all of its area there. */
  lemma WithinFullArea(o: Rect, d: Rect)
    requires WellFormed(o) && Within(o, d)
    ensures IntersectionArea(d, o) == Area(o)
  {
    assert Overlap(d.minx, d.maxx, o.minx, o.maxx) == o.maxx - o.minx;
    assert Overlap(d.miny, d.maxy, o.miny, o.maxy) == o.maxy - o.miny;
  }

  /** Every indicator value lies in [0, 1]. */
  lemma ShareInUnitInterval(d: Rect, o: Rect)
    requires WellFormed(o) && Area(o) > 0.0
    ensures 0.0 <= Share(d, o) <= 1.0
  {
    IntersectionAreaBounded(d, o);
    DivideBounded(IntersectionArea(d, o), Area(o));
  }

  lemma DivideBounded(x: real, y: real)
    requires 0.0 <= x <= y && y > 0.0
    ensures 0.0 <= x / y <= 1.0
  {
    var q := x / y;
    assert q * y == x;
    if q > 1.0 {
      StrictScale(1.0, q, y);
      assert false;
    }
    if q < 0.0 {
      StrictScale(q, 0.0, y);
      assert false;
    }
  }

  lemma StrictScale(a: real, b: real, s: real)
    requires a < b && s > 0.0
    ensures a * s < b * s
  {}

  /** An origin lying entirely in the destination gets the indicator value 1. */
  lemma ShareOfContainedIsOne(d: Rect, o: Rect)
    requires WellFormed(o) && Area(o) > 0.0 && Within(o, d)
    ensures Share(d, o) == 1.0
  {
    WithinFullArea(o, d);
    SelfQuotient(IntersectionArea(d, o), Area(o));
  }

  /** Conversely, the indicator value 1 means the origin lies entirely in the
      destination: a box of positive area keeps all of its area in common
      with `d` only when it lies within `d`. */
  lemma ShareOneIsWithin(d: Rect, o: Rect)
    requires WellFormed(o) && Area(o) > 0.0 && Share(d, o) == 1.0
    ensures Within(o, d)
  {
    var bigW, bigH := o.maxx - o.minx, o.maxy - o.miny;
    var w := Max(0.0, Overlap(d.minx, d.maxx, o.minx, o.maxx));
    var h := Max(0.0, Overlap(d.miny, d.maxy, o.miny, o.maxy));
    assert IntersectionArea(d, o) == Area(o) by {
      QuotientOne(IntersectionArea(d, o), Area(o));
    }
    assert bigW > 0.0 && bigH > 0.0;
    assert 0.0 <= w <= bigW && 0.0 <= h <= bigH;
    assert w * h == bigW * bigH;
    if w < bigW {
      ProductMono(w, h, w, bigH);
      StrictScale(w, bigW, bigH);
      assert false;
    }
  }

  /** A quotient of 1 means equal numerator and denominator. */
  lemma QuotientOne(x: real, y: real)
    requires y != 0.0 && x / y == 1.0
    ensures x == y
  {
    assert x == (x / y) * y;
  }

  lemma SelfQuotient(x: real, y: real)
    requires x == y && y != 0.0
    ensures x / y == 1.0
  {}

  /** A destination lying inside the origin gets its own area's share of the
      origin, so the value is 1 only when the two boxes have the same area. */
  lemma ShareOfContainingOrigin(d: Rect, o: Rect)
    requires WellFormed(d) && WellFormed(o) && Area(o) > 0.0 && Within(d, o)
    ensures Share(d, o) == Area(d) / Area(o)
  {
    WithinFullArea(d, o);
    IntersectsSymmetric(d, o);
  }
}
