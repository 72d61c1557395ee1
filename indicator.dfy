/** `compute_indicatormatrix`: for every destination shape (row i) and origin
    shape (column j), the share `area(dest[i] & orig[j]) / area(orig[j])`,
    written into a sparse matrix that is filled in place.

    The shapes are boxes (see Geometry). The STR-tree over `orig` is modelled
    by what its query returns: for row i, the list `query[i]` of tree
    positions, which may be any list of positions that contains every origin
    intersecting `dest[i]`. Python object identity is modelled by `ids`:
    `ids[p]` is `id(orig[p])`, and two positions with the same identity hold
    the same shape. */
module Indicator {
  import opened Wrappers
  import opened Geometry
  import Shapes

  /** A `scipy.sparse.lil_matrix` of floats: the stored entries, by position.
      Assigning 0 stores nothing (`lil_matrix` drops explicit zeros). */
  class LilMatrix {
    const nrows: nat
    const ncols: nat
    var entries: map<(nat, nat), real>

    ghost predicate Valid()
      reads this
    {
      forall p :: p in entries ==> p.0 < nrows && p.1 < ncols && entries[p] != 0.0
    }

    /** `m[i, j]`: the stored value, or 0. */
    function Get(i: nat, j: nat): real
      reads this
    {
      if (i, j) in entries then entries[(i, j)] else 0.0
    }

    /** `lil_matrix((nrows, ncols))`: all zeros. */
    constructor (nrows: nat, ncols: nat)
      ensures this.nrows == nrows && this.ncols == ncols
      ensures Valid() && entries == map[]
    {
      this.nrows := nrows;
      this.ncols := ncols;
      entries := map[];
    }

    /** `m[i, j] = v`. */
    method Set(i: nat, j: nat, v: real)
      requires Valid() && i < nrows && j < ncols
      modifies this
      ensures Valid()
      ensures entries == if v == 0.0 then old(entries) - {(i, j)} else old(entries)[(i, j) := v]
      ensures Get(i, j) == v
      ensures forall a: nat, b: nat :: (a, b) != (i, j) ==> Get(a, b) == old(Get(a, b))
    {
      if v == 0.0 {
        entries := entries - {(i, j)};
      } else {
        entries := entries[(i, j) := v];
      }
    }
  }

  // ---------------------------------------------------------------------------
  // The identity lookup `idx = dict((id(o), i) for i, o in enumerate(orig))`

  /** The last position holding identity `id`: the position the dictionary
      keeps, since a later entry overwrites an earlier one. */
  function LastIndex(ids: seq<int>, id: int): (p: nat)
    requires id in ids
    ensures p < |ids| && ids[p] == id
    ensures forall q :: p < q < |ids| ==> ids[q] != id
  {
    if ids[|ids| - 1] == id then |ids| - 1 else LastIndex(ids[..|ids| - 1], id)
  }

  /** Builds `idx` entry by entry. */
  method BuildIndex(ids: seq<int>) returns (idx: map<int, nat>)
    ensures idx.Keys == set p | 0 <= p < |ids| :: ids[p]
    ensures forall id :: id in idx ==> id in ids && idx[id] == LastIndex(ids, id)
  {
    idx := map[];
    var i := 0;
    while i < |ids|
      invariant 0 <= i <= |ids|
      invariant idx.Keys == set p | 0 <= p < i :: ids[p]
      invariant forall id :: id in idx ==> id in ids[..i] && idx[id] == LastIndex(ids[..i], id)
    {
      assert ids[..i + 1][..i] == ids[..i];
      idx := idx[ids[i] := i];
      i := i + 1;
    }
    assert ids[..|ids|] == ids;
  }

  // ---------------------------------------------------------------------------
  // What the matrix holds

  /** Equal identities mean the same object, hence the same shape. */
  ghost predicate IdentitiesConsistent(orig: seq<Rect>, ids: seq<int>)
  {
    |ids| == |orig| &&
    forall a, b :: 0 <= a < |ids| && 0 <= b < |ids| && ids[a] == ids[b] ==> orig[a] == orig[b]
  }

  ghost predicate AllWellFormed(orig: seq<Rect>)
  {
    forall j :: 0 <= j < |orig| ==> WellFormed(orig[j])
  }

  /** The tree's answers: for every row, positions into `orig` that include
      every origin intersecting that row's shape. */
  ghost predicate CandidateSuperset(query: seq<seq<nat>>, orig: seq<Rect>, rows: seq<Rect>)
  {
    && |query| == |rows|
    && (forall i, c :: 0 <= i < |rows| && 0 <= c < |query[i]| ==> query[i][c] < |orig|)
    && (forall i, j :: 0 <= i < |rows| && 0 <= j < |orig| && Intersects(orig[j], rows[i]) ==>
          j in query[i])
  }

  /** Some origin with zero area meets some destination: `area / o.area`
      then divides by zero. */
  ghost predicate ZeroAreaHit(orig: seq<Rect>, rows: seq<Rect>)
    requires AllWellFormed(orig)
  {
    exists i, j :: 0 <= i < |rows| && 0 <= j < |orig| &&
      Intersects(orig[j], rows[i]) && Area(orig[j]) == 0.0
  }

  /** Every origin that meets `d` has positive area. */
  ghost predicate PositiveWhereMet(orig: seq<Rect>, d: Rect)
    requires AllWellFormed(orig)
  {
    forall j :: 0 <= j < |orig| && Intersects(orig[j], d) ==> Area(orig[j]) > 0.0
  }

  /** The value of entry (i, j) once row `d` is done: the share of `orig[j]`
      in `d` when `orig[j]` meets `d` and `j` is the column the identity
      lookup sends `orig[j]` to, and 0 otherwise. */
  function Expected(orig: seq<Rect>, ids: seq<int>, d: Rect, j: nat): real
    requires |ids| == |orig| && AllWellFormed(orig) && PositiveWhereMet(orig, d) && j < |orig|
  {
    if LastIndex(ids, ids[j]) == j && Intersects(orig[j], d) then Share(d, orig[j]) else 0.0
  }

  /** Candidate `p` writes column `j` of row `d`. */
  predicate Writes(orig: seq<Rect>, ids: seq<int>, d: Rect, p: nat, j: nat)
    requires |ids| == |orig| && p < |orig|
  {
    LastIndex(ids, ids[p]) == j && Intersects(orig[p], d)
  }

  /** The row shapes `enumerate(dest)` walks, AS WRITTEN: iterating a dict
      yields its keys, and the first key handed to `tree.query` over a
      non-empty `orig` is not a shape. A tree over no shapes answers every
      query with nothing, so with an empty `orig` the keys are never looked
      at and the walk goes through; no column exists for them to fill. */
  function RowsAsWritten<K>(dest: Shapes.Collection<K, Rect>, orig: seq<Rect>): (r: Result<seq<Rect>>)
    ensures r.Err? <==> dest.Dict? && |dest.keys| > 0 && |orig| > 0
    ensures r.Err? ==> r.error == NotAGeometry
    ensures r.Ok? ==> |r.value| == |Shapes.Elements(dest)|
  {
    match dest
    case Dict(keys, values) => if keys == [] || orig == [] then Ok(values) else Err(NotAGeometry)
    case _ => Ok(Shapes.Elements(dest))
  }

  /** The row shapes as intended: the shapes of `dest` in its order, for every
      container kind, one per entry. */
  function Rows<K>(dest: Shapes.Collection<K, Rect>): (r: seq<Rect>)
    ensures Shapes.WellFormed(dest) ==> |r| == Shapes.Length(dest)
    ensures dest.Dict? ==> r == dest.values
    ensures !dest.Dict? ==> forall orig :: RowsAsWritten(dest, orig) == Ok(r)
  {
    Shapes.Elements(dest)
  }

  /** The destination shapes in the origin's reference system, in row order:
      `reproject_shapes(dest, dest_crs, orig_crs)` walked as intended. */
  function DestRows<K, C>(dest: Shapes.Collection<K, Rect>, origCrs: C, destCrs: C,
                          project: (C, C, Rect) -> Rect): (r: seq<Rect>)
    ensures |r| == |Shapes.Elements(dest)|
    ensures Shapes.WellFormed(dest) ==> |r| == Shapes.Length(dest)
    ensures forall i :: 0 <= i < |r| ==> r[i] == project(destCrs, origCrs, Shapes.Elements(dest)[i])
  {
    Rows(Shapes.ReprojectShapes(dest, destCrs, origCrs, project))
  }

  /** `compute_indicatormatrix(orig, dest, orig_crs, dest_crs)`. */
  method ComputeIndicatorMatrix<K, C>(orig: seq<Rect>, ids: seq<int>,
                                      dest: Shapes.Collection<K, Rect>,
                                      origCrs: C, destCrs: C,
                                      project: (C, C, Rect) -> Rect,
                                      query: seq<seq<nat>>)
    returns (res: Result<LilMatrix>)
    requires IdentitiesConsistent(orig, ids) && AllWellFormed(orig)
    requires Shapes.WellFormed(dest)
    requires CandidateSuperset(query, orig, DestRows(dest, origCrs, destCrs, project))
    ensures var rows := DestRows(dest, origCrs, destCrs, project);
      res.Err? <==> ZeroAreaHit(orig, rows)
    ensures res.Err? ==> res.error == ZeroDivision
    ensures var rows := DestRows(dest, origCrs, destCrs, project);
      res.Ok? ==>
        && fresh(res.value) && res.value.Valid()
        && res.value.nrows == Shapes.Length(dest) == |rows| && res.value.ncols == |orig|
        && (forall i :: 0 <= i < |rows| ==> PositiveWhereMet(orig, rows[i]))
        && (forall i, j :: 0 <= i < |rows| && 0 <= j < |orig| ==>
              res.value.Get(i, j) == Expected(orig, ids, rows[i], j))
  {
    var rows := DestRows(dest, origCrs, destCrs, project);
    var m := new LilMatrix(|rows|, |orig|);
    var idx := BuildIndex(ids);
    var hit := FillRows(m, rows, query, orig, ids, idx);
    if hit {
      return Err(ZeroDivision);
    }
    return Ok(m);
  }

  /** The outer loop of `compute_indicatormatrix`: the rows are filled in
      order, and the first row that meets a zero-area origin raises. */
  method FillRows(m: LilMatrix, rows: seq<Rect>, query: seq<seq<nat>>,
                  orig: seq<Rect>, ids: seq<int>, idx: map<int, nat>)
    returns (hit: bool)
    requires m.Valid() && m.nrows == |rows| && m.ncols == |orig| && m.entries == map[]
    requires IdentitiesConsistent(orig, ids) && AllWellFormed(orig)
    requires CandidateSuperset(query, orig, rows)
    requires forall p :: 0 <= p < |ids| ==> ids[p] in idx && idx[ids[p]] == LastIndex(ids, ids[p])
    modifies m
    ensures m.Valid()
    ensures hit <==> ZeroAreaHit(orig, rows)
    ensures !hit ==> forall i :: 0 <= i < |rows| ==> PositiveWhereMet(orig, rows[i])
    ensures !hit ==> forall i, j :: 0 <= i < |rows| && 0 <= j < |orig| ==>
              m.Get(i, j) == Expected(orig, ids, rows[i], j)
  {
    var i := 0;
    while i < |rows|
      invariant 0 <= i <= |rows|
      invariant m.Valid()
      invariant forall a :: 0 <= a < i ==> PositiveWhereMet(orig, rows[a])
      invariant forall a, j :: 0 <= a < i && 0 <= j < |orig| ==>
                  m.Get(a, j) == Expected(orig, ids, rows[a], j)
      invariant forall a: nat, j: nat :: i <= a ==> m.Get(a, j) == 0.0
    {
      hit := FillRow(m, i, rows[i], query[i], orig, ids, idx);
      if hit {
        RowRaises(orig, rows, i);
        return;
      }
      i := i + 1;
    }
    NoZeroAreaHit(orig, rows);
    return false;
  }

  /** The inner loop of `compute_indicatormatrix` for row `i`: every candidate
      that meets `d` has its share written into the column the identity lookup
      gives. Reports `hit` when it meets an origin of zero area, where the
      division raises and the row is abandoned. */
  method FillRow(m: LilMatrix, i: nat, d: Rect, cands: seq<nat>,
                 orig: seq<Rect>, ids: seq<int>, idx: map<int, nat>)
    returns (hit: bool)
    requires m.Valid() && i < m.nrows && m.ncols == |orig|
    requires forall j: nat :: m.Get(i, j) == 0.0
    requires IdentitiesConsistent(orig, ids) && AllWellFormed(orig)
    requires forall k :: 0 <= k < |cands| ==> cands[k] < |orig|
    requires forall j :: 0 <= j < |orig| && Intersects(orig[j], d) ==> j in cands
    requires forall p :: 0 <= p < |ids| ==> ids[p] in idx && idx[ids[p]] == LastIndex(ids, ids[p])
    modifies m
    ensures m.Valid()
    ensures hit <==> !PositiveWhereMet(orig, d)
    ensures !hit ==> forall j :: 0 <= j < |orig| ==> m.Get(i, j) == Expected(orig, ids, d, j)
    ensures forall a: nat, j: nat :: a != i ==> m.Get(a, j) == old(m.Get(a, j))
  {
    var c := 0;
    while c < |cands|
      invariant 0 <= c <= |cands|
      invariant m.Valid()
      invariant forall k :: 0 <= k < c ==>
                  Intersects(orig[cands[k]], d) ==> Area(orig[cands[k]]) > 0.0
      invariant forall j :: 0 <= j < |orig| ==> m.Get(i, j) == PartialRow(orig, ids, d, cands[..c], j)
      invariant forall a: nat, j: nat :: a != i ==> m.Get(a, j) == old(m.Get(a, j))
    {
      var p := cands[c];
      var o := orig[p];
      if Intersects(o, d) {
        var j := idx[ids[p]];
        var area := IntersectionArea(d, o);
        if Area(o) == 0.0 {
          assert !PositiveWhereMet(orig, d);
          return true;
        }
        m.Set(i, j, area / Area(o));
      }
      assert cands[..c + 1][..c] == cands[..c];
      c := c + 1;
    }
    assert cands[..c] == cands;
    RowExpected(orig, ids, d, cands);
    return false;
  }

  /** When every candidate meeting `d` has positive area, so has every origin
      meeting `d`, and the processed row holds the expected values. */
  lemma RowExpected(orig: seq<Rect>, ids: seq<int>, d: Rect, cands: seq<nat>)
    requires IdentitiesConsistent(orig, ids) && AllWellFormed(orig)
    requires forall k :: 0 <= k < |cands| ==> cands[k] < |orig|
    requires forall j :: 0 <= j < |orig| && Intersects(orig[j], d) ==> j in cands
    requires forall k :: 0 <= k < |cands| ==>
               Intersects(orig[cands[k]], d) ==> Area(orig[cands[k]]) > 0.0
    ensures PositiveWhereMet(orig, d)
    ensures forall j :: 0 <= j < |orig| ==>
              PartialRow(orig, ids, d, cands, j) == Expected(orig, ids, d, j)
  {
    forall j | 0 <= j < |orig| && Intersects(orig[j], d)
      ensures Area(orig[j]) > 0.0
    {
      var k :| 0 <= k < |cands| && cands[k] == j;
    }
    forall j | 0 <= j < |orig|
      ensures PartialRow(orig, ids, d, cands, j) == Expected(orig, ids, d, j)
    {
      RowComplete(orig, ids, d, cands, j);
    }
  }

  /** A row whose shape meets an origin of zero area makes the whole
      computation raise. */
  lemma RowRaises(orig: seq<Rect>, rows: seq<Rect>, i: nat)
    requires AllWellFormed(orig) && i < |rows| && !PositiveWhereMet(orig, rows[i])
    ensures ZeroAreaHit(orig, rows)
  {
    var j :| 0 <= j < |orig| && Intersects(orig[j], rows[i]) && !(Area(orig[j]) > 0.0);
  }

  /** Rows whose shapes meet only origins of positive area raise nothing. */
  lemma NoZeroAreaHit(orig: seq<Rect>, rows: seq<Rect>)
    requires AllWellFormed(orig)
    requires forall a :: 0 <= a < |rows| ==> PositiveWhereMet(orig, rows[a])
    ensures !ZeroAreaHit(orig, rows)
  {
  }

  /** The value of column `j` after the candidates `cands` of row `d` were
      processed in order: the last write wins. */
  function PartialRow(orig: seq<Rect>, ids: seq<int>, d: Rect, cands: seq<nat>, j: nat): real
    requires |ids| == |orig| && AllWellFormed(orig)
    requires forall c :: 0 <= c < |cands| ==> cands[c] < |orig|
    requires forall c :: 0 <= c < |cands| ==> Intersects(orig[cands[c]], d) ==> Area(orig[cands[c]]) > 0.0
  {
    if cands == [] then 0.0
    else
      var p := cands[|cands| - 1];
      if Writes(orig, ids, d, p, j) then Share(d, orig[p])
      else PartialRow(orig, ids, d, cands[..|cands| - 1], j)
  }

  // ---------------------------------------------------------------------------
  // Properties

  /** A processed candidate list holds, in each column, the share of the
      column's origin exactly when some candidate writes that column. */
  lemma {:induction false} RowAfterWrites(orig: seq<Rect>, ids: seq<int>, d: Rect,
                                          cands: seq<nat>, j: nat)
    requires IdentitiesConsistent(orig, ids) && AllWellFormed(orig) && PositiveWhereMet(orig, d)
    requires forall c :: 0 <= c < |cands| ==> cands[c] < |orig|
    requires j < |orig|
    ensures PartialRow(orig, ids, d, cands, j) ==
              if exists c :: 0 <= c < |cands| && Writes(orig, ids, d, cands[c], j)
              then Share(d, orig[j]) else 0.0
  {
    if cands != [] {
      var n := |cands| - 1;
      var p := cands[n];
      var init := cands[..n];
      RowAfterWrites(orig, ids, d, init, j);
      if Writes(orig, ids, d, p, j) {
        WriterHoldsColumnShape(orig, ids, d, p, j);
      } else {
        assert (exists c :: 0 <= c < |cands| && Writes(orig, ids, d, cands[c], j)) ==
               (exists c :: 0 <= c < |init| && Writes(orig, ids, d, init[c], j)) by {
          if exists c :: 0 <= c < |cands| && Writes(orig, ids, d, cands[c], j) {
            var c :| 0 <= c < |cands| && Writes(orig, ids, d, cands[c], j);
            assert c < n && init[c] == cands[c];
          }
          if exists c :: 0 <= c < |init| && Writes(orig, ids, d, init[c], j) {
            var c :| 0 <= c < |init| && Writes(orig, ids, d, init[c], j);
            assert cands[c] == init[c];
          }
        }
      }
    }
  }

  /** Once all of a row's candidates are processed, each entry of the row is
      the expected value, whichever candidate list the tree returned, as long
      as it contains every origin that meets the row's shape. */
  lemma RowComplete(orig: seq<Rect>, ids: seq<int>, d: Rect, cands: seq<nat>, j: nat)
    requires IdentitiesConsistent(orig, ids) && AllWellFormed(orig) && PositiveWhereMet(orig, d)
    requires forall c :: 0 <= c < |cands| ==> cands[c] < |orig|
    requires forall j' :: 0 <= j' < |orig| && Intersects(orig[j'], d) ==> j' in cands
    requires j < |orig|
    ensures PartialRow(orig, ids, d, cands, j) == Expected(orig, ids, d, j)
  {
    RowAfterWrites(orig, ids, d, cands, j);
    if LastIndex(ids, ids[j]) == j && Intersects(orig[j], d) {
      var c :| 0 <= c < |cands| && cands[c] == j;
      assert Writes(orig, ids, d, cands[c], j);
    } else {
      forall c | 0 <= c < |cands|
        ensures !Writes(orig, ids, d, cands[c], j)
      {
        WriterHoldsColumnShape(orig, ids, d, cands[c], j);
      }
    }
  }

  /** A candidate writing column `j` is the same object as `orig[j]`, and `j`
      is the column the identity lookup gives for it. */
  lemma WriterHoldsColumnShape(orig: seq<Rect>, ids: seq<int>, d: Rect, p: nat, j: nat)
    requires IdentitiesConsistent(orig, ids) && p < |orig| && j < |orig|
    ensures Writes(orig, ids, d, p, j) ==>
              LastIndex(ids, ids[j]) == j && orig[p] == orig[j] && Intersects(orig[j], d)
  {
    if Writes(orig, ids, d, p, j) {
      assert ids[p] == ids[j];
    }
  }

  /** Every entry of the matrix lies in [0, 1]. */
  lemma ExpectedInUnitInterval(orig: seq<Rect>, ids: seq<int>, d: Rect, j: nat)
    requires |ids| == |orig| && AllWellFormed(orig) && PositiveWhereMet(orig, d) && j < |orig|
    ensures 0.0 <= Expected(orig, ids, d, j) <= 1.0
  {
    if LastIndex(ids, ids[j]) == j && Intersects(orig[j], d) {
      ShareInUnitInterval(d, orig[j]);
    }
  }

  /** A column whose origin does not meet the row's shape stays empty. */
  lemma ExpectedDisjointZero(orig: seq<Rect>, ids: seq<int>, d: Rect, j: nat)
    requires |ids| == |orig| && AllWellFormed(orig) && PositiveWhereMet(orig, d) && j < |orig|
    requires !Intersects(orig[j], d)
    ensures Expected(orig, ids, d, j) == 0.0
  {}

  /** With distinct origin objects, an origin lying entirely in the row's shape
      gets the value 1, and one meeting it gets its share of its own area. */
  lemma ExpectedDistinct(orig: seq<Rect>, ids: seq<int>, d: Rect, j: nat)
    requires |ids| == |orig| && AllWellFormed(orig) && PositiveWhereMet(orig, d) && j < |orig|
    requires forall a, b :: 0 <= a < b < |ids| ==> ids[a] != ids[b]
    ensures Intersects(orig[j], d) ==>
              Expected(orig, ids, d, j) == IntersectionArea(d, orig[j]) / Area(orig[j])
    ensures Within(orig[j], d) ==> Expected(orig, ids, d, j) == 1.0
  {
    assert LastIndex(ids, ids[j]) == j;
    if Within(orig[j], d) {
      assert Intersects(orig[j], d);
      ShareOfContainedIsOne(d, orig[j]);
    }
  }

  /** An entry is 1 exactly when its origin lies entirely in the row's shape
      and its column is the one the identity lookup sends that origin to;
      no assumption on distinct objects is needed. */
  lemma ExpectedOneIffWithin(orig: seq<Rect>, ids: seq<int>, d: Rect, j: nat)
    requires |ids| == |orig| && AllWellFormed(orig) && PositiveWhereMet(orig, d) && j < |orig|
    ensures Expected(orig, ids, d, j) == 1.0 <==>
              LastIndex(ids, ids[j]) == j && Within(orig[j], d)
  {
    if Expected(orig, ids, d, j) == 1.0 {
      ShareOneIsWithin(d, orig[j]);
    }
    if LastIndex(ids, ids[j]) == j && Within(orig[j], d) {
      assert Intersects(orig[j], d);
      ShareOfContainedIsOne(d, orig[j]);
    }
  }

  /** A second occurrence of the same object leaves its earlier column empty:
      the identity lookup sends both to the last position. */
  lemma ExpectedDuplicateEarlierEmpty(orig: seq<Rect>, ids: seq<int>, d: Rect, p: nat, q: nat)
    requires |ids| == |orig| && AllWellFormed(orig) && PositiveWhereMet(orig, d)
    requires p < q < |orig| && ids[p] == ids[q]
    ensures Expected(orig, ids, d, p) == 0.0
  {
    assert LastIndex(ids, ids[p]) != p;
  }

  /** Three unit squares tiling [0,3] x [0,1], each its own object. */
  function UnitSquares(): seq<Rect>
  {
    [Rect(0.0, 0.0, 1.0, 1.0), Rect(1.0, 0.0, 2.0, 1.0), Rect(2.0, 0.0, 3.0, 1.0)]
  }

  /** Three unit squares tiling [0,3] x [0,1] and a row shape [a, a+2] x [0,1]
      sliding across them: the row is 1-a, 1, a (so 0.5, 1.0, 0.5 for
      a = 0.5). */
  lemma SlidingUnitSquaresRow(a: real, ids: seq<int>)
    requires 0.0 <= a <= 1.0
    requires |ids| == 3 && ids[0] != ids[1] && ids[0] != ids[2] && ids[1] != ids[2]
    ensures var d := Rect(a, 0.0, a + 2.0, 1.0);
      && AllWellFormed(UnitSquares()) && PositiveWhereMet(UnitSquares(), d)
      && Expected(UnitSquares(), ids, d, 0) == 1.0 - a
      && Expected(UnitSquares(), ids, d, 1) == 1.0
      && Expected(UnitSquares(), ids, d, 2) == a
  {
    UnitSquaresAreas();
    SlidingWidths(a);
    SlidingColumn(a, ids, 0);
    SlidingColumn(a, ids, 1);
    SlidingColumn(a, ids, 2);
  }

  /** Column `j` of the sliding row holds the width of the overlap of
      [a, a+2] with [j, j+1]. */
  lemma SlidingColumn(a: real, ids: seq<int>, j: nat)
    requires |ids| == 3 && ids[0] != ids[1] && ids[0] != ids[2] && ids[1] != ids[2]
    requires j < 3
    requires AllWellFormed(UnitSquares()) && PositiveWhereMet(UnitSquares(), Rect(a, 0.0, a + 2.0, 1.0))
    ensures Expected(UnitSquares(), ids, Rect(a, 0.0, a + 2.0, 1.0), j) ==
              Max(0.0, Overlap(a, a + 2.0, j as real, j as real + 1.0))
  {
    var d := Rect(a, 0.0, a + 2.0, 1.0);
    var orig := UnitSquares();
    OwnLastIndex(ids);
    var o := orig[j];
    assert o == Rect(j as real, 0.0, j as real + 1.0, 1.0);
    UnitSquareArea(o);
    UnitStripArea(d, o);
    ColumnOverUnit(orig, ids, d, j);
    calc {
      Expected(orig, ids, d, j);
      IntersectionArea(d, o);
      Max(0.0, Overlap(d.minx, d.maxx, o.minx, o.maxx));
      { assert o.minx == j as real && o.maxx == j as real + 1.0; }
      Max(0.0, Overlap(a, a + 2.0, j as real, j as real + 1.0));
    }
  }

  lemma SlidingWidths(a: real)
    requires 0.0 <= a <= 1.0
    ensures Max(0.0, Overlap(a, a + 2.0, 0.0, 1.0)) == 1.0 - a
    ensures Max(0.0, Overlap(a, a + 2.0, 1.0, 2.0)) == 1.0
    ensures Max(0.0, Overlap(a, a + 2.0, 2.0, 3.0)) == a
  {}

  /** Boxes spanning the same unit height share the width of their overlap. */
  lemma UnitStripArea(d: Rect, o: Rect)
    requires d.miny == o.miny == 0.0 && d.maxy == o.maxy == 1.0
    ensures IntersectionArea(d, o) == Max(0.0, Overlap(d.minx, d.maxx, o.minx, o.maxx))
  {
    assert Max(0.0, Overlap(d.miny, d.maxy, o.miny, o.maxy)) == 1.0;
  }

  /** An own column over an origin of unit area holds the common area. */
  lemma ColumnOverUnit(orig: seq<Rect>, ids: seq<int>, d: Rect, j: nat)
    requires |ids| == |orig| && AllWellFormed(orig) && PositiveWhereMet(orig, d) && j < |orig|
    requires LastIndex(ids, ids[j]) == j && Area(orig[j]) == 1.0
    ensures Expected(orig, ids, d, j) == IntersectionArea(d, orig[j])
  {
    if Intersects(orig[j], d) {
      ShareOverUnit(d, orig[j]);
    } else {
      DisjointNoArea(d, orig[j]);
      IntersectsSymmetric(d, orig[j]);
    }
  }

  lemma UnitSquaresAreas()
    ensures AllWellFormed(UnitSquares())
    ensures forall j :: 0 <= j < 3 ==> Area(UnitSquares()[j]) == 1.0
  {
    forall j | 0 <= j < 3
      ensures Area(UnitSquares()[j]) == 1.0
    {
      UnitSquareArea(UnitSquares()[j]);
    }
  }

  /** With distinct identities every position is its own last occurrence. */
  lemma OwnLastIndex(ids: seq<int>)
    requires forall a, b :: 0 <= a < b < |ids| ==> ids[a] != ids[b]
    ensures forall p :: 0 <= p < |ids| ==> LastIndex(ids, ids[p]) == p
  {
    forall p | 0 <= p < |ids|
      ensures LastIndex(ids, ids[p]) == p
    {
      assert ids[p] in ids;
    }
  }

  lemma UnitSquareArea(o: Rect)
    requires o.maxx == o.minx + 1.0 && o.maxy == o.miny + 1.0
    ensures WellFormed(o) && Area(o) == 1.0
  {}

  lemma ShareOverUnit(d: Rect, o: Rect)
    requires WellFormed(o) && Area(o) == 1.0
    ensures Share(d, o) == IntersectionArea(d, o)
  {}

  /** The discrepancy in the row walk: for a dictionary of shapes and a
      non-empty `orig` the code as written hands a key to the spatial index,
      while the intended walk visits the dictionary's shape. */
  lemma DictRowsDiffer<K>(k: K, r: Rect, orig: seq<Rect>)
    requires |orig| > 0
    ensures RowsAsWritten(Shapes.Dict([k], [r]), orig).Err?
    ensures Rows(Shapes.Dict([k], [r])) == [r]
  {}
}
