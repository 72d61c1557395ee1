/** `reproject_shapes` and its deprecated alias `reproject`: one coordinate
    transform, built once for the pair of reference systems, applied to every
    shape of a collection, with the container kind kept. The transform itself
    (pyproj's `Transformer` driven through shapely's `transform`) is the
    parameter `project`, an arbitrary function of the two reference systems
    and the shape. */
module Shapes {
  import opened Wrappers

  /** The container kinds `reproject_shapes` tells apart. */
  datatype Collection<K, S> =
    | Series(index: seq<K>, values: seq<S>)  // a pandas Series (a GeoSeries too)
    | Dict(keys: seq<K>, values: seq<S>)     // a dict, entries in insertion order
    | List(items: seq<S>)                    // a Python list
    | Iterable(items: seq<S>)                // any other iterable (tuple, generator, ...)

  /** Index and values line up, and dictionary keys are unique. */
  predicate WellFormed<K(==), S>(c: Collection<K, S>)
  {
    match c
    case Series(index, values) => |index| == |values|
    case Dict(keys, values) =>
      |keys| == |values| && forall a, b :: 0 <= a < b < |keys| ==> keys[a] != keys[b]
    case List(_) => true
    case Iterable(_) => true
  }

  /** The shapes held, in the container's order. */
  function Elements<K, S>(c: Collection<K, S>): seq<S>
  {
    match c
    case Series(_, values) => values
    case Dict(_, values) => values
    case List(items) => items
    case Iterable(items) => items
  }

  /** `len(c)`. */
  function Length<K, S>(c: Collection<K, S>): nat
  {
    match c
    case Series(index, _) => |index|
    case Dict(keys, _) => |keys|
    case List(items) => |items|
    case Iterable(items) => |items|
  }

  /** `shapes[k]` of a dictionary: the value stored under key `k`. */
  function Lookup<K(==), S>(keys: seq<K>, values: seq<S>, k: K): Option<S>
    requires |keys| == |values|
  {
    if keys == [] then None
    else if keys[0] == k then Some(values[0])
    else Lookup(keys[1..], values[1..], k)
  }

  /** Apply `f` to every shape: `map(f, items)`. */
  function MapShapes<S>(items: seq<S>, f: S -> S): (r: seq<S>)
    ensures |r| == |items|
    ensures forall i :: 0 <= i < |items| ==> r[i] == f(items[i])
  {
    seq(|items|, i requires 0 <= i < |items| => f(items[i]))
  }

  /** `reproject_shapes(shapes, crs1, crs2)`: Series -> `Series.map`, dict ->
      `OrderedDict` with the same keys in the same order, anything else -> list. */
  function ReprojectShapes<K, S, C>(shapes: Collection<K, S>, crs1: C, crs2: C,
                                    project: (C, C, S) -> S): (r: Collection<K, S>)
    ensures Length(r) == Length(shapes)
    ensures r.Series? <==> shapes.Series?
    ensures r.Dict? <==> shapes.Dict?
    ensures r.List? <==> shapes.List? || shapes.Iterable?
    ensures r.Series? ==> r.index == shapes.index
    ensures r.Dict? ==> r.keys == shapes.keys
    ensures |Elements(r)| == |Elements(shapes)|
    ensures forall i :: 0 <= i < |Elements(shapes)| ==>
              Elements(r)[i] == project(crs1, crs2, Elements(shapes)[i])
  {
    var transform := (s: S) => project(crs1, crs2, s);
    match shapes
    case Series(index, values) => Series(index, MapShapes(values, transform))
    case Dict(keys, values) => Dict(keys, MapShapes(values, transform))
    case List(items) => List(MapShapes(items, transform))
    case Iterable(items) => List(MapShapes(items, transform))
  }

  /** `reproject(shapes, p1, p2)`: the deprecated name returns exactly what
      `reproject_shapes` returns (the deprecation warning is not modelled). */
  function Reproject<K, S, C>(shapes: Collection<K, S>, p1: C, p2: C,
                              project: (C, C, S) -> S): (r: Collection<K, S>)
    ensures r == ReprojectShapes(shapes, p1, p2, project)
  {
    ReprojectShapes(shapes, p1, p2, project)
  }

  // ---------------------------------------------------------------------------
  // Properties

  /** A well-formed collection stays well formed. */
  lemma ReprojectWellFormed<K, S, C>(shapes: Collection<K, S>, crs1: C, crs2: C,
                                     project: (C, C, S) -> S)
    requires WellFormed(shapes)
    ensures WellFormed(ReprojectShapes(shapes, crs1, crs2, project))
  {}

  /** For a dictionary, `out[k] == T(shapes[k])` for every key, and a key
      missing before is missing after. */
  lemma {:induction false} ReprojectLookup<K, S, C>(keys: seq<K>, values: seq<S>, k: K,
                                                    crs1: C, crs2: C, project: (C, C, S) -> S)
    requires |keys| == |values|
    ensures var out := ReprojectShapes(Dict(keys, values), crs1, crs2, project);
      && out.Dict?
      && Lookup(out.keys, out.values, k) ==
           match Lookup(keys, values, k)
           case None => None
           case Some(s) => Some(project(crs1, crs2, s))
  {
    var transform := (s: S) => project(crs1, crs2, s);
    LookupMapped(keys, values, k, transform);
  }

  lemma {:induction false} LookupMapped<K, S>(keys: seq<K>, values: seq<S>, k: K, f: S -> S)
    requires |keys| == |values|
    ensures Lookup(keys, MapShapes(values, f), k) ==
              match Lookup(keys, values, k)
              case None => None
              case Some(s) => Some(f(s))
  {
    if keys != [] && keys[0] != k {
      assert MapShapes(values, f)[1..] == MapShapes(values[1..], f);
      LookupMapped(keys[1..], values[1..], k, f);
    }
  }

  /** Reprojecting twice is reprojecting once with the composed transform. */
  lemma ReprojectCompose<K, S, C>(shapes: Collection<K, S>, a: C, b: C, c: C,
                                  project: (C, C, S) -> S)
    ensures var twice := ReprojectShapes(ReprojectShapes(shapes, a, b, project), b, c, project);
      && Length(twice) == Length(shapes)
      && forall i :: 0 <= i < |Elements(shapes)| ==>
           Elements(twice)[i] == project(b, c, project(a, b, Elements(shapes)[i]))
  {}

  /** When the transform from B back to A undoes the one from A to B on every
      shape, the round trip returns the collection itself, except that an
      iterable that is not a list comes back as a list. */
  lemma RoundTrip<K, S, C>(shapes: Collection<K, S>, a: C, b: C, project: (C, C, S) -> S)
    requires forall s :: s in Elements(shapes) ==> project(b, a, project(a, b, s)) == s
    ensures ReprojectShapes(ReprojectShapes(shapes, a, b, project), b, a, project) ==
              if shapes.Iterable? then List(shapes.items) else shapes
  {
    var back := ReprojectShapes(ReprojectShapes(shapes, a, b, project), b, a, project);
    assert Elements(back) == Elements(shapes) by {
      forall i | 0 <= i < |Elements(shapes)|
        ensures Elements(back)[i] == Elements(shapes)[i]
      {
        assert Elements(shapes)[i] in Elements(shapes);
      }
    }
  }
}
