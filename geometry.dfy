// Province geometry for the map: the ordered (NAME_2, polygon) table loaded
// from the shapefile, the point-in-province scan and the padded zoom box.

module Geometry {
  import opened Common

  /** A map coordinate: `x` is the longitude, `y` the latitude. */
  datatype Point = Point(x: real, y: real)

  /** An axis-aligned rectangle `(minx, miny, maxx, maxy)`, the order of
      `total_bounds` and of the tuple `_bbox_provincia` returns. */
  datatype Box = Box(minx: real, miny: real, maxx: real, maxy: real)

  /** A province outline, given by its vertices. */
  datatype Polygon = Polygon(vertices: seq<Point>)

  /** One row of the geodata table: the `NAME_2` column and the geometry,
      which may be missing. */
  datatype Region = Region(name: string, shape: Option<Polygon>)

  /** The loaded geodata: its rows in file order, and the point-in-polygon
      test of the geometry library, which this model takes as given. */
  datatype Geodata = Geodata(regions: seq<Region>, contains: (Polygon, Point) -> bool)

  /** Closed containment in a rectangle. */
  predicate Inside(b: Box, p: Point) {
    b.minx <= p.x <= b.maxx && b.miny <= p.y <= b.maxy
  }

  /** `b` lies within `c`. */
  predicate Encloses(c: Box, b: Box) {
    c.minx <= b.minx && c.miny <= b.miny && b.maxx <= c.maxx && b.maxy <= c.maxy
  }

  function Min(a: real, b: real): real { if a <= b then a else b }
  function Max(a: real, b: real): real { if a >= b then a else b }

  /** A geometry that is present and not empty: the only kind the
      `row.geometry and …` test lets through, and the only kind with bounds. */
  predicate Solid(r: Region) {
    r.shape.Some? && |r.shape.value.vertices| > 0
  }

  /** The smallest rectangle around two rectangles. */
  function Union(a: Box, b: Box): (r: Box)
    ensures Encloses(r, a) && Encloses(r, b)
  {
    Box(Min(a.minx, b.minx), Min(a.miny, b.miny), Max(a.maxx, b.maxx), Max(a.maxy, b.maxy))
  }

  /** The bounds of a non-empty vertex list: every vertex lies inside, and
      each side is touched by some vertex, so no smaller box would do. */
  function VertexBounds(vs: seq<Point>): (b: Box)
    requires |vs| > 0
    ensures forall i :: 0 <= i < |vs| ==> Inside(b, vs[i])
    ensures exists i :: 0 <= i < |vs| && vs[i].x == b.minx
    ensures exists i :: 0 <= i < |vs| && vs[i].y == b.miny
    ensures exists i :: 0 <= i < |vs| && vs[i].x == b.maxx
    ensures exists i :: 0 <= i < |vs| && vs[i].y == b.maxy
  {
    var v := vs[|vs| - 1];
    if |vs| == 1 then Box(v.x, v.y, v.x, v.y)
    else
      var rest := VertexBounds(vs[..|vs| - 1]);
      assert forall i :: 0 <= i < |vs| - 1 ==> vs[..|vs| - 1][i] == vs[i];
      Union(rest, Box(v.x, v.y, v.x, v.y))
  }

  /** The rows named `name` whose geometry has bounds. */
  predicate Counts(r: Region, name: string) {
    r.name == name && Solid(r)
  }

  /** Vertex `k` of row `i` is a vertex of a bounded row named `name`. */
  predicate IsVertex(regs: seq<Region>, name: string, i: int, k: int) {
    0 <= i < |regs| && Counts(regs[i], name) && 0 <= k < |regs[i].shape.value.vertices|
  }

  /** Each side of `b` is touched by a vertex of a bounded row named `name`. */
  ghost predicate Touched(regs: seq<Region>, name: string, b: Box) {
    && (exists i, k :: IsVertex(regs, name, i, k) && regs[i].shape.value.vertices[k].x == b.minx)
    && (exists i, k :: IsVertex(regs, name, i, k) && regs[i].shape.value.vertices[k].y == b.miny)
    && (exists i, k :: IsVertex(regs, name, i, k) && regs[i].shape.value.vertices[k].x == b.maxx)
    && (exists i, k :: IsVertex(regs, name, i, k) && regs[i].shape.value.vertices[k].y == b.maxy)
  }

  /** A side touched by a vertex of the later rows is touched by a vertex of all rows. */
  lemma TouchedShift(regs: seq<Region>, name: string, rest: Option<Box>)
    requires |regs| > 0 && (rest.Some? ==> Touched(regs[1..], name, rest.value))
    ensures rest.Some? ==> Touched(regs, name, rest.value)
  {
    if rest.None? { return; }
    var t, b := regs[1..], rest.value;
    var i1, k1 :| IsVertex(t, name, i1, k1) && t[i1].shape.value.vertices[k1].x == b.minx;
    assert IsVertex(regs, name, i1 + 1, k1) && regs[i1 + 1] == t[i1];
    var i2, k2 :| IsVertex(t, name, i2, k2) && t[i2].shape.value.vertices[k2].y == b.miny;
    assert IsVertex(regs, name, i2 + 1, k2) && regs[i2 + 1] == t[i2];
    var i3, k3 :| IsVertex(t, name, i3, k3) && t[i3].shape.value.vertices[k3].x == b.maxx;
    assert IsVertex(regs, name, i3 + 1, k3) && regs[i3 + 1] == t[i3];
    var i4, k4 :| IsVertex(t, name, i4, k4) && t[i4].shape.value.vertices[k4].y == b.maxy;
    assert IsVertex(regs, name, i4 + 1, k4) && regs[i4 + 1] == t[i4];
  }

  /** The bounds of the first row, when it counts, are touched by its vertices. */
  lemma TouchedHead(regs: seq<Region>, name: string)
    requires |regs| > 0
    ensures Counts(regs[0], name) ==> Touched(regs, name, VertexBounds(regs[0].shape.value.vertices))
  {
    if !Counts(regs[0], name) { return; }
    var vs := regs[0].shape.value.vertices;
    var b := VertexBounds(vs);
    var k1 :| 0 <= k1 < |vs| && vs[k1].x == b.minx;
    assert IsVertex(regs, name, 0, k1);
    var k2 :| 0 <= k2 < |vs| && vs[k2].y == b.miny;
    assert IsVertex(regs, name, 0, k2);
    var k3 :| 0 <= k3 < |vs| && vs[k3].x == b.maxx;
    assert IsVertex(regs, name, 0, k3);
    var k4 :| 0 <= k4 < |vs| && vs[k4].y == b.maxy;
    assert IsVertex(regs, name, 0, k4);
  }

  /** The union of two touched boxes is touched. */
  lemma TouchedUnion(regs: seq<Region>, name: string, a: Box, b: Box)
    requires Touched(regs, name, a) && Touched(regs, name, b)
    ensures Touched(regs, name, Union(a, b))
  {
    var u := Union(a, b);
    assert u.minx == a.minx || u.minx == b.minx;
    assert u.miny == a.miny || u.miny == b.miny;
    assert u.maxx == a.maxx || u.maxx == b.maxx;
    assert u.maxy == a.maxy || u.maxy == b.maxy;
  }

  /** `total_bounds` of the rows named `name`: the smallest box around every
      vertex of those rows (each side is touched by one of them), rows
      without a geometry contributing nothing. */
  function TotalBounds(regs: seq<Region>, name: string): (r: Option<Box>)
    ensures r.Some? <==> exists i :: 0 <= i < |regs| && Counts(regs[i], name)
    ensures r.Some? ==> forall i, k ::
      (0 <= i < |regs| && Counts(regs[i], name) && 0 <= k < |regs[i].shape.value.vertices|) ==>
      Inside(r.value, regs[i].shape.value.vertices[k])
  {
    if |regs| == 0 then None
    else
      var rest := TotalBounds(regs[1..], name);
      assert forall i :: 1 <= i < |regs| ==> regs[1..][i - 1] == regs[i];
      if !Counts(regs[0], name) then rest
      else
        var own := VertexBounds(regs[0].shape.value.vertices);
        if rest.None? then Some(own) else Some(Union(rest.value, own))
  }

  /** No smaller box than `total_bounds` holds the vertices: each of its
      sides is touched by a vertex of a bounded row named `name`. */
  lemma {:induction false} TotalBoundsTight(regs: seq<Region>, name: string)
    requires TotalBounds(regs, name).Some?
    ensures Touched(regs, name, TotalBounds(regs, name).value)
  {
    var rest := TotalBounds(regs[1..], name);
    if rest.Some? {
      TotalBoundsTight(regs[1..], name);
    }
    TouchedShift(regs, name, rest);
    TouchedHead(regs, name);
    if Counts(regs[0], name) && rest.Some? {
      TouchedUnion(regs, name, rest.value, VertexBounds(regs[0].shape.value.vertices));
    }
  }

  /** The margin added on one axis: 15% of the extent, but never less than 0.2. */
  function Margin(lo: real, hi: real): (m: real)
    ensures m >= 0.2 && m >= (hi - lo) * 0.15
    ensures m == 0.2 || m == (hi - lo) * 0.15
  {
    Max((hi - lo) * 0.15, 0.2)
  }

  /** The padded zoom box around a province's bounds. */
  function Pad(b: Box): (r: Box)
    ensures r.minx + Margin(b.minx, b.maxx) == b.minx && r.maxx - Margin(b.minx, b.maxx) == b.maxx
    ensures r.miny + Margin(b.miny, b.maxy) == b.miny && r.maxy - Margin(b.miny, b.maxy) == b.maxy
  {
    var mx := Margin(b.minx, b.maxx);
    var my := Margin(b.miny, b.maxy);
    Box(b.minx - mx, b.miny - my, b.maxx + mx, b.maxy + my)
  }

  /** The padded box leaves at least 0.2 and at least 15% of the extent on
      every side, and the same margin on both sides of an axis. */
  lemma PadMargins(b: Box)
    ensures b.minx - Pad(b).minx >= 0.2 && b.minx - Pad(b).minx >= (b.maxx - b.minx) * 0.15
    ensures b.miny - Pad(b).miny >= 0.2 && b.miny - Pad(b).miny >= (b.maxy - b.miny) * 0.15
    ensures b.minx - Pad(b).minx == Pad(b).maxx - b.maxx
    ensures b.miny - Pad(b).miny == Pad(b).maxy - b.maxy
    ensures Encloses(Pad(b), b)
  {
  }

  /** `_bbox_provincia`: no box without geodata or without a bounded row of
      that name; otherwise the padded `total_bounds`. */
  function BboxProvincia(geo: Option<Geodata>, name: string): (r: Option<Box>)
    ensures r.Some? <==> geo.Some? && exists i :: 0 <= i < |geo.value.regions| && Counts(geo.value.regions[i], name)
  {
    if geo.None? then None
    else
      match TotalBounds(geo.value.regions, name)
      case None => None
      case Some(b) => Some(Pad(b))
  }

  /** Every vertex of every bounded row named `name` lies strictly inside the
      zoom box, at least 0.2 away from each edge. */
  lemma BboxHoldsProvince(geo: Geodata, name: string, i: nat, k: nat)
    requires i < |geo.regions| && Counts(geo.regions[i], name)
    requires k < |geo.regions[i].shape.value.vertices|
    ensures BboxProvincia(Some(geo), name).Some?
    ensures var b, v := BboxProvincia(Some(geo), name).value, geo.regions[i].shape.value.vertices[k];
      b.minx + 0.2 <= v.x <= b.maxx - 0.2 && b.miny + 0.2 <= v.y <= b.maxy - 0.2
  {
    var t := TotalBounds(geo.regions, name).value;
    assert Inside(t, geo.regions[i].shape.value.vertices[k]);
    PadMargins(t);
  }

  /** On one axis, `[bmin, bmax]` is `[lo, hi]` widened by that extent's margin on both sides. */
  predicate PaddedAxis(lo: real, hi: real, bmin: real, bmax: real) {
    bmin == lo - Margin(lo, hi) && bmax == hi + Margin(lo, hi)
  }

  /** Each side of the zoom box lies exactly one margin beyond a vertex of the
      province, the margin being that of the extent between two vertices:
      the box is the padded bounds and nothing larger. */
  lemma BboxSidesAtVertices(geo: Geodata, name: string)
    requires BboxProvincia(Some(geo), name).Some?
    ensures var b, regs := BboxProvincia(Some(geo), name).value, geo.regions;
      exists i1, k1, i2, k2 :: IsVertex(regs, name, i1, k1) && IsVertex(regs, name, i2, k2) &&
        PaddedAxis(regs[i1].shape.value.vertices[k1].x, regs[i2].shape.value.vertices[k2].x, b.minx, b.maxx)
    ensures var b, regs := BboxProvincia(Some(geo), name).value, geo.regions;
      exists i1, k1, i2, k2 :: IsVertex(regs, name, i1, k1) && IsVertex(regs, name, i2, k2) &&
        PaddedAxis(regs[i1].shape.value.vertices[k1].y, regs[i2].shape.value.vertices[k2].y, b.miny, b.maxy)
  {
    var regs := geo.regions;
    var t := TotalBounds(regs, name).value;
    var b := Pad(t);
    TotalBoundsTight(regs, name);
    var i1, k1 :| IsVertex(regs, name, i1, k1) && regs[i1].shape.value.vertices[k1].x == t.minx;
    var i2, k2 :| IsVertex(regs, name, i2, k2) && regs[i2].shape.value.vertices[k2].y == t.miny;
    var i3, k3 :| IsVertex(regs, name, i3, k3) && regs[i3].shape.value.vertices[k3].x == t.maxx;
    var i4, k4 :| IsVertex(regs, name, i4, k4) && regs[i4].shape.value.vertices[k4].y == t.maxy;
    assert PaddedAxis(regs[i1].shape.value.vertices[k1].x, regs[i3].shape.value.vertices[k3].x, b.minx, b.maxx);
    assert PaddedAxis(regs[i2].shape.value.vertices[k2].y, regs[i4].shape.value.vertices[k4].y, b.miny, b.maxy);
  }

  /** Padding any box that holds every vertex of the province gives a box at
      least as large as the zoom box: the zoom box is the smallest one. */
  lemma BboxSmallest(geo: Geodata, name: string, c: Box)
    requires BboxProvincia(Some(geo), name).Some?
    requires forall i, k :: IsVertex(geo.regions, name, i, k) ==> Inside(c, geo.regions[i].shape.value.vertices[k])
    ensures Encloses(Pad(c), BboxProvincia(Some(geo), name).value)
  {
    var regs := geo.regions;
    var t := TotalBounds(regs, name).value;
    TotalBoundsTight(regs, name);
    var i1, k1 :| IsVertex(regs, name, i1, k1) && regs[i1].shape.value.vertices[k1].x == t.minx;
    var i2, k2 :| IsVertex(regs, name, i2, k2) && regs[i2].shape.value.vertices[k2].y == t.miny;
    var i3, k3 :| IsVertex(regs, name, i3, k3) && regs[i3].shape.value.vertices[k3].x == t.maxx;
    var i4, k4 :| IsVertex(regs, name, i4, k4) && regs[i4].shape.value.vertices[k4].y == t.maxy;
    assert Encloses(c, t) by {
      assert Inside(c, regs[i1].shape.value.vertices[k1]);
      assert Inside(c, regs[i2].shape.value.vertices[k2]);
      assert Inside(c, regs[i3].shape.value.vertices[k3]);
      assert Inside(c, regs[i4].shape.value.vertices[k4]);
    }
    assert Margin(c.minx, c.maxx) >= Margin(t.minx, t.maxx);
    assert Margin(c.miny, c.maxy) >= Margin(t.miny, t.maxy);
  }

  /** The row is one the scan of `_provincia_en_punto` stops at. */
  predicate Hit(geo: Geodata, r: Region, p: Point) {
    Solid(r) && geo.contains(r.shape.value, p)
  }

  /** The index of the first row whose geometry contains `p`. */
  function FirstHit(geo: Geodata, regs: seq<Region>, p: Point): (r: Option<nat>)
    ensures r.Some? ==> r.value < |regs| && Hit(geo, regs[r.value], p)
    ensures r.Some? ==> forall j :: 0 <= j < r.value ==> !Hit(geo, regs[j], p)
    ensures r.None? ==> forall j :: 0 <= j < |regs| ==> !Hit(geo, regs[j], p)
  {
    if |regs| == 0 then None
    else if Hit(geo, regs[0], p) then Some(0)
    else
      var rest := FirstHit(geo, regs[1..], p);
      assert forall j :: 1 <= j < |regs| ==> regs[1..][j - 1] == regs[j];
      if rest.None? then None else Some(rest.value + 1)
  }

  /** `_provincia_en_punto`: the name of the first row, in file order, whose
      geometry contains the point; nothing without geodata or without a hit. */
  function ProvinceAt(geo: Option<Geodata>, p: Point): (r: Option<string>)
    ensures geo.None? ==> r.None?
    ensures r.Some? <==> geo.Some? && exists i :: 0 <= i < |geo.value.regions| && Hit(geo.value, geo.value.regions[i], p)
    ensures r.Some? ==> exists i :: (0 <= i < |geo.value.regions| && Hit(geo.value, geo.value.regions[i], p) &&
      geo.value.regions[i].name == r.value &&
      forall j :: 0 <= j < i ==> !Hit(geo.value, geo.value.regions[j], p))
  {
    if geo.None? then None
    else
      match FirstHit(geo.value, geo.value.regions, p)
      case None => None
      case Some(i) => Some(geo.value.regions[i].name)
  }

  /** The loop of `_provincia_en_punto`, which returns from inside the loop
      at the first hit. */
  method ScanProvinces(geo: Option<Geodata>, p: Point) returns (r: Option<string>)
    ensures r == ProvinceAt(geo, p)
  {
    if geo.None? {
      return None;
    }
    var regs := geo.value.regions;
    var i := 0;
    while i < |regs|
      invariant 0 <= i <= |regs|
      invariant forall j :: 0 <= j < i ==> !Hit(geo.value, regs[j], p)
    {
      var row := regs[i];
      if row.shape.Some? && |row.shape.value.vertices| > 0 && geo.value.contains(row.shape.value, p) {
        FirstHitIsFirst(geo.value, regs, p, i);
        return Some(row.name);
      }
      i := i + 1;
    }
    return None;
  }

  /** The first hit is the hit with no hit before it. */
  lemma {:induction false} FirstHitIsFirst(geo: Geodata, regs: seq<Region>, p: Point, i: nat)
    requires i < |regs| && Hit(geo, regs[i], p)
    requires forall j :: 0 <= j < i ==> !Hit(geo, regs[j], p)
    ensures FirstHit(geo, regs, p) == Some(i)
  {
    if i > 0 {
      assert forall j :: 0 <= j < i - 1 ==> regs[1..][j] == regs[j + 1];
      FirstHitIsFirst(geo, regs[1..], p, i - 1);
    }
  }

  /** Containment is only asked of geometries that are present: a row without
      one never matches, whatever the test would say. */
  lemma ProvinceAtSkipsMissingGeometry(geo: Geodata, hole: Region, p: Point)
    requires !Solid(hole)
    ensures ProvinceAt(Some(geo.(regions := [hole] + geo.regions)), p) == ProvinceAt(Some(geo), p)
  {
    var g := geo.(regions := [hole] + geo.regions);
    assert g.regions[1..] == geo.regions;
  }
}
