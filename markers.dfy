// Company markers on the map: which records become clickable markers under
// the current axis limits, and which marker a click lands on.

module Markers {
  import opened Common
  import opened Geometry
  import opened Store

  /** One entry of `_empresa_data`: what a click needs to know of a plotted company. */
  datatype Marker = Marker(id: int, nombre: Cell, lat: real, lon: real)

  /** The squared-distance threshold below which a click selects a marker. */
  const PickRadius: real := 0.05

  /** The marker a record would get: only a record with both coordinates set has one. */
  function MarkerOf(e: Empresa): (r: Option<Marker>)
    ensures r.Some? <==> e.latitud.Some? && e.latitud.value.Num? && e.longitud.Some? && e.longitud.value.Num?
    ensures r.Some? ==> (r.value.id == e.id && r.value.nombre == e.nombre &&
      r.value.lat == e.latitud.value.r && r.value.lon == e.longitud.value.r)
  {
    match (e.latitud, e.longitud)
    case (Some(Num(lat)), Some(Num(lon))) => Some(Marker(e.id, e.nombre, lat, lon))
    case _ => None
  }

  /** Where a marker sits on the map (longitude across, latitude up). */
  function Position(m: Marker): Point { Point(m.lon, m.lat) }

  /** The record is plotted under the limits `lim`. */
  predicate Shown(e: Empresa, lim: Box) {
    MarkerOf(e).Some? && Inside(lim, Position(MarkerOf(e).value))
  }

  /** The markers of `_plot_empresas`, in the order of the listing. */
  function VisibleMarkers(rows: seq<Empresa>, lim: Box): (ms: seq<Marker>)
    ensures |ms| <= |rows|
    ensures forall k :: 0 <= k < |ms| ==> Inside(lim, Position(ms[k]))
  {
    if |rows| == 0 then []
    else
      var rest := VisibleMarkers(rows[..|rows| - 1], lim);
      var e := rows[|rows| - 1];
      if Shown(e, lim) then rest + [MarkerOf(e).value] else rest
  }

  /** Filtering a concatenation filters each part, keeping their order. */
  lemma {:induction false} VisibleAppend(a: seq<Empresa>, b: seq<Empresa>, lim: Box)
    ensures VisibleMarkers(a + b, lim) == VisibleMarkers(a, lim) + VisibleMarkers(b, lim)
  {
    if |b| > 0 {
      var c := a + b;
      assert c[..|c| - 1] == a + b[..|b| - 1];
      VisibleAppend(a, b[..|b| - 1], lim);
    } else {
      assert a + b == a;
    }
  }

  /** Every marker comes from a plotted record. */
  lemma {:induction false} VisibleSound(rows: seq<Empresa>, lim: Box, k: nat)
    requires k < |VisibleMarkers(rows, lim)|
    ensures exists i :: 0 <= i < |rows| && Shown(rows[i], lim) && MarkerOf(rows[i]) == Some(VisibleMarkers(rows, lim)[k])
  {
    var init := rows[..|rows| - 1];
    var rest := VisibleMarkers(init, lim);
    if k < |rest| {
      VisibleSound(init, lim, k);
      var i :| 0 <= i < |init| && Shown(init[i], lim) && MarkerOf(init[i]) == Some(rest[k]);
      assert rows[i] == init[i];
    } else {
      assert MarkerOf(rows[|rows| - 1]) == Some(VisibleMarkers(rows, lim)[k]);
    }
  }

  /** Every record with both coordinates inside the limits is a marker. */
  lemma {:induction false} VisibleComplete(rows: seq<Empresa>, lim: Box, i: nat)
    requires i < |rows| && Shown(rows[i], lim)
    ensures MarkerOf(rows[i]).value in VisibleMarkers(rows, lim)
  {
    var init := rows[..|rows| - 1];
    if i < |rows| - 1 {
      assert init[i] == rows[i];
      VisibleComplete(init, lim, i);
    }
  }

  /** Two plotted records keep their listing order among the markers. */
  lemma VisibleKeepsOrder(rows: seq<Empresa>, lim: Box, i: nat, j: nat)
    requires i < j < |rows| && Shown(rows[i], lim) && Shown(rows[j], lim)
    ensures exists k1, k2 :: (0 <= k1 < k2 < |VisibleMarkers(rows, lim)| &&
      VisibleMarkers(rows, lim)[k1] == MarkerOf(rows[i]).value &&
      VisibleMarkers(rows, lim)[k2] == MarkerOf(rows[j]).value)
  {
    var a, pre, post := rows[..j], rows[..j + 1], rows[j + 1..];
    assert pre[..j] == a;
    var ma := VisibleMarkers(a, lim);
    assert VisibleMarkers(pre, lim) == ma + [MarkerOf(rows[j]).value];
    assert rows == pre + post;
    VisibleAppend(pre, post, lim);
    assert a[i] == rows[i];
    VisibleComplete(a, lim, i);
    var k1 :| 0 <= k1 < |ma| && ma[k1] == MarkerOf(rows[i]).value;
    var ms := VisibleMarkers(rows, lim);
    assert ms[k1] == ma[k1] && ms[|ma|] == MarkerOf(rows[j]).value;
  }

  /** A square is never negative. */
  lemma SquareNonNegative(a: real)
    ensures a * a >= 0.0
  {
    if a < 0.0 {
      assert (-a) * (-a) >= 0.0 * (-a);
      assert (-a) * (-a) == a * a;
    } else {
      assert a * a >= 0.0 * a;
    }
  }

  /** The squared distance of `_on_map_click` between a marker and the click:
      never negative, and zero for a click on the marker itself. */
  function Dist(m: Marker, p: Point): (d: real)
    ensures d >= 0.0
    ensures Position(m) == p ==> d == 0.0
  {
    SquareNonNegative(m.lon - p.x);
    SquareNonNegative(m.lat - p.y);
    (m.lon - p.x) * (m.lon - p.x) + (m.lat - p.y) * (m.lat - p.y)
  }

  /** Index `i` holds a closest marker, and no earlier marker is as close. */
  predicate IsNearest(ms: seq<Marker>, p: Point, i: int) {
    0 <= i < |ms| &&
    (forall j :: 0 <= j < |ms| ==> Dist(ms[i], p) <= Dist(ms[j], p)) &&
    (forall j :: 0 <= j < i ==> Dist(ms[i], p) < Dist(ms[j], p))
  }

  /** The marker the scan keeps: nothing for no markers, otherwise the
      earliest of the closest ones. */
  function Nearest(ms: seq<Marker>, p: Point): (r: Option<nat>)
    ensures r.None? <==> |ms| == 0
    ensures r.Some? ==> IsNearest(ms, p, r.value)
  {
    if |ms| == 0 then None
    else
      var init := ms[..|ms| - 1];
      var r := Nearest(init, p);
      assert forall j :: 0 <= j < |ms| - 1 ==> init[j] == ms[j];
      if r.None? || Dist(ms[|ms| - 1], p) < Dist(ms[r.value], p) then Some(|ms| - 1) else r
  }

  /** At most one index holds the earliest closest marker. */
  lemma NearestUnique(ms: seq<Marker>, p: Point, i: int, j: int)
    requires IsNearest(ms, p, i) && IsNearest(ms, p, j)
    ensures i == j
  {
    var di, dj := Dist(ms[i], p), Dist(ms[j], p);
    assert di <= dj && dj <= di;
  }

  /** The nearest-marker loop of `_on_map_click`: `minDist` plays the part of
      `min_dist`, with `None` for its starting value of infinity. */
  method ScanNearest(ms: seq<Marker>, p: Point) returns (closest: Option<nat>, minDist: Option<real>)
    ensures closest == Nearest(ms, p)
    ensures minDist.Some? <==> closest.Some?
    ensures closest.Some? ==> minDist.value == Dist(ms[closest.value], p)
  {
    closest, minDist := None, None;
    var i := 0;
    while i < |ms|
      invariant 0 <= i <= |ms|
      invariant closest == Nearest(ms[..i], p)
      invariant minDist.Some? <==> closest.Some?
      invariant closest.Some? ==> closest.value < i && minDist.value == Dist(ms[closest.value], p)
    {
      var d := Dist(ms[i], p);
      assert ms[..i + 1][..i] == ms[..i];
      if minDist.None? || d < minDist.value {
        minDist := Some(d);
        closest := Some(i);
      }
      i := i + 1;
    }
    assert ms[..i] == ms;
  }

  /** The id selected by a click: that of the nearest marker, when it lies
      strictly within the pick radius. */
  function Picked(ms: seq<Marker>, p: Point): (r: Option<int>)
    ensures r.Some? ==> exists k :: 0 <= k < |ms| && IsNearest(ms, p, k) && ms[k].id == r.value && Dist(ms[k], p) < PickRadius
  {
    match Nearest(ms, p)
    case None => None
    case Some(k) => if Dist(ms[k], p) < PickRadius then Some(ms[k].id) else None
  }

  /** A click selects a marker exactly when some marker lies within the pick radius. */
  lemma PickedIffNear(ms: seq<Marker>, p: Point)
    ensures Picked(ms, p).Some? <==> exists k :: 0 <= k < |ms| && Dist(ms[k], p) < PickRadius
  {
    if k :| 0 <= k < |ms| && Dist(ms[k], p) < PickRadius {
      var n := Nearest(ms, p).value;
      assert Dist(ms[n], p) <= Dist(ms[k], p);
    }
  }
}
