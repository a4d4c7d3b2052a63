// The map panel: the zoom state (`_zoomed_prov`), the markers plotted under
// the current limits (`_empresa_data`) and what a click on the map does.

module MapView {
  import opened Common
  import opened Geometry
  import opened Store
  import opened Markers

  /** The whole-country frame: `set_xlim(-9.5, 4.5)` and `set_ylim(35.8, 44.0)`. */
  const Overview: Box := Box(-9.5, 35.8, 4.5, 44.0)

  /** A mouse press on the canvas: the data coordinates, absent when the press
      falls outside the axes, and whether it is a double-click. */
  datatype Click = Click(pos: Option<Point>, dbl: bool)

  /** What a click does besides the zoom change. */
  datatype ClickEffect =
    | Ignored               // outside the axes, outside every province, or a nameless province
    | ZoomReset             // double-click, or a click on the province already zoomed into
    | Selected(id: int)     // the company row to select in the list
    | ZoomedTo(name: string)

  /** The effect of `_on_map_click` given the zoom, the geodata and the
      markers of the last drawing. */
  function Effect(zoomed: Option<string>, geo: Option<Geodata>, ms: seq<Marker>, ev: Click): (e: ClickEffect)
    ensures ev.pos.None? ==> e == Ignored
    ensures e.Selected? ==> ev.pos.Some? && !ev.dbl && Picked(ms, ev.pos.value) == Some(e.id)
    ensures e.ZoomedTo? ==> (ev.pos.Some? && !ev.dbl && Picked(ms, ev.pos.value).None? &&
      ProvinceAt(geo, ev.pos.value) == Some(e.name) && e.name != "" && zoomed != Some(e.name))
    ensures e == ZoomReset ==> ev.pos.Some? && (ev.dbl || (zoomed.Some? && ProvinceAt(geo, ev.pos.value) == zoomed))
  {
    if ev.pos.None? then Ignored
    else if ev.dbl then ZoomReset
    else
      match Picked(ms, ev.pos.value)
      case Some(id) => Selected(id)
      case None =>
        match ProvinceAt(geo, ev.pos.value)
        case None => Ignored
        case Some(prov) =>
          if prov == "" then Ignored
          else if zoomed == Some(prov) then ZoomReset
          else ZoomedTo(prov)
  }

  /** The zoom after a click with effect `e`. */
  function After(zoomed: Option<string>, e: ClickEffect): (r: Option<string>)
    ensures r != zoomed ==> Redraws(e)
    ensures Redraws(e) ==> r.Some? == e.ZoomedTo?
  {
    match e
    case ZoomReset => None
    case ZoomedTo(name) => Some(name)
    case _ => zoomed
  }

  /** The map is drawn again after the click. */
  predicate Redraws(e: ClickEffect) {
    e.ZoomReset? || e.ZoomedTo?
  }

  /** The zoom only ever names a province with a zoom box. */
  predicate ZoomHasBox(geo: Option<Geodata>, zoomed: Option<string>) {
    zoomed.Some? ==> BboxProvincia(geo, zoomed.value).Some?
  }

  /** The axis limits of `_draw_map`: the fixed frame without geodata or
      without zoom, the padded province box when zoomed. */
  function Limits(geo: Option<Geodata>, zoomed: Option<string>): (lim: Box)
    requires ZoomHasBox(geo, zoomed)
    ensures zoomed.None? || geo.None? ==> lim == Overview
    ensures zoomed.Some? ==> Some(lim) == BboxProvincia(geo, zoomed.value)
  {
    if geo.None? || zoomed.None? then Overview
    else BboxProvincia(geo, zoomed.value).value
  }

  /** A click outside the axes does nothing. */
  lemma OutsideAxesIgnored(zoomed: Option<string>, geo: Option<Geodata>, ms: seq<Marker>, dbl: bool)
    ensures Effect(zoomed, geo, ms, Click(None, dbl)) == Ignored
    ensures After(zoomed, Effect(zoomed, geo, ms, Click(None, dbl))) == zoomed
  {
  }

  /** A double-click inside the axes always returns to the whole-country view. */
  lemma DoubleClickResets(zoomed: Option<string>, geo: Option<Geodata>, ms: seq<Marker>, p: Point)
    ensures After(zoomed, Effect(zoomed, geo, ms, Click(Some(p), true))) == None
    ensures Redraws(Effect(zoomed, geo, ms, Click(Some(p), true)))
  {
  }

  /** A single click within the pick radius of a marker selects the nearest
      marker's company and keeps the zoom. */
  lemma MarkerClickKeepsZoom(zoomed: Option<string>, geo: Option<Geodata>, ms: seq<Marker>, p: Point, k: nat)
    requires k < |ms| && Dist(ms[k], p) < PickRadius
    ensures Effect(zoomed, geo, ms, Click(Some(p), false)).Selected?
    ensures After(zoomed, Effect(zoomed, geo, ms, Click(Some(p), false))) == zoomed
    ensures exists n :: IsNearest(ms, p, n) && Effect(zoomed, geo, ms, Click(Some(p), false)) == Selected(ms[n].id)
  {
    PickedIffNear(ms, p);
  }

  /** A single click away from every marker and outside every province keeps the zoom. */
  lemma NoProvinceKeepsZoom(zoomed: Option<string>, geo: Option<Geodata>, ms: seq<Marker>, p: Point)
    requires forall k :: 0 <= k < |ms| ==> Dist(ms[k], p) >= PickRadius
    requires geo.Some? ==> forall i :: 0 <= i < |geo.value.regions| ==> !Hit(geo.value, geo.value.regions[i], p)
    ensures Effect(zoomed, geo, ms, Click(Some(p), false)) == Ignored
    ensures After(zoomed, Effect(zoomed, geo, ms, Click(Some(p), false))) == zoomed
  {
    PickedIffNear(ms, p);
  }

  /** A single click away from every marker, in a named province: back to the
      whole-country view when that province is the zoom, else zoom into it. */
  lemma ProvinceClickToggles(zoomed: Option<string>, geo: Option<Geodata>, ms: seq<Marker>, p: Point, i: nat)
    requires geo.Some? && i < |geo.value.regions| && Hit(geo.value, geo.value.regions[i], p)
    requires forall j :: 0 <= j < i ==> !Hit(geo.value, geo.value.regions[j], p)
    requires geo.value.regions[i].name != ""
    requires forall k :: 0 <= k < |ms| ==> Dist(ms[k], p) >= PickRadius
    ensures var name := geo.value.regions[i].name;
      After(zoomed, Effect(zoomed, geo, ms, Click(Some(p), false))) == if zoomed == Some(name) then None else Some(name)
  {
    PickedIffNear(ms, p);
    FirstHitIsFirst(geo.value, geo.value.regions, p, i);
  }

  /** Every click keeps the zoom on a province that has a zoom box. */
  lemma ClickKeepsZoomBox(zoomed: Option<string>, geo: Option<Geodata>, ms: seq<Marker>, ev: Click)
    requires ZoomHasBox(geo, zoomed)
    ensures ZoomHasBox(geo, After(zoomed, Effect(zoomed, geo, ms, ev)))
  {
    var e := Effect(zoomed, geo, ms, ev);
    if e.ZoomedTo? {
      var p := ev.pos.value;
      var i :| 0 <= i < |geo.value.regions| && Hit(geo.value, geo.value.regions[i], p) &&
        geo.value.regions[i].name == e.name;
      assert Counts(geo.value.regions[i], e.name);
    }
  }

  /** Clicking twice into the same province, away from the markers, zooms in
      and then back out to the whole-country view. */
  lemma ClickTwiceReturns(geo: Option<Geodata>, ms1: seq<Marker>, ms2: seq<Marker>, p: Point, q: Point, name: string)
    requires ProvinceAt(geo, p) == Some(name) && ProvinceAt(geo, q) == Some(name) && name != ""
    requires Picked(ms1, p).None? && Picked(ms2, q).None?
    ensures After(None, Effect(None, geo, ms1, Click(Some(p), false))) == Some(name)
    ensures After(Some(name), Effect(Some(name), geo, ms2, Click(Some(q), false))) == None
  {
  }

  /** A company outside the zoom box is not a marker while zoomed, and is one
      again in the whole-country view when it lies in that frame. */
  lemma ZoomHidesOutsideCompany(geo: Geodata, name: string, rows: seq<Empresa>, i: nat)
    requires ZoomHasBox(Some(geo), Some(name))
    requires i < |rows| && MarkerOf(rows[i]).Some?
    requires !Inside(Limits(Some(geo), Some(name)), Position(MarkerOf(rows[i]).value))
    requires Inside(Overview, Position(MarkerOf(rows[i]).value))
    ensures MarkerOf(rows[i]).value !in VisibleMarkers(rows, Limits(Some(geo), Some(name)))
    ensures MarkerOf(rows[i]).value in VisibleMarkers(rows, Overview)
  {
    VisibleComplete(rows, Overview, i);
  }

  /** In the whole-country view a company in Madrid is a marker, while one in
      Las Palmas (west of the frame; the Canary Islands inset carries no
      markers) and one without coordinates are not. */
  lemma OverviewExample()
    ensures var madrid := Empresa(1, TextCell("Acme"), None, TextCell("Madrid"), TextCell("Madrid"), NumCell(40.4), NumCell(-3.7), None);
      var palmas := Empresa(2, TextCell("Isla"), None, TextCell("Las Palmas"), TextCell("Canarias"), NumCell(28.1), NumCell(-15.4), None);
      var blank := Empresa(3, TextCell("Nada"), None, TextCell("Otra"), None, None, None, None);
      VisibleMarkers([madrid, palmas, blank], Overview) == [Marker(1, TextCell("Acme"), 40.4, -3.7)]
  {
    var madrid := Empresa(1, TextCell("Acme"), None, TextCell("Madrid"), TextCell("Madrid"), NumCell(40.4), NumCell(-3.7), None);
    var palmas := Empresa(2, TextCell("Isla"), None, TextCell("Las Palmas"), TextCell("Canarias"), NumCell(28.1), NumCell(-15.4), None);
    var blank := Empresa(3, TextCell("Nada"), None, TextCell("Otra"), None, None, None, None);
    var rows := [madrid, palmas, blank];
    var m := Marker(1, TextCell("Acme"), 40.4, -3.7);
    assert [madrid][..0] == [];
    assert VisibleMarkers([madrid], Overview) == [m];
    assert [madrid, palmas][..1] == [madrid];
    assert VisibleMarkers([madrid, palmas], Overview) == [m];
    assert rows[..2] == [madrid, palmas];
  }

  /** The map panel: the zoom and the markers of the last drawing, over
      geodata loaded once at start-up. */
  class MapPanel {
    const geo: Option<Geodata>
    var zoomed: Option<string>
    var markers: seq<Marker>

    ghost predicate Valid()
      reads this
    {
      ZoomHasBox(geo, zoomed)
    }

    /** Start-up: the whole-country view, drawn with the listing `rows`. */
    constructor (g: Option<Geodata>, rows: seq<Empresa>)
      ensures Valid()
      ensures geo == g && zoomed == None
      ensures markers == VisibleMarkers(rows, Overview)
    {
      geo := g;
      zoomed := None;
      new;
      Redraw(rows);
    }

    /** `_draw_map`/`_plot_empresas`: clears the markers and adds, in listing
        order, each record with both coordinates inside the current limits. */
    method Redraw(rows: seq<Empresa>)
      requires Valid()
      modifies this`markers
      ensures markers == VisibleMarkers(rows, Limits(geo, zoomed))
    {
      var lim := Limits(geo, zoomed);
      markers := [];
      var i := 0;
      while i < |rows|
        invariant 0 <= i <= |rows|
        invariant markers == VisibleMarkers(rows[..i], lim)
      {
        var e := rows[i];
        assert rows[..i + 1][..i] == rows[..i];
        match (e.latitud, e.longitud) {
          case (Some(Num(lat)), Some(Num(lon))) =>
            if lim.minx <= lon <= lim.maxx && lim.miny <= lat <= lim.maxy {
              markers := markers + [Marker(e.id, e.nombre, lat, lon)];
            }
          case _ =>
        }
        i := i + 1;
      }
      assert rows[..i] == rows;
    }

    /** `_reset_zoom`: back to the whole-country view, drawn again. */
    method ResetZoom(rows: seq<Empresa>)
      requires Valid()
      modifies this
      ensures Valid() && zoomed == None
      ensures markers == VisibleMarkers(rows, Overview)
    {
      zoomed := None;
      Redraw(rows);
    }

    /** `_on_map_click`: `rows` is the listing the drawing would read. */
    method OnMapClick(ev: Click, rows: seq<Empresa>) returns (e: ClickEffect)
      requires Valid()
      modifies this
      ensures Valid()
      ensures e == Effect(old(zoomed), geo, old(markers), ev)
      ensures zoomed == After(old(zoomed), e)
      ensures markers == if Redraws(e) then VisibleMarkers(rows, Limits(geo, zoomed)) else old(markers)
    {
      ClickKeepsZoomBox(zoomed, geo, markers, ev);
      if ev.pos.None? {
        return Ignored;
      }
      var p := ev.pos.value;
      if ev.dbl {
        ResetZoom(rows);
        return ZoomReset;
      }
      var closest, minDist := ScanNearest(markers, p);
      if closest.Some? && minDist.value < PickRadius {
        return Selected(markers[closest.value].id);
      }
      var prov := ScanProvinces(geo, p);
      if prov.Some? && prov.value != "" {
        if prov == zoomed {
          ResetZoom(rows);
          return ZoomReset;
        } else {
          zoomed := prov;
          Redraw(rows);
          return ZoomedTo(prov.value);
        }
      }
      return Ignored;
    }
  }
}
