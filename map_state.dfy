/**
 * The UI-independent state of js/map.js: the global `waypoints` array of
 * route markers (start, stops, end) and the global `currentWeatherLayer`
 * name, with the operations that reassign them. Markers are objects and
 * `!==` compares them by identity, which Dafny's class references do too.
 * Drawing, routing requests and error display are left to the caller: the
 * operations return what they would request or show.
 */
module MapState {
  import opened Common
  import opened Geo

  /** A Leaflet marker: an object with a position. */
  class Marker {
    var latLng: LatLng

    constructor (p: LatLng)
      ensures latLng == p
    {
      latLng := p;
    }
  }

  // ---------------------------------------------------------------------
  // The list operations

  /** `waypoints.splice(waypoints.length - 1, 0, m)`: m inserted just before the last marker. */
  function InsertBeforeLast(ws: seq<Marker>, m: Marker): (r: seq<Marker>)
    requires |ws| >= 1
    ensures |r| == |ws| + 1
    ensures r[|r| - 1] == ws[|ws| - 1] && r[|r| - 2] == m
    ensures forall k :: 0 <= k < |ws| - 1 ==> r[k] == ws[k]
  {
    ws[..|ws| - 1] + [m] + [ws[|ws| - 1]]
  }

  /** `waypoints.filter(w => w !== m)`: every occurrence of m removed, the others kept in order. */
  function Without(ws: seq<Marker>, m: Marker): (r: seq<Marker>)
    ensures |r| <= |ws|
    ensures forall k :: 0 <= k < |r| ==> r[k] in ws && r[k] != m
    ensures forall k :: 0 <= k < |ws| && ws[k] != m ==> ws[k] in r
    ensures m !in ws ==> r == ws
  {
    if ws == [] then []
    else (if ws[0] != m then [ws[0]] else []) + Without(ws[1..], m)
  }

  /** The positions of the markers, in order: `waypoints.map(m => m.getLatLng())`. */
  function Coords(ws: seq<Marker>): (r: seq<LatLng>)
    reads set m | m in ws
    ensures |r| == |ws| && forall k :: 0 <= k < |ws| ==> r[k] == ws[k].latLng
  {
    if ws == [] then [] else [ws[0].latLng] + Coords(ws[1..])
  }

  /** The layer cycle: wind to temp to precip to wind, and anything else back to wind. */
  function NextLayer(layer: string): (r: string)
    ensures r == "wind" || r == "temp" || r == "precip"
  {
    if layer == "wind" then "temp"
    else if layer == "temp" then "precip"
    else "wind"
  }

  /** The message shown when a stop is added before a route exists. */
  const NoEndpoints: string := "Define start and end points first before adding stops."

  // ---------------------------------------------------------------------
  // The globals

  class Globals {
    var waypoints: seq<Marker>
    var currentWeatherLayer: string

    /** The initial values: no markers and the wind layer. */
    constructor ()
      ensures waypoints == [] && currentWeatherLayer == "wind"
    {
      waypoints := [];
      currentWeatherLayer := "wind";
    }

    /**
     * The address path of processInput: the route data is cleared, then
     * the start marker and the end marker are pushed.
     */
    method SetEndpoints(startMarker: Marker, endMarker: Marker)
      modifies this
      ensures waypoints == [startMarker, endMarker] && currentWeatherLayer == "wind"
    {
      ClearRouteData();
      waypoints := waypoints + [startMarker];
      waypoints := waypoints + [endMarker];
    }

    /**
     * With fewer than two markers the error is shown and nothing changes;
     * otherwise a new marker at latlng goes in just before the end marker.
     */
    method AddStopMarker(latlng: LatLng) returns (error: Option<string>, marker: Marker?)
      modifies this
      ensures currentWeatherLayer == old(currentWeatherLayer)
      ensures |old(waypoints)| < 2 ==> error == Some(NoEndpoints) && marker == null && waypoints == old(waypoints)
      ensures |old(waypoints)| >= 2 ==>
        && error.None? && marker != null && fresh(marker) && marker.latLng == latlng
        && waypoints == InsertBeforeLast(old(waypoints), marker)
    {
      if |waypoints| < 2 {
        return Some(NoEndpoints), null;
      }
      marker := new Marker(latlng);
      waypoints := InsertBeforeLast(waypoints, marker);
      error := None;
    }

    /** Every occurrence of the marker leaves the list; the others keep their order. */
    method RemoveWaypoint(markerToRemove: Marker)
      modifies this
      ensures waypoints == Without(old(waypoints), markerToRemove)
      ensures currentWeatherLayer == old(currentWeatherLayer)
    {
      waypoints := Without(waypoints, markerToRemove);
    }

    /** The waypoint list is emptied and the weather layer reset to wind. */
    method ClearRouteData()
      modifies this
      ensures waypoints == [] && currentWeatherLayer == "wind"
    {
      waypoints := [];
      currentWeatherLayer := "wind";
    }

    /** recalcRoute: nothing with fewer than two markers, otherwise the routing request for the markers' positions. */
    method RecalcRoute() returns (request: Option<seq<LatLng>>)
      ensures request.None? <==> |waypoints| < 2
      ensures request.Some? ==> request.value == Coords(waypoints) && |request.value| >= 2
    {
      if |waypoints| < 2 {
        return None;
      }
      request := Some(Coords(waypoints));
    }

    /** The next layer of the cycle; the markers are untouched. */
    method ToggleWeatherLayer()
      modifies this
      ensures currentWeatherLayer == NextLayer(old(currentWeatherLayer))
      ensures waypoints == old(waypoints)
    {
      if currentWeatherLayer == "wind" {
        currentWeatherLayer := "temp";
      } else if currentWeatherLayer == "temp" {
        currentWeatherLayer := "precip";
      } else {
        currentWeatherLayer := "wind";
      }
    }
  }

  // ---------------------------------------------------------------------
  // Properties

  /** A stop keeps the route's start and end: the first and last markers are the same ones. */
  lemma InsertKeepsEnds(ws: seq<Marker>, m: Marker)
    requires |ws| >= 2
    ensures var r := InsertBeforeLast(ws, m);
      r[0] == ws[0] && r[|r| - 1] == ws[|ws| - 1] && m in r
  {
  }

  /** Removing a new stop right after adding it gives the list back. */
  lemma {:induction false} RemoveUndoesInsert(ws: seq<Marker>, m: Marker)
    requires |ws| >= 1 && m !in ws
    ensures Without(InsertBeforeLast(ws, m), m) == ws
  {
    var init, last := ws[..|ws| - 1], ws[|ws| - 1];
    assert ws == init + [last];
    WithoutAppend(init, [m] + [last], m);
    WithoutAppend([m], [last], m);
    assert init + [m] + [last] == init + ([m] + [last]);
    assert m !in init;
  }

  /** The filter works piecewise on a split list. */
  lemma {:induction false} WithoutAppend(a: seq<Marker>, b: seq<Marker>, m: Marker)
    ensures Without(a + b, m) == Without(a, m) + Without(b, m)
    decreases |a|
  {
    if a == [] {
      assert a + b == b;
    } else {
      assert (a + b)[1..] == a[1..] + b;
      WithoutAppend(a[1..], b, m);
    }
  }

  /** Removing twice is removing once. */
  lemma WithoutIdempotent(ws: seq<Marker>, m: Marker)
    ensures Without(Without(ws, m), m) == Without(ws, m)
  {
  }

  /** Exactly the occurrences of the marker are dropped: the length falls by their number. */
  lemma {:induction false} WithoutCount(ws: seq<Marker>, m: Marker)
    ensures |Without(ws, m)| == |ws| - multiset(ws)[m]
    decreases |ws|
  {
    if ws != [] {
      WithoutCount(ws[1..], m);
      assert ws == [ws[0]] + ws[1..];
      assert multiset(ws) == multiset([ws[0]]) + multiset(ws[1..]);
    }
  }

  /** Three toggles bring any of the three layers back; any other name reaches wind in one. */
  lemma ToggleCycle(layer: string)
    ensures layer == "wind" || layer == "temp" || layer == "precip" ==> NextLayer(NextLayer(NextLayer(layer))) == layer
    ensures NextLayer(layer) != layer
    ensures !(layer == "wind" || layer == "temp") ==> NextLayer(layer) == "wind"
  {
  }
}
