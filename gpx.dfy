/**
 * The GPX reader of js/lib/gpx.js. GPX 1.1 keeps positions in three kinds
 * of element: trkpt (track points), rtept (route points) and wpt
 * (waypoints), each with `lat` and `lon` attributes and optional `ele`,
 * `time` and `name` children.
 *
 * The XML parser is not modelled: a document is the record of what the
 * DOM queries of the source return, with attribute values already through
 * parseFloat and time texts already through `new Date`.
 */
module Gpx {
  import opened Common

  /**
   * One point element. `ele`, `time` and `name` are None when the child
   * element is missing or its text is empty (both falsy in the source);
   * a time is None inside Some when the Date is invalid.
   */
  datatype PointElement = PointElement(
    lat: JsNumber,
    lon: JsNumber,
    ele: Option<JsNumber>,
    time: Option<Option<int>>,
    name: Option<string>)

  /** The `<metadata>` element: its name and desc texts and its time, each when present. */
  datatype MetadataElement = MetadataElement(name: Option<string>, desc: Option<string>, time: Option<Option<int>>)

  /** What the DOM answers about a parsed document. */
  datatype GpxDocument = GpxDocument(
    parserError: bool,                 // a `parsererror` element exists
    hasGpxElement: bool,               // querySelector('gpx') finds an element
    metadata: Option<MetadataElement>,
    trkpts: seq<PointElement>,
    rtepts: seq<PointElement>,
    wpts: seq<PointElement>)

  /** The object extractPointData builds. */
  datatype GpxPoint = GpxPoint(
    lat: JsNumber,
    lng: JsNumber,
    ele: Option<real>,
    elevation: Option<real>,
    time: Option<int>,
    name: Option<string>)

  // ---------------------------------------------------------------------
  // extractPointData (js/lib/gpx.js:64-100)

  /**
   * Coordinates as parsed; `ele` and `elevation` only for an elevation
   * that is a number; `time` only for a valid Date; the name trimmed.
   */
  function ExtractPointData(e: PointElement): (p: GpxPoint)
    ensures p.lat == e.lat && p.lng == e.lon
    ensures p.ele == p.elevation
    ensures p.ele.Some? <==> e.ele.Some? && e.ele.value.Num?
    ensures p.ele.Some? ==> p.ele.value == e.ele.value.value
    ensures p.time.Some? <==> e.time.Some? && e.time.value.Some?
    ensures p.time.Some? ==> p.time.value == e.time.value.value
    ensures p.name.Some? <==> e.name.Some?
  {
    var elevation := if e.ele.Some? && e.ele.value.Num? then Some(e.ele.value.value) else None;
    GpxPoint(
      e.lat, e.lon,
      elevation, elevation,
      if e.time.Some? && e.time.value.Some? then Some(e.time.value.value) else None,
      if e.name.Some? then Some(Trim(e.name.value)) else None)
  }

  // ---------------------------------------------------------------------
  // parseGPXContent (js/lib/gpx.js:11-57)

  /** The point filter: both coordinates numbers, within [-90, 90] and [-180, 180]. */
  predicate ValidPoint(p: GpxPoint) {
    && p.lat.Num? && p.lng.Num?
    && -90.0 <= p.lat.value <= 90.0
    && -180.0 <= p.lng.value <= 180.0
  }

  /** The elements the points come from: trkpt when there are any, else rtept, else wpt. */
  function PointSource(doc: GpxDocument): (r: seq<PointElement>)
    ensures |doc.trkpts| > 0 ==> r == doc.trkpts
    ensures |doc.trkpts| == 0 && |doc.rtepts| > 0 ==> r == doc.rtepts
    ensures |doc.trkpts| == 0 && |doc.rtepts| == 0 ==> r == doc.wpts
  {
    if |doc.trkpts| > 0 then doc.trkpts
    else if |doc.rtepts| > 0 then doc.rtepts
    else doc.wpts
  }

  /** `points.filter(...)` after `map(extractPointData)`, in order. */
  function ValidPoints(es: seq<PointElement>): (r: seq<GpxPoint>)
    ensures |r| <= |es|
    ensures forall k :: 0 <= k < |r| ==> ValidPoint(r[k])
  {
    if es == [] then []
    else
      var p := ExtractPointData(es[0]);
      (if ValidPoint(p) then [p] else []) + ValidPoints(es[1..])
  }

  const InvalidXml: string := "Failed to parse GPX file: Invalid XML format"

  /** The points of a document, or the error thrown for a document the parser rejected. */
  function ParseGpxContent(doc: GpxDocument): (r: Result<seq<GpxPoint>>)
    ensures r.Err? <==> doc.parserError
    ensures r.Err? ==> r.message == InvalidXml
    ensures r.Ok? ==> forall k :: 0 <= k < |r.value| ==> ValidPoint(r.value[k])
    ensures r.Ok? ==> |r.value| <= |PointSource(doc)|
  {
    if doc.parserError then Err(InvalidXml)
    else Ok(ValidPoints(PointSource(doc)))
  }

  // ---------------------------------------------------------------------
  // isValidGPX and getGPXMetadata (js/lib/gpx.js:107-178)

  /** No parser error, a gpx element, and at least one trkpt, rtept or wpt. */
  function IsValidGpx(doc: GpxDocument): (r: bool)
    ensures r ==> !doc.parserError && doc.hasGpxElement
    ensures r <==> !doc.parserError && doc.hasGpxElement && |PointSource(doc)| > 0
  {
    if doc.parserError then false
    else if !doc.hasGpxElement then false
    else |doc.trkpts| > 0 || |doc.rtepts| > 0 || |doc.wpts| > 0
  }

  datatype PointCount = PointCount(trackPoints: nat, routePoints: nat, waypoints: nat, total: nat)

  datatype Metadata = Metadata(
    name: Option<string>,
    description: Option<string>,
    time: Option<Option<int>>,         // an invalid Date is kept as it is
    pointCount: PointCount)

  /** The metadata texts trimmed, and the number of elements of each kind with their total. */
  function GetGpxMetadata(doc: GpxDocument): (m: Metadata)
    ensures m.pointCount.trackPoints == |doc.trkpts| && m.pointCount.routePoints == |doc.rtepts|
    ensures m.pointCount.waypoints == |doc.wpts|
    ensures m.pointCount.total == |doc.trkpts + doc.rtepts + doc.wpts|
    ensures doc.metadata.None? ==> m.name.None? && m.description.None? && m.time.None?
    ensures doc.metadata.Some? ==> m.time == doc.metadata.value.time
    ensures doc.metadata.Some? ==>
      && (m.name.Some? <==> doc.metadata.value.name.Some?)
      && (m.description.Some? <==> doc.metadata.value.desc.Some?)
    ensures doc.metadata.Some? && m.name.Some? ==> |m.name.value| <= |doc.metadata.value.name.value|
  {
    var trk, rte, wpt := |doc.trkpts|, |doc.rtepts|, |doc.wpts|;
    var name := if doc.metadata.Some? && doc.metadata.value.name.Some? then Some(Trim(doc.metadata.value.name.value)) else None;
    var desc := if doc.metadata.Some? && doc.metadata.value.desc.Some? then Some(Trim(doc.metadata.value.desc.value)) else None;
    var time := if doc.metadata.Some? then doc.metadata.value.time else None;
    Metadata(name, desc, time, PointCount(trk, rte, wpt, trk + rte + wpt))
  }

  // ---------------------------------------------------------------------
  // Properties

  /** The filter only drops points: on two pieces of a list it gives the pieces' results in order. */
  lemma {:induction false} ValidPointsAppend(a: seq<PointElement>, b: seq<PointElement>)
    ensures ValidPoints(a + b) == ValidPoints(a) + ValidPoints(b)
    decreases |a|
  {
    if a == [] {
      assert a + b == b;
    } else {
      assert (a + b)[1..] == a[1..] + b;
      ValidPointsAppend(a[1..], b);
    }
  }

  /** Every element with valid coordinates gives a point; a list of such elements loses none. */
  lemma {:induction false} ValidPointsKeepsValid(es: seq<PointElement>)
    requires forall k :: 0 <= k < |es| ==> ValidPoint(ExtractPointData(es[k]))
    ensures |ValidPoints(es)| == |es|
    ensures forall k :: 0 <= k < |es| ==> ValidPoints(es)[k] == ExtractPointData(es[k])
    decreases |es|
  {
    if es != [] {
      ValidPointsKeepsValid(es[1..]);
    }
  }

  /** Route points and waypoints are ignored once a document has track points, and waypoints once it has route points. */
  lemma SourcePriority(doc: GpxDocument, rtepts: seq<PointElement>, wpts: seq<PointElement>)
    ensures |doc.trkpts| > 0 ==> ParseGpxContent(doc) == ParseGpxContent(doc.(rtepts := rtepts, wpts := wpts))
    ensures |doc.rtepts| > 0 ==> ParseGpxContent(doc) == ParseGpxContent(doc.(wpts := wpts))
  {
  }

  /** A document without any point element parses to no points. */
  lemma NoElementsNoPoints(doc: GpxDocument)
    requires !doc.parserError && GetGpxMetadata(doc).pointCount.total == 0
    ensures ParseGpxContent(doc) == Ok([])
  {
  }

  /** For a document with a gpx element and no parser error, it is valid exactly when the metadata counts a point. */
  lemma ValidIffCounted(doc: GpxDocument)
    requires !doc.parserError && doc.hasGpxElement
    ensures IsValidGpx(doc) <==> GetGpxMetadata(doc).pointCount.total > 0
  {
  }

  /** Every point parseGPXContent returns came from an element of the chosen kind. */
  lemma {:induction false} PointsComeFromSource(es: seq<PointElement>)
    ensures forall k :: 0 <= k < |ValidPoints(es)| ==>
      exists j :: 0 <= j < |es| && ValidPoints(es)[k] == ExtractPointData(es[j])
    decreases |es|
  {
    if es != [] {
      PointsComeFromSource(es[1..]);
      var r, rest := ValidPoints(es), ValidPoints(es[1..]);
      var p := ExtractPointData(es[0]);
      assert r == (if ValidPoint(p) then [p] else []) + rest;
      forall k | 0 <= k < |r|
        ensures exists j :: 0 <= j < |es| && r[k] == ExtractPointData(es[j])
      {
        if ValidPoint(p) && k == 0 {
          assert r[0] == ExtractPointData(es[0]);
        } else {
          var k' := if ValidPoint(p) then k - 1 else k;
          assert r[k] == rest[k'];
          var j :| 0 <= j < |es[1..]| && rest[k'] == ExtractPointData(es[1..][j]);
          assert r[k] == ExtractPointData(es[j + 1]);
        }
      }
    } else {
      assert |ValidPoints(es)| == 0;
    }
  }
}
