/**
 * The parsed GPX document and the filters of `loadSingleGPX`: points
 * without a numeric latitude are dropped, empty segments, tracks without
 * segments and empty routes are removed, missing names get a default, and
 * the survivors become the features of one route record (tracks as
 * MultiLineString, routes as LineString).
 *
 * The XML reader itself is not modelled: a document arrives as the raw
 * readings of its `trk`/`trkseg`/`trkpt` and `rte`/`rtept` elements.
 */
module Gpx {
  import opened Wrappers
  import Text

  /** What parsing an attribute or element text as a number gave. */
  datatype Reading<T> =
    | Absent            // no such attribute/element, or an empty text
    | NotANumber        // present, but parses to NaN
    | Number(value: T)

  datatype RawPoint = RawPoint(lat: Reading<real>, lon: Reading<real>, ele: Reading<real>, time: Reading<int>)
  datatype RawTrack = RawTrack(name: Option<string>, segments: seq<seq<RawPoint>>)
  datatype RawRoute = RawRoute(name: Option<string>, points: seq<RawPoint>)
  datatype RawDoc = RawDoc(tracks: seq<RawTrack>, routes: seq<RawRoute>)

  /**
   * A kept point. `lon == None` and `ele == None` stand for NaN (the
   * longitude is never checked; an elevation text that is not a number);
   * `time == None` is a missing or unreadable time, in milliseconds otherwise.
   */
  datatype Point = Point(lat: real, lon: Option<real>, ele: Option<real>, time: Option<int>)
  datatype Track = Track(name: string, segments: seq<seq<Point>>)
  datatype Route = Route(name: string, points: seq<Point>)

  datatype Geometry = LineString(points: seq<Point>) | MultiLineString(segments: seq<seq<Point>>)
  datatype Feature = Feature(name: string, geometry: Geometry)

  /** `Array.prototype.flat()` on a list of segments. */
  function Flatten(segments: seq<seq<Point>>): (r: seq<Point>)
    decreases |segments|
  {
    if segments == [] then [] else Flatten(segments[..|segments| - 1]) + segments[|segments| - 1]
  }

  lemma {:induction false} FlattenNonEmpty(segments: seq<seq<Point>>)
    requires |segments| > 0 && |segments[|segments| - 1]| > 0
    ensures |Flatten(segments)| > 0
  {
  }

  /** The point list a feature is walked along: a MultiLineString is flattened. */
  function Coords(f: Feature): seq<Point>
  {
    match f.geometry
    case LineString(points) => points
    case MultiLineString(segments) => Flatten(segments)
  }

  /** One `trkpt`/`rtept` turned into a point (its latitude is checked by the caller). */
  function ToPoint(raw: RawPoint): (p: Point)
    requires raw.lat.Number?
    ensures p.lat == raw.lat.value
    ensures raw.ele.Absent? ==> p.ele == Some(0.0)
    ensures raw.time.Absent? ==> p.time == None
    ensures raw.lon.Number? ==> p.lon == Some(raw.lon.value)
    ensures raw.ele.Number? ==> p.ele == Some(raw.ele.value)
    ensures raw.ele.NotANumber? ==> p.ele == None
    ensures raw.time.Number? ==> p.time == Some(raw.time.value)
    ensures !raw.lon.Number? ==> p.lon == None
    ensures !raw.time.Number? ==> p.time == None
  {
    Point(
      raw.lat.value,
      if raw.lon.Number? then Some(raw.lon.value) else None,
      match raw.ele
        case Absent => Some(0.0)
        case NotANumber => None
        case Number(v) => Some(v),
      if raw.time.Number? then Some(raw.time.value) else None)
  }

  /** `parsePoints`: the points in order, keeping exactly those whose latitude is a number. */
  function ParsePoints(raws: seq<RawPoint>): (r: seq<Point>)
    ensures |r| <= |raws|
    decreases |raws|
  {
    if raws == [] then []
    else
      var n := |raws| - 1;
      ParsePoints(raws[..n]) + (if raws[n].lat.Number? then [ToPoint(raws[n])] else [])
  }

  /** Some raw point of the list has a numeric latitude. */
  predicate KeepsAPoint(raws: seq<RawPoint>)
  {
    exists i :: 0 <= i < |raws| && raws[i].lat.Number?
  }

  /** Some segment of the track keeps a point. */
  predicate TrackKeeps(t: RawTrack)
  {
    exists s :: 0 <= s < |t.segments| && KeepsAPoint(t.segments[s])
  }

  /** A file yields a route record exactly when some segment or route keeps a point. */
  predicate HasUsablePoint(doc: RawDoc)
  {
    (exists k :: 0 <= k < |doc.tracks| && TrackKeeps(doc.tracks[k]))
    || (exists k :: 0 <= k < |doc.routes| && KeepsAPoint(doc.routes[k].points))
  }

  /** Nothing is dropped exactly when every latitude is a number. */
  lemma {:induction false} ParsePointsAll(raws: seq<RawPoint>)
    ensures |ParsePoints(raws)| == |raws| <==> forall i :: 0 <= i < |raws| ==> raws[i].lat.Number?
    decreases |raws|
  {
    if raws != [] {
      var n := |raws| - 1;
      ParsePointsAll(raws[..n]);
      if forall i :: 0 <= i < |raws| ==> raws[i].lat.Number? {
        forall i | 0 <= i < n ensures raws[..n][i].lat.Number? {
          assert raws[..n][i] == raws[i];
        }
      } else if raws[n].lat.Number? {
        var i :| 0 <= i < |raws| && !raws[i].lat.Number?;
        assert raws[..n][i] == raws[i];
      }
    }
  }

  /** Nothing is kept exactly when no latitude is a number. */
  lemma {:induction false} ParsePointsNone(raws: seq<RawPoint>)
    ensures ParsePoints(raws) == [] <==> !KeepsAPoint(raws)
    decreases |raws|
  {
    if raws != [] {
      var n := |raws| - 1;
      ParsePointsNone(raws[..n]);
      if KeepsAPoint(raws[..n]) {
        var i :| 0 <= i < n && raws[..n][i].lat.Number?;
        assert raws[i] == raws[..n][i];
      }
      if KeepsAPoint(raws) && !raws[n].lat.Number? {
        var i :| 0 <= i < |raws| && raws[i].lat.Number?;
        assert raws[..n][i] == raws[i];
      }
    }
  }

  /** Every raw point with a numeric latitude is kept. */
  lemma {:induction false} ParsePointsKeeps(raws: seq<RawPoint>, i: nat)
    requires i < |raws| && raws[i].lat.Number?
    ensures ToPoint(raws[i]) in ParsePoints(raws)
    decreases |raws|
  {
    var n := |raws| - 1;
    if i < n {
      assert raws[..n][i] == raws[i];
      ParsePointsKeeps(raws[..n], i);
    }
  }

  /** Every kept point comes from a raw point with a numeric latitude. */
  lemma {:induction false} ParsePointsSource(raws: seq<RawPoint>, p: Point)
    requires p in ParsePoints(raws)
    ensures exists i :: 0 <= i < |raws| && raws[i].lat.Number? && ToPoint(raws[i]) == p
    decreases |raws|
  {
    var n := |raws| - 1;
    if p in ParsePoints(raws[..n]) {
      ParsePointsSource(raws[..n], p);
      var i :| 0 <= i < n && raws[..n][i].lat.Number? && ToPoint(raws[..n][i]) == p;
      assert raws[i] == raws[..n][i];
    } else {
      assert raws[n].lat.Number? && ToPoint(raws[n]) == p;
    }
  }

  /** Filtering is done point by point, so it distributes over concatenation. */
  lemma {:induction false} ParsePointsAppend(a: seq<RawPoint>, b: seq<RawPoint>)
    ensures ParsePoints(a + b) == ParsePoints(a) + ParsePoints(b)
    decreases |b|
  {
    if b == [] {
      assert a + b == a;
    } else {
      var n := |b| - 1;
      assert (a + b)[..|a| + n] == a + b[..n];
      assert (a + b)[|a| + n] == b[n];
      ParsePointsAppend(a, b[..n]);
    }
  }

  /** `name?.textContent || fallback`: an absent or empty name falls back. */
  function NameOr(name: Option<string>, fallback: string): (r: string)
    ensures (name.Some? && name.value != "") ==> r == name.value
    ensures (name.None? || name.value == "") ==> r == fallback
  {
    if name.Some? && name.value != "" then name.value else fallback
  }

  /** The segments of one track, parsed, with the empty ones removed. */
  function ParseSegments(segs: seq<seq<RawPoint>>): (r: seq<seq<Point>>)
    ensures |r| <= |segs|
    decreases |segs|
  {
    if segs == [] then []
    else
      var n := |segs| - 1;
      var pts := ParsePoints(segs[n]);
      ParseSegments(segs[..n]) + (if |pts| > 0 then [pts] else [])
  }

  /**
   * Every kept segment is non-empty, and it is the parsed point list of a
   * raw segment that has a point with a numeric latitude.
   */
  lemma {:induction false} ParseSegmentsNonEmpty(segs: seq<seq<RawPoint>>, k: nat)
    requires k < |ParseSegments(segs)|
    ensures |ParseSegments(segs)[k]| > 0
    ensures exists j :: 0 <= j < |segs| && KeepsAPoint(segs[j]) && ParseSegments(segs)[k] == ParsePoints(segs[j])
    decreases |segs|
  {
    var n := |segs| - 1;
    var rest := ParseSegments(segs[..n]);
    if k < |rest| {
      assert ParseSegments(segs)[k] == rest[k];
      ParseSegmentsNonEmpty(segs[..n], k);
      var j :| 0 <= j < n && KeepsAPoint(segs[..n][j]) && rest[k] == ParsePoints(segs[..n][j]);
      assert segs[..n][j] == segs[j];
    } else {
      ParsePointsNone(segs[n]);
    }
  }

  /** Every raw segment with a point whose latitude is a number is kept, as its own parsed points. */
  lemma {:induction false} ParseSegmentsKeeps(segs: seq<seq<RawPoint>>, s: nat)
    requires s < |segs| && KeepsAPoint(segs[s])
    ensures ParsePoints(segs[s]) in ParseSegments(segs)
    decreases |segs|
  {
    var n := |segs| - 1;
    if s < n {
      assert segs[..n][s] == segs[s];
      ParseSegmentsKeeps(segs[..n], s);
    } else {
      ParsePointsNone(segs[n]);
    }
  }

  /** The segment filter works segment by segment, so it keeps the order of the segments. */
  lemma {:induction false} ParseSegmentsAppend(a: seq<seq<RawPoint>>, b: seq<seq<RawPoint>>)
    ensures ParseSegments(a + b) == ParseSegments(a) + ParseSegments(b)
    decreases |b|
  {
    if b == [] {
      assert a + b == a;
    } else {
      var n := |b| - 1;
      var pts := ParsePoints(b[n]);
      var last := if |pts| > 0 then [pts] else [];
      assert (a + b)[..|a| + n] == a + b[..n];
      assert (a + b)[|a| + n] == b[n];
      assert ParseSegments(a + b) == ParseSegments(a + b[..n]) + last;
      assert ParseSegments(b) == ParseSegments(b[..n]) + last;
      ParseSegmentsAppend(a, b[..n]);
    }
  }

  /** A list of segments keeps a segment exactly when one of them keeps a point. */
  lemma {:induction false} SegmentsKeepAPoint(segs: seq<seq<RawPoint>>)
    ensures ParseSegments(segs) != [] <==> exists s :: 0 <= s < |segs| && KeepsAPoint(segs[s])
    decreases |segs|
  {
    if segs != [] {
      var n := |segs| - 1;
      ParsePointsNone(segs[n]);
      SegmentsKeepAPoint(segs[..n]);
      if exists s :: 0 <= s < n && KeepsAPoint(segs[..n][s]) {
        var s :| 0 <= s < n && KeepsAPoint(segs[..n][s]);
        assert segs[s] == segs[..n][s];
      }
      if !KeepsAPoint(segs[n]) && exists s :: 0 <= s < |segs| && KeepsAPoint(segs[s]) {
        var s :| 0 <= s < |segs| && KeepsAPoint(segs[s]);
        assert segs[..n][s] == segs[s];
      }
    }
  }

  /** A well-formed parsed track: at least one segment, and no empty segment. */
  predicate NonEmptyTrack(t: Track)
  {
    |t.segments| > 0 && forall k :: 0 <= k < |t.segments| ==> |t.segments[k]| > 0
  }

  /** One `trk` parsed: its own name or the file's default, and its non-empty segments. */
  function TrackOf(raw: RawTrack, index: nat): Track
  {
    Track(NameOr(raw.name, Text.DefaultName("Track", index)), ParseSegments(raw.segments))
  }

  /** The track list of a file (`index` is the file's position, used for default names). */
  function ParseTracks(raws: seq<RawTrack>, index: nat): (r: seq<Track>)
    ensures |r| <= |raws|
    decreases |raws|
  {
    if raws == [] then []
    else
      var n := |raws| - 1;
      var t := TrackOf(raws[n], index);
      ParseTracks(raws[..n], index) + (if |t.segments| > 0 then [t] else [])
  }

  /**
   * Every kept track has a segment and no empty segment, and it is one raw
   * track that keeps a point, parsed with its own name and its own segments.
   */
  lemma {:induction false} ParseTracksNonEmpty(raws: seq<RawTrack>, index: nat, k: nat)
    requires k < |ParseTracks(raws, index)|
    ensures NonEmptyTrack(ParseTracks(raws, index)[k])
    ensures exists j :: 0 <= j < |raws| && TrackKeeps(raws[j]) && ParseTracks(raws, index)[k] == TrackOf(raws[j], index)
    decreases |raws|
  {
    var n := |raws| - 1;
    var rest := ParseTracks(raws[..n], index);
    if k < |rest| {
      assert ParseTracks(raws, index)[k] == rest[k];
      ParseTracksNonEmpty(raws[..n], index, k);
      var j :| 0 <= j < n && TrackKeeps(raws[..n][j]) && rest[k] == TrackOf(raws[..n][j], index);
      assert raws[..n][j] == raws[j];
    } else {
      var segs := ParseSegments(raws[n].segments);
      forall j | 0 <= j < |segs| ensures |segs[j]| > 0 {
        ParseSegmentsNonEmpty(raws[n].segments, j);
      }
      SegmentsKeepAPoint(raws[n].segments);
    }
  }

  /** Every raw track with a segment that keeps a point is kept, with its own name and segments. */
  lemma {:induction false} ParseTracksKeeps(raws: seq<RawTrack>, index: nat, k: nat)
    requires k < |raws| && TrackKeeps(raws[k])
    ensures TrackOf(raws[k], index) in ParseTracks(raws, index)
    decreases |raws|
  {
    var n := |raws| - 1;
    if k < n {
      assert raws[..n][k] == raws[k];
      ParseTracksKeeps(raws[..n], index, k);
    } else {
      SegmentsKeepAPoint(raws[n].segments);
    }
  }

  /** The track filter works track by track, so it keeps the order of the tracks. */
  lemma {:induction false} ParseTracksAppend(a: seq<RawTrack>, b: seq<RawTrack>, index: nat)
    ensures ParseTracks(a + b, index) == ParseTracks(a, index) + ParseTracks(b, index)
    decreases |b|
  {
    if b == [] {
      assert a + b == a;
    } else {
      var n := |b| - 1;
      var item := TrackOf(b[n], index);
      var last := if |item.segments| > 0 then [item] else [];
      assert (a + b)[..|a| + n] == a + b[..n];
      assert (a + b)[|a| + n] == b[n];
      assert ParseTracks(a + b, index) == ParseTracks(a + b[..n], index) + last;
      assert ParseTracks(b, index) == ParseTracks(b[..n], index) + last;
      ParseTracksAppend(a, b[..n], index);
    }
  }

  /** Some track is kept exactly when some segment of some track keeps a point. */
  lemma {:induction false} TracksKept(raws: seq<RawTrack>, index: nat)
    ensures ParseTracks(raws, index) != [] <==> exists k :: 0 <= k < |raws| && TrackKeeps(raws[k])
    decreases |raws|
  {
    if raws != [] {
      var n := |raws| - 1;
      SegmentsKeepAPoint(raws[n].segments);
      TracksKept(raws[..n], index);
      if exists k :: 0 <= k < n && TrackKeeps(raws[..n][k]) {
        var k :| 0 <= k < n && TrackKeeps(raws[..n][k]);
        assert raws[k] == raws[..n][k];
      }
      if ParseSegments(raws[n].segments) == [] && exists k :: 0 <= k < |raws| && TrackKeeps(raws[k]) {
        var k :| 0 <= k < |raws| && TrackKeeps(raws[k]);
        assert raws[..n][k] == raws[k];
      }
    }
  }

  /** One `rte` parsed: its own name or the file's default, and its points. */
  function RouteOf(raw: RawRoute, index: nat): Route
  {
    Route(NameOr(raw.name, Text.DefaultName("Route", index)), ParsePoints(raw.points))
  }

  /** The route list of a file (`index` is the file's position, used for default names). */
  function ParseRoutes(raws: seq<RawRoute>, index: nat): (r: seq<Route>)
    ensures |r| <= |raws|
    decreases |raws|
  {
    if raws == [] then []
    else
      var n := |raws| - 1;
      var rt := RouteOf(raws[n], index);
      ParseRoutes(raws[..n], index) + (if |rt.points| > 0 then [rt] else [])
  }

  /**
   * Every kept route has a point, and it is one raw route that keeps a
   * point, parsed with its own name and its own points.
   */
  lemma {:induction false} ParseRoutesNonEmpty(raws: seq<RawRoute>, index: nat, k: nat)
    requires k < |ParseRoutes(raws, index)|
    ensures |ParseRoutes(raws, index)[k].points| > 0
    ensures exists j :: 0 <= j < |raws| && KeepsAPoint(raws[j].points) && ParseRoutes(raws, index)[k] == RouteOf(raws[j], index)
    decreases |raws|
  {
    var n := |raws| - 1;
    var rest := ParseRoutes(raws[..n], index);
    if k < |rest| {
      assert ParseRoutes(raws, index)[k] == rest[k];
      ParseRoutesNonEmpty(raws[..n], index, k);
      var j :| 0 <= j < n && KeepsAPoint(raws[..n][j].points) && rest[k] == RouteOf(raws[..n][j], index);
      assert raws[..n][j] == raws[j];
    } else {
      ParsePointsNone(raws[n].points);
    }
  }

  /** Every raw route with a point whose latitude is a number is kept, with its own name and points. */
  lemma {:induction false} ParseRoutesKeeps(raws: seq<RawRoute>, index: nat, k: nat)
    requires k < |raws| && KeepsAPoint(raws[k].points)
    ensures RouteOf(raws[k], index) in ParseRoutes(raws, index)
    decreases |raws|
  {
    var n := |raws| - 1;
    if k < n {
      assert raws[..n][k] == raws[k];
      ParseRoutesKeeps(raws[..n], index, k);
    } else {
      ParsePointsNone(raws[n].points);
    }
  }

  /** The route filter works route by route, so it keeps the order of the routes. */
  lemma {:induction false} ParseRoutesAppend(a: seq<RawRoute>, b: seq<RawRoute>, index: nat)
    ensures ParseRoutes(a + b, index) == ParseRoutes(a, index) + ParseRoutes(b, index)
    decreases |b|
  {
    if b == [] {
      assert a + b == a;
    } else {
      var n := |b| - 1;
      var item := RouteOf(b[n], index);
      var last := if |item.points| > 0 then [item] else [];
      assert (a + b)[..|a| + n] == a + b[..n];
      assert (a + b)[|a| + n] == b[n];
      assert ParseRoutes(a + b, index) == ParseRoutes(a + b[..n], index) + last;
      assert ParseRoutes(b, index) == ParseRoutes(b[..n], index) + last;
      ParseRoutesAppend(a, b[..n], index);
    }
  }

  /** Some route is kept exactly when some route keeps a point. */
  lemma {:induction false} RoutesKept(raws: seq<RawRoute>, index: nat)
    ensures ParseRoutes(raws, index) != [] <==> exists k :: 0 <= k < |raws| && KeepsAPoint(raws[k].points)
    decreases |raws|
  {
    if raws != [] {
      var n := |raws| - 1;
      ParsePointsNone(raws[n].points);
      RoutesKept(raws[..n], index);
      if exists k :: 0 <= k < n && KeepsAPoint(raws[..n][k].points) {
        var k :| 0 <= k < n && KeepsAPoint(raws[..n][k].points);
        assert raws[k] == raws[..n][k];
      }
      if ParsePoints(raws[n].points) == [] && exists k :: 0 <= k < |raws| && KeepsAPoint(raws[k].points) {
        var k :| 0 <= k < |raws| && KeepsAPoint(raws[k].points);
        assert raws[..n][k] == raws[k];
      }
    }
  }

  /** `addFeatures(tracks, false); addFeatures(routes, true)`. */
  function BuildFeatures(tracks: seq<Track>, routes: seq<Route>): (r: seq<Feature>)
    ensures |r| == |tracks| + |routes|
  {
    TrackFeatures(tracks) + RouteFeatures(routes)
  }

  /** One MultiLineString feature per track, in order. */
  function TrackFeatures(tracks: seq<Track>): (r: seq<Feature>)
    ensures |r| == |tracks|
    decreases |tracks|
  {
    if tracks == [] then []
    else
      var t := tracks[|tracks| - 1];
      TrackFeatures(tracks[..|tracks| - 1]) + [Feature(t.name, MultiLineString(t.segments))]
  }

  /** One LineString feature per route, in order. */
  function RouteFeatures(routes: seq<Route>): (r: seq<Feature>)
    ensures |r| == |routes|
    decreases |routes|
  {
    if routes == [] then []
    else
      var rt := routes[|routes| - 1];
      RouteFeatures(routes[..|routes| - 1]) + [Feature(rt.name, LineString(rt.points))]
  }

  lemma {:induction false} TrackFeatureAt(tracks: seq<Track>, k: nat)
    requires k < |tracks|
    ensures TrackFeatures(tracks)[k] == Feature(tracks[k].name, MultiLineString(tracks[k].segments))
    decreases |tracks|
  {
    var n := |tracks| - 1;
    if k < n {
      TrackFeatureAt(tracks[..n], k);
    }
  }

  lemma {:induction false} RouteFeatureAt(routes: seq<Route>, k: nat)
    requires k < |routes|
    ensures RouteFeatures(routes)[k] == Feature(routes[k].name, LineString(routes[k].points))
    decreases |routes|
  {
    var n := |routes| - 1;
    if k < n {
      RouteFeatureAt(routes[..n], k);
    }
  }

  /**
   * The features of a file: its tracks first, in order, each flattened to
   * one point list, then its routes, in order, with their own names.
   */
  lemma {:induction false} BuildFeaturesAt(tracks: seq<Track>, routes: seq<Route>, k: nat)
    requires k < |tracks| + |routes|
    ensures k < |tracks|
      ==> BuildFeatures(tracks, routes)[k] == Feature(tracks[k].name, MultiLineString(tracks[k].segments))
    ensures k >= |tracks|
      ==> BuildFeatures(tracks, routes)[k] == Feature(routes[k - |tracks|].name, LineString(routes[k - |tracks|].points))
  {
    if k < |tracks| {
      TrackFeatureAt(tracks, k);
    } else {
      RouteFeatureAt(routes, k - |tracks|);
    }
  }

  /**
   * The geometry a file contributes, or `None` when it yields no track and
   * no route (then the file adds no route record).
   */
  function LoadFeatures(doc: RawDoc, index: nat): (r: Option<seq<Feature>>)
    ensures r.None? <==> ParseTracks(doc.tracks, index) == [] && ParseRoutes(doc.routes, index) == []
    ensures r.Some? ==> |r.value| == |ParseTracks(doc.tracks, index)| + |ParseRoutes(doc.routes, index)| > 0
  {
    var tracks := ParseTracks(doc.tracks, index);
    var routes := ParseRoutes(doc.routes, index);
    if |tracks| == 0 && |routes| == 0 then None else Some(BuildFeatures(tracks, routes))
  }

  lemma {:induction false} LoadFeaturesSome(doc: RawDoc, index: nat)
    ensures LoadFeatures(doc, index).Some? <==> HasUsablePoint(doc)
  {
    TracksKept(doc.tracks, index);
    RoutesKept(doc.routes, index);
  }

  /** Tracks and routes with points give features with points. */
  lemma {:induction false} BuiltFeaturesNonEmpty(tracks: seq<Track>, routes: seq<Route>)
    requires forall k :: 0 <= k < |tracks| ==> NonEmptyTrack(tracks[k])
    requires forall k :: 0 <= k < |routes| ==> |routes[k].points| > 0
    ensures forall k :: 0 <= k < |BuildFeatures(tracks, routes)| ==> |Coords(BuildFeatures(tracks, routes)[k])| > 0
  {
    var fs := BuildFeatures(tracks, routes);
    forall k | 0 <= k < |fs| ensures |Coords(fs[k])| > 0 {
      BuildFeaturesAt(tracks, routes, k);
      if k < |tracks| {
        var segs := tracks[k].segments;
        assert NonEmptyTrack(tracks[k]);
        FlattenNonEmpty(segs);
        assert Coords(fs[k]) == Flatten(segs);
      } else {
        assert Coords(fs[k]) == routes[k - |tracks|].points;
      }
    }
  }

  /**
   * Every feature of a loaded file has at least one point, so the statistics
   * walk never meets an empty coordinate list for loaded data; tracks come
   * first, then routes.
   */
  lemma {:induction false} LoadedFeaturesNonEmpty(doc: RawDoc, index: nat)
    requires LoadFeatures(doc, index).Some?
    ensures var fs := LoadFeatures(doc, index).value;
      |fs| == |ParseTracks(doc.tracks, index)| + |ParseRoutes(doc.routes, index)| > 0
      && forall k :: 0 <= k < |fs| ==> |Coords(fs[k])| > 0
  {
    var tracks := ParseTracks(doc.tracks, index);
    var routes := ParseRoutes(doc.routes, index);
    forall k | 0 <= k < |tracks| ensures NonEmptyTrack(tracks[k]) {
      ParseTracksNonEmpty(doc.tracks, index, k);
    }
    forall k | 0 <= k < |routes| ensures |routes[k].points| > 0 {
      ParseRoutesNonEmpty(doc.routes, index, k);
    }
    BuiltFeaturesNonEmpty(tracks, routes);
  }
}
