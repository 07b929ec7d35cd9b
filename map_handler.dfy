/**
 * `GPXMapHandler` without its map, chart and DOM: the palette and the
 * colour counter, the per-route statistics and data keyed by file index,
 * the order in which route layers were added, and the loops that load
 * files, compute statistics, build the elevation profile and sum the
 * statistics of the visible routes. Whether a route's layer is on the map
 * is the caller's predicate `visible`.
 */
module MapHandler {
  import opened Wrappers
  import opened Gpx
  import opened Statistics
  import opened Profile
  import opened Aggregate
  import opened Palette
  import Text

  /** What `routeData` holds per route. */
  datatype RouteData = RouteData(geojson: seq<Feature>, color: string, originalFile: string) {
    /** The `name` entry: always `getFileName(originalFile)`, so it is derived rather than stored. */
    function Name(): string { Text.GetFileName(originalFile) }
  }

  predicate Distinct(ids: seq<int>)
  {
    forall i, j :: 0 <= i < j < |ids| ==> ids[i] != ids[j]
  }

  // ---------------------------------------------------------------------
  // Loading order and colours

  /** A fetched document that yields at least one track or route. */
  predicate Yields(doc: Option<RawDoc>)
  {
    doc.Some? && HasUsablePoint(doc.value)
  }

  /** How many of the documents yield a route. */
  function YieldCount(docs: seq<Option<RawDoc>>): (n: nat)
    ensures n <= |docs|
    decreases |docs|
  {
    if docs == [] then 0
    else YieldCount(docs[..|docs| - 1]) + (if Yields(docs[|docs| - 1]) then 1 else 0)
  }

  // ---------------------------------------------------------------------
  // Visiting routes in ascending id order

  lemma {:induction false} NonEmptyHasMember(s: set<int>)
    requires s != {}
    ensures exists y :: y in s
  {
    if forall y :: y !in s {
      assert false;
    }
  }

  ghost function MinOf(s: set<int>): (m: int)
    requires s != {}
    ensures m in s && forall k :: k in s ==> m <= k
    decreases s
  {
    NonEmptyHasMember(s);
    var x :| x in s;
    var rest := s - {x};
    if rest == {} then
      assert forall k :: k in s ==> k in rest || k == x;
      x
    else
      var m := MinOf(rest);
      assert forall k :: k in s ==> k in rest || k == x;
      if x < m then x else m
  }

  /** The ids sorted ascending (`Array.from(keys).sort((a, b) => a - b)`). */
  ghost function AscendingKeys(s: set<int>): seq<int>
    decreases s
  {
    if s == {} then []
    else
      var m := MinOf(s);
      [m] + AscendingKeys(s - {m})
  }

  /** The sorted ids are exactly the ids of the set, strictly ascending. */
  lemma {:induction false} AscendingKeysSpec(s: set<int>)
    ensures forall k :: k in s <==> k in AscendingKeys(s)
    ensures forall i, j :: 0 <= i < j < |AscendingKeys(s)| ==> AscendingKeys(s)[i] < AscendingKeys(s)[j]
    decreases s
  {
    if s != {} {
      var m := MinOf(s);
      var rest := AscendingKeys(s - {m});
      AscendingKeysSpec(s - {m});
      var r := [m] + rest;
      assert AscendingKeys(s) == r;
      forall k ensures k in s <==> k in r {
        assert k in r <==> k == m || k in rest;
      }
      forall i, j | 0 <= i < j < |r| ensures r[i] < r[j] {
        assert r[j] == rest[j - 1];
        if i > 0 {
          assert r[i] == rest[i - 1];
        } else {
          assert rest[j - 1] in rest;
          assert r[i] == m;
        }
      }
    }
  }

  /** `Array.from(keys).sort((a, b) => a - b)`: the ids taken smallest first. */
  method SortKeys(keys: set<int>) returns (ids: seq<int>)
    ensures ids == AscendingKeys(keys)
  {
    ids := [];
    var remaining := keys;
    while remaining != {}
      invariant ids + AscendingKeys(remaining) == AscendingKeys(keys)
      decreases remaining
    {
      ghost var least := MinOf(remaining);
      var id :| id in remaining && forall k :: k in remaining ==> id <= k;
      assert id == least;
      assert AscendingKeys(remaining) == [id] + AscendingKeys(remaining - {id});
      assert ids + AscendingKeys(remaining) == (ids + [id]) + AscendingKeys(remaining - {id});
      remaining := remaining - {id};
      ids := ids + [id];
    }
    assert ids + AscendingKeys(remaining) == ids;
  }

  /** The flattened point list of each feature. */
  function FeatureRuns(fs: seq<Feature>): seq<seq<Point>>
  {
    seq(|fs|, j requires 0 <= j < |fs| => Coords(fs[j]))
  }

  /** The point lists charted for the routes `ids`, skipping the hidden ones. */
  function VisibleRuns(data: map<int, RouteData>, visible: int -> bool, ids: seq<int>): seq<seq<Point>>
    decreases |ids|
  {
    if ids == [] then []
    else
      var id := ids[|ids| - 1];
      VisibleRuns(data, visible, ids[..|ids| - 1])
        + (if id in data && visible(id) then FeatureRuns(data[id].geojson) else [])
  }

  lemma {:induction false} FeatureRunsStep(fs: seq<Feature>, j: nat)
    requires j < |fs|
    ensures FeatureRuns(fs[..j]) + [Coords(fs[j])] == FeatureRuns(fs[..j + 1])
  {
    var a := FeatureRuns(fs[..j]) + [Coords(fs[j])];
    var b := FeatureRuns(fs[..j + 1]);
    assert |a| == |b|;
    forall k | 0 <= k < |a| ensures a[k] == b[k] {
      assert fs[..j + 1][k] == fs[k];
      if k < j {
        assert fs[..j][k] == fs[k];
      }
    }
  }

  lemma {:induction false} FeatureRunsAppend(before: seq<seq<Point>>, fs: seq<Feature>, j: nat)
    requires j < |fs|
    ensures (before + FeatureRuns(fs[..j])) + [Coords(fs[j])] == before + FeatureRuns(fs[..j + 1])
  {
    FeatureRunsStep(fs, j);
  }

  /** The charted point lists over one more id: that route's features when it is shown. */
  lemma {:induction false} VisibleRunsStep(data: map<int, RouteData>, visible: int -> bool, ids: seq<int>, i: nat)
    requires i < |ids|
    ensures ids[i] in data && visible(ids[i])
      ==> VisibleRuns(data, visible, ids[..i + 1]) == VisibleRuns(data, visible, ids[..i]) + FeatureRuns(data[ids[i]].geojson)
    ensures !(ids[i] in data && visible(ids[i]))
      ==> VisibleRuns(data, visible, ids[..i + 1]) == VisibleRuns(data, visible, ids[..i])
  {
    assert ids[..i + 1][..i] == ids[..i];
    var before := VisibleRuns(data, visible, ids[..i]);
    if !(ids[i] in data && visible(ids[i])) {
      assert before + [] == before;
    }
  }

  // ---------------------------------------------------------------------
  // Totals over visible routes

  /** The statistics of the visible routes among `ids`, in that order. */
  function VisibleStats(stats: map<int, RouteStats>, visible: int -> bool, ids: seq<int>): seq<RouteStats>
    decreases |ids|
  {
    if ids == [] then []
    else
      var id := ids[|ids| - 1];
      VisibleStats(stats, visible, ids[..|ids| - 1]) + (if id in stats && visible(id) then [stats[id]] else [])
  }

  /** The totals over one more id: that route's statistics are added when it is shown. */
  lemma {:induction false} VisibleStatsStep(stats: map<int, RouteStats>, visible: int -> bool, ids: seq<int>, i: nat)
    requires i < |ids|
    ensures TotalsOf(VisibleStats(stats, visible, ids[..i + 1]))
      == if ids[i] in stats && visible(ids[i])
         then AddRoute(TotalsOf(VisibleStats(stats, visible, ids[..i])), stats[ids[i]])
         else TotalsOf(VisibleStats(stats, visible, ids[..i]))
  {
    assert ids[..i + 1][..i] == ids[..i];
    var shown := VisibleStats(stats, visible, ids[..i]);
    if ids[i] in stats && visible(ids[i]) {
      var s := stats[ids[i]];
      assert VisibleStats(stats, visible, ids[..i + 1]) == shown + [s];
      assert (shown + [s])[..|shown|] == shown;
    } else {
      assert VisibleStats(stats, visible, ids[..i + 1]) == shown;
    }
  }

  /** Over distinct ids, one statistics record is summed per visible route. */
  lemma {:induction false} VisibleCount(stats: map<int, RouteStats>, visible: int -> bool, ids: seq<int>)
    requires Distinct(ids)
    ensures |VisibleStats(stats, visible, ids)| == |set id | id in ids && id in stats && visible(id)|
    decreases |ids|
  {
    if ids != [] {
      var init := ids[..|ids| - 1];
      var x := ids[|ids| - 1];
      VisibleCount(stats, visible, init);
      var before := set id | id in init && id in stats && visible(id);
      var after := set id | id in ids && id in stats && visible(id);
      assert x !in init;
      if x in stats && visible(x) {
        assert after == before + {x};
      } else {
        assert after == before;
      }
    }
  }

  /**
   * When the layers are exactly the stored routes, each once, one
   * statistics record is summed per visible stored route.
   */
  lemma {:induction false} VisibleLayers(stats: map<int, RouteStats>, data: map<int, RouteData>,
                                         visible: int -> bool, ids: seq<int>)
    requires Distinct(ids) && stats.Keys == data.Keys
    requires forall id :: id in data <==> id in ids
    ensures |VisibleStats(stats, visible, ids)| == |set id | id in data && visible(id)|
  {
    VisibleCount(stats, visible, ids);
    var shown := set id | id in ids && id in stats && visible(id);
    var stored := set id | id in data && visible(id);
    forall id ensures id in shown <==> id in stored {
      assert id in stats <==> id in data;
    }
    assert shown == stored;
  }

  /**
   * The loop of `calculateAndShowTotalStats` over the route layers in
   * insertion order: each shown layer is counted and its statistics added
   * to the four running sums.
   */
  method SumVisible(stats: map<int, RouteStats>, visible: int -> bool, ids: seq<int>) returns (totals: Totals)
    requires forall k :: 0 <= k < |ids| ==> ids[k] in stats
    ensures totals == TotalsOf(VisibleStats(stats, visible, ids))
  {
    var d, eg, eloss, c, time := 0.0, 0, 0, 0, 0;
    var i := 0;
    while i < |ids|
      invariant 0 <= i <= |ids|
      invariant Totals(c, d, eg, eloss, time) == TotalsOf(VisibleStats(stats, visible, ids[..i]))
    {
      var id := ids[i];
      VisibleStatsStep(stats, visible, ids, i);
      if visible(id) {
        var s := stats[id];
        c := c + 1;
        d := d + s.distance;
        eg := eg + s.elevationGain;
        eloss := eloss + s.elevationLoss;
        time := time + s.duration;
      }
      i := i + 1;
    }
    assert ids[..|ids|] == ids;
    totals := Totals(c, d, eg, eloss, time);
  }

  // ---------------------------------------------------------------------
  // Loading files

  /**
   * The route state of the handler as a value: colour counter, data and
   * layer order. The statistics are left out here, as they are a function
   * of the data (see `GpxMapHandler.StatsCurrent`).
   */
  datatype Handler = Handler(colorIndex: nat, routeData: map<int, RouteData>, layerIds: seq<int>)

  /**
   * What fetching and reading file number `index` gave: its features, or
   * `None` when the fetch failed (`loadSingleGPX` throws and `loadGPXFiles`
   * catches) or the file yields no track and no route.
   */
  function Outcome(fetched: Option<RawDoc>, index: nat): Option<seq<Feature>>
  {
    if fetched.None? then None else LoadFeatures(fetched.value, index)
  }

  lemma {:induction false} OutcomeSome(fetched: Option<RawDoc>, index: nat)
    ensures Outcome(fetched, index).Some? <==> Yields(fetched)
  {
    if fetched.Some? {
      LoadFeaturesSome(fetched.value, index);
    }
  }

  /** The outcome of every file, each read with its own position as index. */
  function Outcomes(docs: seq<Option<RawDoc>>): (r: seq<Option<seq<Feature>>>)
    ensures |r| == |docs|
    decreases |docs|
  {
    if docs == [] then [] else Outcomes(docs[..|docs| - 1]) + [Outcome(docs[|docs| - 1], |docs| - 1)]
  }

  lemma {:induction false} OutcomesAt(docs: seq<Option<RawDoc>>, i: nat)
    requires i < |docs|
    ensures Outcomes(docs)[i] == Outcome(docs[i], i)
    ensures Outcomes(docs)[..i] == Outcomes(docs[..i])
    decreases |docs|
  {
    var n := |docs| - 1;
    if i < n {
      OutcomesAt(docs[..n], i);
      assert docs[..n][i] == docs[i] && docs[..n][..i] == docs[..i];
      assert Outcomes(docs)[..i] == Outcomes(docs[..n])[..i];
    } else {
      assert docs[..n] == docs[..i];
    }
  }

  /** How many outcomes hold features. */
  function LoadedCount(loads: seq<Option<seq<Feature>>>): (n: nat)
    ensures n <= |loads|
    decreases |loads|
  {
    if loads == [] then 0
    else LoadedCount(loads[..|loads| - 1]) + (if loads[|loads| - 1].Some? then 1 else 0)
  }

  /** The files that yield a route are exactly those whose outcome holds features. */
  lemma {:induction false} LoadedCountOutcomes(docs: seq<Option<RawDoc>>)
    ensures LoadedCount(Outcomes(docs)) == YieldCount(docs)
    decreases |docs|
  {
    if docs != [] {
      var n := |docs| - 1;
      LoadedCountOutcomes(docs[..n]);
      OutcomeSome(docs[n], n);
      assert Outcomes(docs)[..n] == Outcomes(docs[..n]);
    }
  }

  /**
   * The record `loadSingleGPX` keeps for `file` with features `fs` while the
   * colour counter stands at `counter`: the palette colour it picks and
   * the file.
   */
  function Entry(colors: seq<string>, counter: nat, file: string, fs: seq<Feature>): (e: RouteData)
    requires |colors| > 0
    ensures e.color in colors && e.geojson == fs && e.originalFile == file
    ensures e.color == colors[counter % |colors|]
  {
    RouteData(fs, colors[counter % |colors|], file)
  }

  /**
   * `loadSingleGPX` after the fetch of file number `index`: features are
   * kept under `index` with the next palette colour and the file (its
   * display name derives from it), and the layer is set (a layer already under
   * `index` keeps its place); no features change nothing.
   */
  function LoadOne(colors: seq<string>, h: Handler, file: string, index: nat,
                   loaded: Option<seq<Feature>>): Handler
    requires |colors| > 0
  {
    match loaded
    case None => h
    case Some(fs) =>
      Handler(h.colorIndex + 1,
              h.routeData[index := Entry(colors, h.colorIndex, file, fs)],
              if index in h.layerIds then h.layerIds else h.layerIds + [index])
  }

  /** `loadGPXFiles`: the outcomes of the files, one after the other in order. */
  function LoadAll(colors: seq<string>, h: Handler, files: seq<string>,
                   loads: seq<Option<seq<Feature>>>): Handler
    requires |colors| > 0 && |files| == |loads|
    decreases |loads|
  {
    if loads == [] then h
    else
      var n := |loads| - 1;
      LoadOne(colors, LoadAll(colors, h, files[..n], loads[..n]), files[n], n, loads[n])
  }

  /** Loading one more file applies `LoadOne` to the state after the files before it. */
  lemma {:induction false} LoadAllLast(colors: seq<string>, h: Handler, files: seq<string>,
                                       loads: seq<Option<seq<Feature>>>)
    requires |colors| > 0 && |files| == |loads| && loads != []
    ensures var n := |loads| - 1;
      LoadAll(colors, h, files, loads)
      == LoadOne(colors, LoadAll(colors, h, files[..n], loads[..n]), files[n], n, loads[n])
  {
  }

  /** A file with features is stored under its own index with the current colour. */
  lemma {:induction false} LoadOneStores(colors: seq<string>, h: Handler, file: string, index: nat,
                                         fs: seq<Feature>)
    requires |colors| > 0
    ensures index in LoadOne(colors, h, file, index, Some(fs)).routeData
    ensures LoadOne(colors, h, file, index, Some(fs)).routeData[index] == Entry(colors, h.colorIndex, file, fs)
  {
  }

  /** Loading one file leaves the routes under other indices as they were. */
  lemma {:induction false} LoadOneKeeps(colors: seq<string>, h: Handler, file: string, index: nat,
                                        loaded: Option<seq<Feature>>, id: int)
    requires |colors| > 0 && id != index && id in h.routeData
    ensures id in LoadOne(colors, h, file, index, loaded).routeData
    ensures LoadOne(colors, h, file, index, loaded).routeData[id] == h.routeData[id]
  {
  }

  /** The colour counter advances once per file with features. */
  lemma {:induction false} LoadAllCount(colors: seq<string>, h: Handler, files: seq<string>,
                                        loads: seq<Option<seq<Feature>>>)
    requires |colors| > 0 && |files| == |loads|
    ensures LoadAll(colors, h, files, loads).colorIndex == h.colorIndex + LoadedCount(loads)
    decreases |loads|
  {
    if loads != [] {
      var n := |loads| - 1;
      LoadAllCount(colors, h, files[..n], loads[..n]);
    }
  }

  /** After loading, a route is kept under an id exactly when it was before or file `id` had features. */
  lemma {:induction false} LoadAllKeys(colors: seq<string>, h: Handler, files: seq<string>,
                                       loads: seq<Option<seq<Feature>>>, id: int)
    requires |colors| > 0 && |files| == |loads|
    ensures id in LoadAll(colors, h, files, loads).routeData
      <==> id in h.routeData || (0 <= id < |loads| && loads[id].Some?)
    decreases |loads|
  {
    if loads != [] {
      var n := |loads| - 1;
      LoadAllKeys(colors, h, files[..n], loads[..n], id);
      if 0 <= id < n {
        assert loads[..n][id] == loads[id];
      }
    }
  }

  /** The entry under `i` after one more file: the new one when `i` is that file's index, the old one otherwise. */
  lemma {:induction false} LoadOneEntry(colors: seq<string>, prev: Handler, file: string, index: nat,
                                        loaded: Option<seq<Feature>>, i: int, e: RouteData)
    requires |colors| > 0
    requires (i == index && loaded.Some? && e == Entry(colors, prev.colorIndex, file, loaded.value))
          || (i != index && i in prev.routeData && prev.routeData[i] == e)
    ensures i in LoadOne(colors, prev, file, index, loaded).routeData
    ensures LoadOne(colors, prev, file, index, loaded).routeData[i] == e
  {
    if i == index {
      LoadOneStores(colors, prev, file, index, loaded.value);
    } else {
      LoadOneKeeps(colors, prev, file, index, loaded, i);
    }
  }

  /**
   * File `i`, when it has features, ends up under `i` with those features,
   * its file, in the colour picked by its rank among the
   * files with features (counting on from the counter's start value),
   * cycling through the palette.
   */
  lemma {:induction false} LoadAllColours(colors: seq<string>, h: Handler, files: seq<string>,
                                          loads: seq<Option<seq<Feature>>>, i: nat)
    requires |colors| > 0 && |files| == |loads|
    requires i < |loads| && loads[i].Some?
    ensures i in LoadAll(colors, h, files, loads).routeData
    ensures LoadAll(colors, h, files, loads).routeData[i]
      == Entry(colors, h.colorIndex + LoadedCount(loads[..i]), files[i], loads[i].value)
    decreases |loads|
  {
    var n := |loads| - 1;
    var prev := LoadAll(colors, h, files[..n], loads[..n]);
    var e := Entry(colors, h.colorIndex + LoadedCount(loads[..i]), files[i], loads[i].value);
    var after := LoadOne(colors, prev, files[n], n, loads[n]);
    LoadAllLast(colors, h, files, loads);
    assert LoadAll(colors, h, files, loads) == after;
    if i == n {
      LoadAllCount(colors, h, files[..n], loads[..n]);
      assert loads[..i] == loads[..n];
      assert e == Entry(colors, prev.colorIndex, files[n], loads[n].value);
      LoadOneEntry(colors, prev, files[n], n, loads[n], i, e);
    } else {
      assert files[..n][i] == files[i] && loads[..n][i] == loads[i] && loads[..n][..i] == loads[..i];
      LoadAllColours(colors, h, files[..n], loads[..n], i);
      assert i in prev.routeData && prev.routeData[i] == e;
      LoadOneEntry(colors, prev, files[n], n, loads[n], i, e);
    }
    assert i in after.routeData && after.routeData[i] == e;
  }

  /**
   * The colours cycle: two files with features whose ranks among the files
   * with features differ by the palette size get the same colour.
   */
  lemma {:induction false} ColoursRepeat(colors: seq<string>, h: Handler, files: seq<string>,
                                         loads: seq<Option<seq<Feature>>>, i: nat, j: nat)
    requires |colors| > 0 && |files| == |loads|
    requires i < |loads| && loads[i].Some? && j < |loads| && loads[j].Some?
    requires LoadedCount(loads[..j]) == LoadedCount(loads[..i]) + |colors|
    ensures i in LoadAll(colors, h, files, loads).routeData && j in LoadAll(colors, h, files, loads).routeData
    ensures LoadAll(colors, h, files, loads).routeData[i].color == LoadAll(colors, h, files, loads).routeData[j].color
  {
    LoadAllColours(colors, h, files, loads, i);
    LoadAllColours(colors, h, files, loads, j);
    SlotAfterRound(h.colorIndex + LoadedCount(loads[..i]), |colors|);
  }

  // ---------------------------------------------------------------------

  class GpxMapHandler {
    /** `_getDistance`. */
    const distance: Distance
    /** `this.colors`. */
    const colors: seq<string>
    var colorIndex: nat
    var routeStats: map<int, RouteStats>
    var routeData: map<int, RouteData>
    /** The keys of `routeLayers`, in the order they were first set. */
    var layerIds: seq<int>

    /** The route state as a value. */
    function State(): Handler
      reads this
    {
      Handler(colorIndex, routeData, layerIds)
    }

    /** A non-empty palette; statistics, data and layers kept under the same ids, each layer once. */
    ghost predicate Indexed()
      reads this
    {
      && |colors| > 0
      && routeStats.Keys == routeData.Keys
      && (forall id :: id in routeData <==> id in layerIds)
      && Distinct(layerIds)
    }

    /** Every route's statistics are those of its features. */
    ghost predicate StatsCurrent()
      reads this
    {
      forall id :: id in routeData && id in routeStats ==> routeStats[id] == StatsOf(distance, routeData[id].geojson)
    }

    ghost predicate Valid()
      reads this
    {
      Indexed() && StatsCurrent()
    }

    constructor (configColors: Option<seq<string>>, distance: Distance)
      ensures Valid()
      ensures this.distance == distance && colors == ChoosePalette(configColors)
      ensures colorIndex == 0 && routeStats == map[] && routeData == map[] && layerIds == []
    {
      this.distance := distance;
      colors := ChoosePalette(configColors);
      colorIndex := 0;
      routeStats := map[];
      routeData := map[];
      layerIds := [];
    }

    /**
     * The `forEach` callback of `calculateRouteStats` for one feature, given
     * its flattened point list `coords`, on the running values it closes
     * over: a feature without points changes nothing; otherwise its first
     * and last times are offered to the start and end, and its points are
     * walked once.
     */
    method AddFeature(coords: seq<Point>, d: real, eg: real, el: real, hp: Option<real>, startTime: Option<int>, endTime: Option<int>)
      returns (d': real, eg': real, el': real, hp': Option<real>, startTime': Option<int>, endTime': Option<int>)
      ensures d' == d + PathLength(distance, coords)
      ensures eg' == eg + FeatureClimb(coords).gain && el' == el + FeatureClimb(coords).loss
      ensures hp' == Join(hp, PeakAlong(coords))
      ensures startTime' == EarlierTime(startTime, FirstTime(coords)) && endTime' == LaterTime(endTime, LastTime(coords))
    {
      d', eg', el', hp', startTime', endTime' := d, eg, el, hp, startTime, endTime;
      if |coords| == 0 {
        return;
      }
      startTime' := EarlierTime(startTime, coords[0].time);
      endTime' := LaterTime(endTime, coords[|coords| - 1].time);
      var prevEle := EleOf(coords[0]);
      WalkStart(distance, coords, hp);
      var i := 1;
      while i < |coords|
        invariant 1 <= i <= |coords|
        invariant d' == d + PathLength(distance, coords[..i])
        invariant hp' == Join(hp, PeakAlong(coords[..i]))
        invariant Climb(eg' - eg, el' - el, prevEle) == ClimbAlong(coords[..i])
      {
        WalkStep(distance, coords, i, hp);
        ghost var nextDist := d + PathLength(distance, coords[..i + 1]);
        ghost var nextPeak := Join(hp, PeakAlong(coords[..i + 1]));
        ghost var nextClimb := ClimbAlong(coords[..i + 1]);
        ghost var before := Climb(eg' - eg, el' - el, prevEle);
        d' := d' + distance(Pos(coords[i - 1]), Pos(coords[i]));
        assert d' == nextDist;
        var currentEle := EleOf(coords[i]);
        var diff := currentEle - prevEle;
        if Abs(diff) >= ElevationThreshold {
          if diff > 0.0 { eg' := eg' + diff; } else { el' := el' + Abs(diff); }
          prevEle := currentEle;
        }
        assert Climb(eg' - eg, el' - el, prevEle) == ClimbStep(before, currentEle) == nextClimb;
        hp' := Some(MaxOpt(hp', currentEle));
        assert hp' == nextPeak;
        i := i + 1;
      }
      assert coords[..|coords|] == coords;
    }

    /**
     * `calculateRouteStats`: the record of distance in kilometres, rounded
     * gain, loss and highest point, and duration, over all features.
     */
    method CalculateRouteStats(features: seq<Feature>) returns (stats: RouteStats)
      ensures stats == StatsOf(distance, features)
    {
      var d, eg, el := 0.0, 0.0, 0.0;
      var hp: Option<real> := None;
      var startTime: Option<int> := None;
      var endTime: Option<int> := None;
      var k := 0;
      while k < |features|
        invariant 0 <= k <= |features|
        invariant d == TotalDistance(distance, features[..k])
        invariant eg == TotalGain(features[..k]) && el == TotalLoss(features[..k])
        invariant hp == Highest(features[..k])
        invariant startTime == EarliestStart(features[..k]) && endTime == LatestEnd(features[..k])
      {
        FeatureStep(distance, features, k);
        d, eg, el, hp, startTime, endTime := AddFeature(Coords(features[k]), d, eg, el, hp, startTime, endTime);
        k := k + 1;
      }
      assert features[..|features|] == features;
      stats := RouteStats(d / 1000.0, Round(eg), Round(el), Round(if hp.Some? then hp.value else 0.0),
                          if startTime.Some? && endTime.Some? then endTime.value - startTime.value else 0);
    }

    /**
     * The part of `loadSingleGPX` after the statistics: the route takes the
     * next palette colour, and its statistics, data and layer are kept
     * under `index`.
     */
    method Store(index: int, geojson: seq<Feature>, stats: RouteStats, file: string)
      requires Valid() && stats == StatsOf(distance, geojson)
      modifies this
      ensures Valid()
      ensures colorIndex == old(colorIndex) + 1
      ensures routeData == old(routeData)[index := RouteData(geojson, colors[old(colorIndex) % |colors|], file)]
      ensures routeStats == old(routeStats)[index := stats]
      ensures layerIds == if index in old(layerIds) then old(layerIds) else old(layerIds) + [index]
    {
      routeStats := routeStats[index := stats];
      var nextColor := colors[colorIndex % |colors|];
      colorIndex := colorIndex + 1;
      routeData := routeData[index := RouteData(geojson, nextColor, file)];
      if index !in layerIds {
        layerIds := layerIds + [index];
      }
    }

    /**
     * `loadSingleGPX` for file number `index`; `fetched` is `None` when the
     * fetch failed. A document that yields a track or a route gets its
     * statistics, the next palette colour and its file under
     * `index`, and its layer is added; anything else leaves everything as it
     * was.
     */
    method LoadSingleGpx(file: string, index: nat, fetched: Option<RawDoc>) returns (added: bool)
      requires Valid()
      modifies this
      ensures Valid()
      ensures added <==> Yields(fetched)
      ensures State() == LoadOne(colors, old(State()), file, index, Outcome(fetched, index))
    {
      OutcomeSome(fetched, index);
      if fetched.None? {
        return false;
      }
      var loaded := LoadFeatures(fetched.value, index);
      if loaded.None? {
        return false;
      }
      var stats := CalculateRouteStats(loaded.value);
      Store(index, loaded.value, stats, file);
      added := true;
    }

    /**
     * `loadGPXFiles`, file by file in order; `docs[i]` is `None` when the
     * fetch of `files[i]` failed. The n-th file that yields a route (counting
     * from 0) gets colour n, continuing from the current counter, modulo the
     * palette size.
     */
    method LoadGpxFiles(files: seq<string>, docs: seq<Option<RawDoc>>)
      requires Valid() && |files| == |docs|
      modifies this
      ensures Valid()
      ensures State() == LoadAll(colors, old(State()), files, Outcomes(docs))
      ensures colorIndex == old(colorIndex) + YieldCount(docs)
    {
      var i := 0;
      while i < |files|
        invariant 0 <= i <= |files| && Valid()
        invariant State() == LoadAll(colors, old(State()), files[..i], Outcomes(docs[..i]))
      {
        ghost var loads := Outcomes(docs[..i + 1]);
        assert docs[..i + 1][..i] == docs[..i];
        assert loads[..i] == Outcomes(docs[..i]) && loads[i] == Outcome(docs[i], i);
        assert files[..i + 1][..i] == files[..i];
        var _ := LoadSingleGpx(files[i], i, docs[i]);
        i := i + 1;
      }
      assert files[..|files|] == files && docs[..|docs|] == docs;
      LoadAllCount(colors, old(State()), files, Outcomes(docs));
      LoadedCountOutcomes(docs);
    }

    /**
     * `_prepareElevationData`: the visible routes in ascending id order, each
     * feature's flattened points in order, one sample per point, with one
     * running distance that is not advanced at a feature's first point.
     */
    method PrepareElevationData(visible: int -> bool) returns (samples: seq<Sample>)
      ensures samples == ProfileOf(distance, VisibleRuns(routeData, visible, AscendingKeys(routeData.Keys)))
    {
      var ids := SortKeys(routeData.Keys);
      AscendingKeysSpec(routeData.Keys);
      samples := [];
      var totalDist := 0.0;
      var i := 0;
      while i < |ids|
        invariant 0 <= i <= |ids|
        invariant samples == ProfileOf(distance, VisibleRuns(routeData, visible, ids[..i]))
        invariant totalDist == RunsLength(distance, VisibleRuns(routeData, visible, ids[..i]))
      {
        var id := ids[i];
        VisibleRunsStep(routeData, visible, ids, i);
        if visible(id) {
          assert id in ids;
          totalDist, samples := WalkFeatures(routeData[id].geojson, VisibleRuns(routeData, visible, ids[..i]), totalDist, samples);
        }
        i := i + 1;
      }
      assert ids[..|ids|] == ids;
    }

    /**
     * `geojson.features.forEach` in `_prepareElevationData`: the flattened
     * points of each feature walked in turn, carrying the running distance
     * on from the profile drawn so far.
     */
    method WalkFeatures(fs: seq<Feature>, ghost before: seq<seq<Point>>, base: real, head: seq<Sample>)
      returns (total: real, samples: seq<Sample>)
      requires head == ProfileOf(distance, before) && base == RunsLength(distance, before)
      ensures samples == ProfileOf(distance, before + FeatureRuns(fs))
      ensures total == RunsLength(distance, before + FeatureRuns(fs))
    {
      total, samples := base, head;
      ghost var runs := before;
      var j := 0;
      while j < |fs|
        invariant 0 <= j <= |fs|
        invariant runs == before + FeatureRuns(fs[..j])
        invariant samples == ProfileOf(distance, runs)
        invariant total == RunsLength(distance, runs)
      {
        var coords := Coords(fs[j]);
        ProfileAppend(distance, runs, coords);
        total, samples := WalkRun(coords, total, samples);
        FeatureRunsAppend(before, fs, j);
        runs := runs + [coords];
        j := j + 1;
      }
      assert fs[..|fs|] == fs;
    }

    /**
     * The `for` loop over one feature's points in `_prepareElevationData`:
     * one sample per point, the leg from the previous point added to the
     * running distance before every point but the first.
     */
    method WalkRun(coords: seq<Point>, base: real, head: seq<Sample>) returns (total: real, samples: seq<Sample>)
      ensures total == base + PathLength(distance, coords)
      ensures samples == head + RunSamples(distance, base, coords)
    {
      total, samples := base, head;
      var i := 0;
      while i < |coords|
        invariant 0 <= i <= |coords|
        invariant total == base + PathLength(distance, coords[..i])
        invariant samples == head + RunSamples(distance, base, coords[..i])
      {
        RunSamplesStep(distance, base, coords, i);
        if i > 0 {
          total := total + distance(Pos(coords[i - 1]), Pos(coords[i]));
        }
        samples := samples + [Sample(total / 1000.0, EleOf(coords[i]), coords[i].lat, coords[i].lon)];
        i := i + 1;
      }
      assert coords[..|coords|] == coords;
    }

    /**
     * `calculateAndShowTotalStats` without its DOM output: the shown routes
     * counted and their statistics summed, in the order the layers were
     * added; the count is the number of shown stored routes.
     */
    method CalculateTotalStats(visible: int -> bool) returns (totals: Totals)
      requires Indexed()
      ensures totals == TotalsOf(VisibleStats(routeStats, visible, layerIds))
      ensures totals.count == |set id | id in routeData && visible(id)|
    {
      assert forall id :: id in routeData <==> id in layerIds;
      forall k | 0 <= k < |layerIds| ensures layerIds[k] in routeStats {
        assert layerIds[k] in layerIds;
      }
      totals := SumVisible(routeStats, visible, layerIds);
      VisibleLayers(routeStats, routeData, visible, layerIds);
    }
  }

  /** Before the second point, the walk of a feature has added nothing. */
  lemma {:induction false} WalkStart(dist: Distance, coords: seq<Point>, hp0: Option<real>)
    requires |coords| > 0
    ensures PathLength(dist, coords[..1]) == 0.0
    ensures ClimbAlong(coords[..1]) == Climb(0.0, 0.0, EleOf(coords[0]))
    ensures Join(hp0, PeakAlong(coords[..1])) == hp0
  {
  }

  /** The walk of a feature over one more point: one more leg, one more hysteresis step, one more candidate peak. */
  lemma {:induction false} WalkStep(dist: Distance, coords: seq<Point>, i: nat, hp0: Option<real>)
    requires 1 <= i < |coords|
    ensures PathLength(dist, coords[..i + 1]) == PathLength(dist, coords[..i]) + dist(Pos(coords[i - 1]), Pos(coords[i]))
    ensures ClimbAlong(coords[..i + 1]) == ClimbStep(ClimbAlong(coords[..i]), EleOf(coords[i]))
    ensures Join(hp0, PeakAlong(coords[..i + 1])) == Some(MaxOpt(Join(hp0, PeakAlong(coords[..i])), EleOf(coords[i])))
  {
    assert coords[..i + 1][..i] == coords[..i];
  }

  /** The statistics over one more feature. */
  lemma {:induction false} FeatureStep(dist: Distance, fs: seq<Feature>, k: nat)
    requires k < |fs|
    ensures TotalDistance(dist, fs[..k + 1]) == TotalDistance(dist, fs[..k]) + PathLength(dist, Coords(fs[k]))
    ensures TotalGain(fs[..k + 1]) == TotalGain(fs[..k]) + FeatureClimb(Coords(fs[k])).gain
    ensures TotalLoss(fs[..k + 1]) == TotalLoss(fs[..k]) + FeatureClimb(Coords(fs[k])).loss
    ensures Highest(fs[..k + 1]) == Join(Highest(fs[..k]), PeakAlong(Coords(fs[k])))
    ensures EarliestStart(fs[..k + 1]) == EarlierTime(EarliestStart(fs[..k]), FirstTime(Coords(fs[k])))
    ensures LatestEnd(fs[..k + 1]) == LaterTime(LatestEnd(fs[..k]), LastTime(Coords(fs[k])))
  {
    assert fs[..k + 1][..k] == fs[..k];
  }
}
