# GPX map handler: data core

This project models the data core of `GPXMapHandler`, the class behind the
Hugo GPX map module. It covers everything the class computes before it talks to
Leaflet, d3 or the DOM:

- **Reading a GPX document** (`loadSingleGPX`). Points whose latitude does not
  parse are dropped. Missing elevations become 0 and missing times become
  null. Empty segments, tracks without a non-empty segment and empty routes are
  removed. Missing names get `Track {index+1}` / `Route {index+1}`, where
  `index` is the file's position in the list. Tracks become MultiLineString
  features and routes become LineString features. A file that yields neither
  adds no route.
- **Route statistics** (`calculateRouteStats`). Each feature's flattened
  point list is walked once. The walk sums leg distances, counts elevation gain
  and loss with a 5 m hysteresis, keeps a running highest point and reads the
  first and last times. The distance is converted to kilometres; gain, loss
  and highest point are rounded.
- **Elevation profile** (`_prepareElevationData`). Visible routes are visited
  in ascending id order, with one cumulative-distance sample per point.
- **Bookkeeping.** This covers the palette and the colour counter, the
  per-route statistics and data maps, the totals over the visible routes,
  `getFileName` and `formatTime`.

Modules:

| file | module | content |
|---|---|---|
| `wrappers.dfy` | `Wrappers` | `Option` (JavaScript `null`/absent) |
| `text.dfy` | `Text` | decimal rendering, `padStart`, `formatTime`, `getFileName`, default names |
| `gpx.dfy` | `Gpx` | raw document, point/segment/track/route filters, features |
| `statistics.dfy` | `Statistics` | specification of `calculateRouteStats` |
| `profile.dfy` | `Profile` | specification of `_prepareElevationData` |
| `aggregate.dfy` | `Aggregate` | the totals record and its additivity |
| `palette.dfy` | `Palette` | palette fallback, and one round of the palette returning to the same slot |
| `map_handler.dfy` | `MapHandler` | class `GpxMapHandler` with the imperative loops, and the load fold |

Modelling decisions:

- `_getDistance` is the `Distance` type: any function from two positions to a
  non-negative real. The proofs rely only on sums and monotonicity.
- Numbers are `real`. `Math.round(x)` is `Floor(x + 0.5)`. A NaN longitude or
  elevation is `None`; a leg touching a NaN longitude is still a non-negative
  `Distance` value (see "Left out"). A `<time>` is an `Option<int>` of
  milliseconds, and an unreadable one is `None`. JavaScript truthiness of a
  time means present and non-zero.
- Whether a route's layer is on the map is the caller's predicate
  `visible: int -> bool`.
- The `name` that `routeData` stores is always `getFileName(originalFile)`.
  `RouteData.Name()` therefore derives it from the stored file instead of
  keeping a copy.
- The class keeps `routeStats` and `routeData` as `map`s and the keys of
  `routeLayers` as a `seq` in insertion order. That order is the order
  `calculateAndShowTotalStats` iterates in.

Four behaviours of the code worth noting, which the model follows:

- The highest point is taken over the points at positions 1.. of each
  feature, as the code's loop starts at `i = 1`. The first point of a feature,
  and a feature with a single point, never contribute.
- In the profile, the running distance is not advanced at the first point of a
  feature. The gap between features and between routes therefore adds nothing.
- `getFileName` removes the first `.gpx` anywhere in the last path segment,
  not only a suffix.
- Only the latitude of a point is checked. A point with an unreadable longitude
  is kept.

## Model

| member | source | states |
|---|---|---|
| `Text.NatToString` | assets/hugo-gpx-module/js/gpx-map.js:280 | the decimal rendering is non-empty digits, has a leading zero only for 0, and has one digit exactly below 10 |
| `Text.DigitsRoundTrip` | assets/hugo-gpx-module/js/gpx-map.js:280 | reading the decimal rendering back gives the number |
| `Text.PadStart2` | assets/hugo-gpx-module/js/gpx-map.js:280 | `padStart(2, '0')` has length max(2, n), ends with the input and has only zeros in front |
| `Text.PadStart2Value` | assets/hugo-gpx-module/js/gpx-map.js:280 | padding with zeros keeps the digit value |
| `Text.FormatTime` | assets/hugo-gpx-module/js/gpx-map.js:277-281 | a missing or non-positive value gives `--:--`; otherwise the text ends in `:MMh` |
| `Text.FormatTimeReadBack` | assets/hugo-gpx-module/js/gpx-map.js:277-281 | the clock shown reads back as hours = floor(ms/60000) div 60 and minutes = floor(ms/60000) mod 60; no clock for a missing or non-positive value |
| `Text.Clock` | assets/hugo-gpx-module/js/gpx-map.js:280 | `${h}:${pad(m)}h`: for minutes below 100 the text is at least six characters and ends in `:MMh` (`Text.ReadClockOfClock` states that it reads back as (h, m)) |
| `Text.ReadClockOfClock` | assets/hugo-gpx-module/js/gpx-map.js:280 | `HH:MMh` built from h and m < 100 reads back as (h, m) |
| `Text.LastSegment` | assets/hugo-gpx-module/js/gpx-map.js:375 | `split('/').pop()` is no longer than the path (`Text.LastSegmentSpec` states its content) |
| `Text.LastSegmentSpec` | assets/hugo-gpx-module/js/gpx-map.js:375 | `split('/').pop()` is the suffix of the path after its last `/` and holds no `/` |
| `Text.FindFromSpec` | assets/hugo-gpx-module/js/gpx-map.js:375 | the search finds the leftmost occurrence of the pattern, or reports that there is none |
| `Text.RemoveFirst` | assets/hugo-gpx-module/js/gpx-map.js:375 | `replace('.gpx', '')` never lengthens the string (`Text.RemoveFirstAt`, `Text.RemoveFirstAbsent` and `Text.RemoveFirstLength` state its content) |
| `Text.RemoveFirstAt` | assets/hugo-gpx-module/js/gpx-map.js:375 | `replace('.gpx', '')` cuts out exactly the leftmost occurrence |
| `Text.RemoveFirstAbsent` | assets/hugo-gpx-module/js/gpx-map.js:375 | without an occurrence the string is unchanged |
| `Text.RemoveFirstLength` | assets/hugo-gpx-module/js/gpx-map.js:375 | at most one occurrence is removed |
| `Text.SpaceDashes` | assets/hugo-gpx-module/js/gpx-map.js:375 | `replace(/[-_]/g, ' ')` keeps the length (`Text.SpaceDashesSpec` states the content) |
| `Text.SpaceDashesSpec` | assets/hugo-gpx-module/js/gpx-map.js:375 | every `-` and `_` becomes a space and every other character stays in place |
| `Text.GetFileName` | assets/hugo-gpx-module/js/gpx-map.js:375 | `getFileName` is no longer than the path (`Text.GetFileNameClean` and `Text.GetFileNameOfPath` state the content) |
| `Text.GetFileNameClean` | assets/hugo-gpx-module/js/gpx-map.js:375 | the display name holds no `/`, `-` or `_`, and is the last segment's length or four shorter |
| `Text.GetFileNameOfPath` | assets/hugo-gpx-module/js/gpx-map.js:375 | `dir/stem.gpx` and a bare `stem.gpx` both give the stem with dashes and underscores turned into spaces |
| `Text.DefaultName` | assets/hugo-gpx-module/js/gpx-map.js:103 | the default name is the kind, a space, and the plain decimal digits of index + 1, with no leading zero |
| `Gpx.ToPoint` | assets/hugo-gpx-module/js/gpx-map.js:97-99 | a kept point carries its latitude; a numeric longitude is kept and any other is NaN (`None`); an absent elevation becomes 0, an unparsable one NaN (`None`) and a numeric one is kept; a numeric time is kept and an absent or unreadable one is `None` |
| `Gpx.ParsePoints` | assets/hugo-gpx-module/js/gpx-map.js:96-100 | filtering never adds points |
| `Gpx.ParsePointsAll` | assets/hugo-gpx-module/js/gpx-map.js:100 | nothing is dropped exactly when every latitude parses |
| `Gpx.ParsePointsNone` | assets/hugo-gpx-module/js/gpx-map.js:100 | the result is empty exactly when no latitude parses |
| `Gpx.ParsePointsKeeps` | assets/hugo-gpx-module/js/gpx-map.js:96-100 | every raw point with a numeric latitude is kept |
| `Gpx.ParsePointsSource` | assets/hugo-gpx-module/js/gpx-map.js:96-100 | every kept point comes from a raw point with a numeric latitude |
| `Gpx.ParsePointsAppend` | assets/hugo-gpx-module/js/gpx-map.js:96-100 | the filter works point by point and keeps order: it distributes over concatenation |
| `Gpx.NameOr` | assets/hugo-gpx-module/js/gpx-map.js:103 | an absent or empty name falls back to the default, any other is kept |
| `Gpx.ParseSegments` | assets/hugo-gpx-module/js/gpx-map.js:104 | keeps at most one parsed point list per raw segment (what it keeps is stated by the three rows below) |
| `Gpx.ParseSegmentsNonEmpty` | assets/hugo-gpx-module/js/gpx-map.js:104 | every kept segment is non-empty and is the parsed point list of a raw segment with a numeric latitude |
| `Gpx.ParseSegmentsKeeps` | assets/hugo-gpx-module/js/gpx-map.js:104 | every raw segment with a numeric latitude is kept, as its own parsed points |
| `Gpx.ParseSegmentsAppend` | assets/hugo-gpx-module/js/gpx-map.js:104 | the filter works segment by segment: it distributes over concatenation, which pins the order |
| `Gpx.SegmentsKeepAPoint` | assets/hugo-gpx-module/js/gpx-map.js:104 | some segment is kept exactly when some segment has a point with a numeric latitude |
| `Gpx.TrackOf` | assets/hugo-gpx-module/js/gpx-map.js:102-105 | one `trk` mapped to `{ name, segments }`: its own name or `Track {index+1}`, and its parsed non-empty segments (no contract of its own; `Gpx.ParseTracksNonEmpty` and `Gpx.ParseTracksKeeps` state which of them are kept) |
| `Gpx.ParseTracks` | assets/hugo-gpx-module/js/gpx-map.js:102-106 | keeps at most one parsed track per raw track (what it keeps is stated by the three rows below) |
| `Gpx.ParseTracksNonEmpty` | assets/hugo-gpx-module/js/gpx-map.js:102-106 | every kept track has a segment and no empty segment, and is one raw track with a usable segment, parsed with its own name (or `Track {index+1}`) and its own segments |
| `Gpx.ParseTracksKeeps` | assets/hugo-gpx-module/js/gpx-map.js:102-106 | every raw track with a usable segment is kept, with its own name (or the default) and its own parsed segments |
| `Gpx.ParseTracksAppend` | assets/hugo-gpx-module/js/gpx-map.js:102-106 | the filter works track by track: it distributes over concatenation, which pins the order |
| `Gpx.TracksKept` | assets/hugo-gpx-module/js/gpx-map.js:102-106 | some track is kept exactly when some segment of some track keeps a point |
| `Gpx.RouteOf` | assets/hugo-gpx-module/js/gpx-map.js:108-110 | one `rte` mapped to `{ name, points }`: its own name or `Route {index+1}`, and its parsed points (no contract of its own; `Gpx.ParseRoutesNonEmpty` and `Gpx.ParseRoutesKeeps` state which of them are kept) |
| `Gpx.ParseRoutes` | assets/hugo-gpx-module/js/gpx-map.js:108-111 | keeps at most one parsed route per raw route (what it keeps is stated by the three rows below) |
| `Gpx.ParseRoutesNonEmpty` | assets/hugo-gpx-module/js/gpx-map.js:108-111 | every kept route has a point, and is one raw route with a numeric latitude, parsed with its own name (or `Route {index+1}`) and its own points |
| `Gpx.ParseRoutesKeeps` | assets/hugo-gpx-module/js/gpx-map.js:108-111 | every raw route with a numeric latitude is kept, with its own name (or the default) and its own parsed points |
| `Gpx.ParseRoutesAppend` | assets/hugo-gpx-module/js/gpx-map.js:108-111 | the filter works route by route: it distributes over concatenation, which pins the order |
| `Gpx.RoutesKept` | assets/hugo-gpx-module/js/gpx-map.js:108-111 | some route is kept exactly when some route keeps a point |
| `Gpx.BuildFeatures` | assets/hugo-gpx-module/js/gpx-map.js:115-122 | one feature per track and per route |
| `Gpx.BuildFeaturesAt` | assets/hugo-gpx-module/js/gpx-map.js:116-122 | tracks come first as MultiLineString features, then routes as LineString features, each with its own name |
| `Gpx.LoadFeatures` | assets/hugo-gpx-module/js/gpx-map.js:113-122 | no features exactly when no track and no route is kept (the early return at line 113); otherwise one feature per kept track and route, at least one |
| `Gpx.LoadFeaturesSome` | assets/hugo-gpx-module/js/gpx-map.js:113 | a file yields features exactly when some segment or route keeps a point |
| `Gpx.LoadedFeaturesNonEmpty` | assets/hugo-gpx-module/js/gpx-map.js:102-122 | a loaded file has at least one feature and every feature has a point |
| `Gpx.Coords` | assets/hugo-gpx-module/js/gpx-map.js:173 | the point list a feature is walked along, with a MultiLineString flattened, as at lines 173 and 201 (no contract of its own; `Gpx.LoadedFeaturesNonEmpty` and `Profile.ProfileAt` state what it holds and what the walks over it compute) |
| `Gpx.Flatten` | assets/hugo-gpx-module/js/gpx-map.js:173 | `.flat()` of a track's segments: the segments' points joined in order (it has no contract of its own; `Statistics.SegmentJumpCounted` and `Profile.ProfileAt` state what the walk over it computes) |
| `Statistics.PathLength` | assets/hugo-gpx-module/js/gpx-map.js:179-181 | the sum of the legs between consecutive points is non-negative |
| `Statistics.PathLengthGrows` | assets/hugo-gpx-module/js/gpx-map.js:181 | the walked distance never decreases as the path grows |
| `Statistics.PathLengthAppend` | assets/hugo-gpx-module/js/gpx-map.js:179-181 | joining two point lists adds exactly the leg between them |
| `Statistics.SegmentJumpCounted` | assets/hugo-gpx-module/js/gpx-map.js:173 | flattening a track counts the jump between the end of one segment and the start of the next |
| `Statistics.TotalDistance` | assets/hugo-gpx-module/js/gpx-map.js:172-181 | the total distance is non-negative |
| `Statistics.TotalDistanceAppend` | assets/hugo-gpx-module/js/gpx-map.js:172-181 | features add up independently: nothing is added between features |
| `Statistics.EleOf` | assets/hugo-gpx-module/js/gpx-map.js:178-182 | `ele || 0`: a missing (NaN) elevation counts as 0 (no contract of its own; `Statistics.ClimbAlong` and `Profile.RunSamplesAt` state the values it feeds) |
| `Statistics.ClimbStep` | assets/hugo-gpx-module/js/gpx-map.js:182-186 | a step never lowers gain or loss, and keeps gain − loss − reference |
| `Statistics.ClimbStepThreshold` | assets/hugo-gpx-module/js/gpx-map.js:182-186 | a step below 5 m changes nothing; a larger one moves the reference to the current elevation and adds the whole step to exactly one of gain or loss |
| `Statistics.ClimbAlong` | assets/hugo-gpx-module/js/gpx-map.js:178-186 | gain and loss along a feature are never negative |
| `Statistics.ClimbBalance` | assets/hugo-gpx-module/js/gpx-map.js:178-186 | gain − loss equals the final reference minus the first elevation |
| `Statistics.ClimbWithinBand` | assets/hugo-gpx-module/js/gpx-map.js:178-186 | elevations within 5 m of the first give no gain and no loss |
| `Statistics.SmallStepsCanAddUp` | assets/hugo-gpx-module/js/gpx-map.js:182-186 | steps of 4 m each still count once they reach 5 m from the reference (0, 4, 8 gives gain 8) |
| `Statistics.JitterIgnored` | assets/hugo-gpx-module/js/gpx-map.js:182-186 | elevations 100, 104, 96, 96 give gain 0 and loss 0 |
| `Statistics.ClimbThenDrop` | assets/hugo-gpx-module/js/gpx-map.js:182-186 | elevations 100, 110, 95 give gain 10 and loss 15 |
| `Statistics.FeatureClimb` | assets/hugo-gpx-module/js/gpx-map.js:174 | a feature adds non-negative gain and loss, and nothing when it has no point |
| `Statistics.TotalGain` | assets/hugo-gpx-module/js/gpx-map.js:184 | the summed gain is non-negative |
| `Statistics.TotalLoss` | assets/hugo-gpx-module/js/gpx-map.js:184 | the summed loss is non-negative |
| `Statistics.TotalsWithinBand` | assets/hugo-gpx-module/js/gpx-map.js:172-189 | features whose points all stay within 5 m of their first point add no gain or loss |
| `Statistics.MaxOpt` | assets/hugo-gpx-module/js/gpx-map.js:187 | `Math.max(hp, x)` from `-Infinity` is an upper bound of both and equals one of them |
| `Statistics.Join` | assets/hugo-gpx-module/js/gpx-map.js:187 | the larger of two optional maxima, absent only when both are |
| `Statistics.PeakAlong` | assets/hugo-gpx-module/js/gpx-map.js:179-187 | a feature has a peak exactly when it has a second point |
| `Statistics.PeakAlongIsMax` | assets/hugo-gpx-module/js/gpx-map.js:179-187 | the peak is the highest elevation at positions 1.. and is attained there |
| `Statistics.Highest` | assets/hugo-gpx-module/js/gpx-map.js:170-190 | `hp`: the running `Math.max` over the features (no contract of its own; the three rows below state it) |
| `Statistics.HighestNoneIff` | assets/hugo-gpx-module/js/gpx-map.js:170 | there is no highest point exactly when no feature has a second point |
| `Statistics.HighestIsUpperBound` | assets/hugo-gpx-module/js/gpx-map.js:187 | the highest point bounds every point at positions 1.. of every feature |
| `Statistics.HighestAttained` | assets/hugo-gpx-module/js/gpx-map.js:187 | the highest point is the elevation of such a point |
| `Statistics.EarlierTime` | assets/hugo-gpx-module/js/gpx-map.js:176 | a truthy first-point time replaces an absent or later start (no contract of its own; `Statistics.EarliestStartIsMin` states the resulting minimum) |
| `Statistics.EarliestStart` | assets/hugo-gpx-module/js/gpx-map.js:175-176 | a start time, when found, is truthy |
| `Statistics.EarliestStartIsMin` | assets/hugo-gpx-module/js/gpx-map.js:175-176 | the start is the smallest truthy first-point time of a feature, and absent exactly when there is none |
| `Statistics.LaterTime` | assets/hugo-gpx-module/js/gpx-map.js:177 | a truthy last-point time replaces an absent or earlier end (no contract of its own; `Statistics.LatestEndIsMax` states the resulting maximum) |
| `Statistics.LatestEnd` | assets/hugo-gpx-module/js/gpx-map.js:175-177 | an end time, when found, is truthy |
| `Statistics.LatestEndIsMax` | assets/hugo-gpx-module/js/gpx-map.js:175-177 | the end is the largest truthy last-point time of a feature, and absent exactly when there is none |
| `Statistics.Duration` | assets/hugo-gpx-module/js/gpx-map.js:175-190 | `endTime - startTime` when both are truthy, 0 otherwise (no contract of its own; `Statistics.EarliestStartIsMin` and `Statistics.LatestEndIsMax` state the two times) |
| `Statistics.Round` | assets/hugo-gpx-module/js/gpx-map.js:190 | `Math.round` lies within half a unit, halves going up |
| `Statistics.StatsOf` | assets/hugo-gpx-module/js/gpx-map.js:190 | distance, gain and loss in the statistics record are never negative |
| `Statistics.StatsWithinBand` | assets/hugo-gpx-module/js/gpx-map.js:178-190 | a route whose features stay within 5 m of their first points reports gain 0 and loss 0 |
| `Profile.RunSamples` | assets/hugo-gpx-module/js/gpx-map.js:202-209 | one sample per point of a feature |
| `Profile.RunSamplesAt` | assets/hugo-gpx-module/js/gpx-map.js:202-208 | sample i has point i's elevation (missing reads 0) and position, at the base plus the distance walked up to point i, in km |
| `Profile.RunSamplesStep` | assets/hugo-gpx-module/js/gpx-map.js:204-208 | the walk grows by the leg from the previous point, and by nothing at the first point |
| `Profile.RunsLength` | assets/hugo-gpx-module/js/gpx-map.js:200-210 | the running distance is non-negative |
| `Profile.ProfileOf` | assets/hugo-gpx-module/js/gpx-map.js:194-212 | the output length is the total number of flattened points |
| `Profile.ProfileAppend` | assets/hugo-gpx-module/js/gpx-map.js:200-210 | one more feature appends its samples, continuing from the distance so far |
| `Profile.NoPointsNoLength` | assets/hugo-gpx-module/js/gpx-map.js:200-210 | features without points add no distance |
| `Profile.ProfileStartsAtZero` | assets/hugo-gpx-module/js/gpx-map.js:194-208 | the first sample is at distance 0 |
| `Profile.RunSamplesOrdered` | assets/hugo-gpx-module/js/gpx-map.js:202-209 | within a feature the samples never go back and stay between the base and its end |
| `Profile.ProfileBounded` | assets/hugo-gpx-module/js/gpx-map.js:194-212 | every sample lies between 0 and the total walked distance |
| `Profile.ProfileNondecreasing` | assets/hugo-gpx-module/js/gpx-map.js:194-212 | cumulative distance never decreases |
| `Profile.ProfileEndsAtLength` | assets/hugo-gpx-module/js/gpx-map.js:194-212 | the last sample is at the total walked distance |
| `Profile.NoGapBetweenRuns` | assets/hugo-gpx-module/js/gpx-map.js:204-207 | the first sample of the next feature sits at the same distance as the sample before it |
| `Profile.ProfileAt` | assets/hugo-gpx-module/js/gpx-map.js:196-209 | the sample of point i of feature k comes after the points of the features before it and is that point's sample |
| `Aggregate.AddRoute` | assets/hugo-gpx-module/js/gpx-map.js:359 | one visible layer counted and its distance, gain, loss and duration added (no contract of its own; `Aggregate.TotalsOf` and `Aggregate.TotalsAppend` state the fold) |
| `Aggregate.TotalsOf` | assets/hugo-gpx-module/js/gpx-map.js:357-359 | the count is the number of statistics summed |
| `Aggregate.TotalsAppend` | assets/hugo-gpx-module/js/gpx-map.js:357-359 | totals are additive: summing two lists is summing their totals componentwise |
| `Palette.ChoosePalette` | assets/hugo-gpx-module/js/gpx-map.js:18-20 | a non-empty configured palette is used; an absent or empty one falls back to the five default colours |
| `MapHandler.YieldCount` | assets/hugo-gpx-module/js/gpx-map.js:113 | at most one route per file |
| `MapHandler.AscendingKeysSpec` | assets/hugo-gpx-module/js/gpx-map.js:195 | the sorted ids are exactly the stored ids, strictly ascending |
| `MapHandler.SortKeys` | assets/hugo-gpx-module/js/gpx-map.js:195 | the loop yields the ids in ascending order |
| `MapHandler.VisibleRuns` | assets/hugo-gpx-module/js/gpx-map.js:194-201 | the point lists of the visible routes' features in the given id order (no contract of its own; `MapHandler.VisibleRunsStep` states it id by id) |
| `MapHandler.VisibleRunsStep` | assets/hugo-gpx-module/js/gpx-map.js:196-201 | a route adds its features' point lists to the profile exactly when it is visible |
| `MapHandler.VisibleStats` | assets/hugo-gpx-module/js/gpx-map.js:357-359 | the statistics of the visible layers in layer order (no contract of its own; `MapHandler.VisibleStatsStep` states it id by id) |
| `MapHandler.VisibleStatsStep` | assets/hugo-gpx-module/js/gpx-map.js:358-359 | a layer adds its route's statistics to the totals exactly when it is visible |
| `MapHandler.VisibleCount` | assets/hugo-gpx-module/js/gpx-map.js:358-359 | over distinct ids, one record is summed per visible route |
| `MapHandler.VisibleLayers` | assets/hugo-gpx-module/js/gpx-map.js:358-359 | when the layers are the stored routes, the count is the number of visible stored routes |
| `MapHandler.SumVisible` | assets/hugo-gpx-module/js/gpx-map.js:357-360 | the totals loop gives count and sums over exactly the visible routes |
| `MapHandler.Outcome` | assets/hugo-gpx-module/js/gpx-map.js:87-113 | what one `loadSingleGPX` call yields: nothing for a failed fetch, else the file's features (no contract of its own; `MapHandler.OutcomeSome` states when it yields) |
| `MapHandler.OutcomeSome` | assets/hugo-gpx-module/js/gpx-map.js:87-113 | a file gives features exactly when it was fetched and yields a track or route |
| `MapHandler.Outcomes` | assets/hugo-gpx-module/js/gpx-map.js:71-74 | one outcome per file |
| `MapHandler.OutcomesAt` | assets/hugo-gpx-module/js/gpx-map.js:71-74 | file i is read with its own position as index |
| `MapHandler.LoadedCount` | assets/hugo-gpx-module/js/gpx-map.js:113 | at most one added route per outcome |
| `MapHandler.LoadedCountOutcomes` | assets/hugo-gpx-module/js/gpx-map.js:87-113 | the files with features are exactly the files that yield a route |
| `MapHandler.RouteData.Name` | assets/hugo-gpx-module/js/gpx-map.js:130 | the stored `name`, always `getFileName(file)`, derived from the stored file (no contract of its own; `Text.GetFileNameClean` and `Text.GetFileNameOfPath` state its content) |
| `MapHandler.Entry` | assets/hugo-gpx-module/js/gpx-map.js:127-130 | the stored route has the colour `colors[counter % colors.length]`, its features and its file |
| `MapHandler.LoadOne` | assets/hugo-gpx-module/js/gpx-map.js:124-130 | one file's effect on the route state (no contract of its own; `MapHandler.LoadOneStores` and `MapHandler.LoadOneKeeps` state it) |
| `MapHandler.LoadOneStores` | assets/hugo-gpx-module/js/gpx-map.js:124-130 | a file with features is stored under its index with the current colour |
| `MapHandler.LoadOneKeeps` | assets/hugo-gpx-module/js/gpx-map.js:125-130 | loading one file leaves routes under other indices unchanged |
| `MapHandler.LoadAll` | assets/hugo-gpx-module/js/gpx-map.js:69-74 | the files applied one after the other in order (no contract of its own; the three `MapHandler.LoadAll…` rows below state the counter, the ids and the entries) |
| `MapHandler.LoadAllCount` | assets/hugo-gpx-module/js/gpx-map.js:127-128 | the colour counter advances once per file with features |
| `MapHandler.LoadAllKeys` | assets/hugo-gpx-module/js/gpx-map.js:71-74 | after loading, a route is stored under id exactly when it was before or file id had features |
| `MapHandler.LoadAllColours` | assets/hugo-gpx-module/js/gpx-map.js:127-130 | the n-th file with features gets `colors[(start + n) mod k]`, with its features and its file |
| `MapHandler.ColoursRepeat` | assets/hugo-gpx-module/js/gpx-map.js:127-128 | the colours cycle: two files with features whose ranks differ by the palette size get the same colour |
| `MapHandler.GpxMapHandler.constructor` | assets/hugo-gpx-module/js/gpx-map.js:5-20 | the palette is chosen, the counter is 0 and no route is stored |
| `MapHandler.GpxMapHandler.AddFeature` | assets/hugo-gpx-module/js/gpx-map.js:172-188 | the per-feature walk adds the path length, the hysteresis gain and loss, the peak and the first and last times |
| `MapHandler.GpxMapHandler.CalculateRouteStats` | assets/hugo-gpx-module/js/gpx-map.js:169-191 | the loop computes the statistics record of the features |
| `MapHandler.GpxMapHandler.Store` | assets/hugo-gpx-module/js/gpx-map.js:124-140 | the route takes `colors[colorIndex % colors.length]`, the counter advances, and statistics, data and layer are stored under the index |
| `MapHandler.GpxMapHandler.LoadSingleGpx` | assets/hugo-gpx-module/js/gpx-map.js:87-130 | a route is added exactly when the file yields one; otherwise nothing changes |
| `MapHandler.GpxMapHandler.LoadGpxFiles` | assets/hugo-gpx-module/js/gpx-map.js:69-74 | files are loaded in order and the counter advances once per file that yields a route |
| `MapHandler.GpxMapHandler.PrepareElevationData` | assets/hugo-gpx-module/js/gpx-map.js:193-213 | the samples are the profile of the visible routes' features in ascending id order |
| `MapHandler.GpxMapHandler.WalkFeatures` | assets/hugo-gpx-module/js/gpx-map.js:200-210 | the features of one route extend the profile and the running distance |
| `MapHandler.GpxMapHandler.WalkRun` | assets/hugo-gpx-module/js/gpx-map.js:202-209 | the point loop appends one sample per point and adds the walked distance |
| `MapHandler.GpxMapHandler.CalculateTotalStats` | assets/hugo-gpx-module/js/gpx-map.js:354-360 | the totals are summed over the visible layers, and the count is the number of visible stored routes |

## Left out

- XML reading (`DOMParser`, `querySelector`, `querySelectorAll`, lines 92-93): a document arrives as `Gpx.RawDoc`. This holds the readings of its track, segment, route and point elements, with a name per track or route when the reader found one.
- `_getDistance` (lines 62-67): the haversine trigonometry is replaced by an arbitrary non-negative `Distance` function. Symmetry, zero distance and the 6,371 km radius are therefore not stated.
- Leg: in the source a point whose longitude does not parse (NaN) makes `_getDistance` NaN for both legs that touch it (lines 64-66), so `d` (line 181) and `totalDist` (line 206) stay NaN for the rest of the route and the profile. Here such a leg is an arbitrary non-negative `Distance` value, so `Statistics.TotalDistance`, `Profile.ProfileNondecreasing` and `Profile.ProfileBounded` hold where the source yields NaN.
- Floating-point arithmetic: distances and elevations are exact reals, and NaN is `None`. `toFixed` in the displayed texts is not modelled.
- `Date` parsing of `<time>` (line 99): times are optional integers of milliseconds.
- Network fetch and HTTP status (lines 88-91): a failed fetch is a `None` document. `downloadGPX` is not modelled.
- Asynchronous sequencing in `init` and `loadGPXFiles` (the `setTimeout` retry, `await`): these are modelled as a sequential loop.
- Leaflet, d3 and the DOM: map and tile setup, layers and `bindPopup`, including the popup title at line 144; also markers, the elevation chart, the route selector, highlighting, toggling and batch updates, `fitToRoutes`, resize handling and the elevation button. Layer visibility enters the model only as the predicate `visible`.
- `mod.go` holds only a package declaration, so it is not part of this model.
