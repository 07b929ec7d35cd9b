/**
 * The specification of `calculateRouteStats`: per feature the flattened
 * point list is walked once, summing leg distances, counting elevation
 * gain and loss with a 5 m hysteresis, tracking the highest point seen
 * after the first one, and reading the first and last times.
 */
module Statistics {
  import opened Wrappers
  import opened Gpx

  /** `ELEVATION_THRESHOLD`, in metres. */
  const ElevationThreshold: real := 5.0

  /** The two coordinates the great-circle distance is computed from. */
  datatype Position = Position(lat: real, lon: Option<real>)

  /**
   * The great-circle distance in metres (`_getDistance`). Its trigonometry
   * is not modelled: any function that never returns a negative value.
   */
  type Distance = f: (Position, Position) -> real | forall a, b :: f(a, b) >= 0.0
    witness (a: Position, b: Position) => 0.0

  function Pos(p: Point): Position { Position(p.lat, p.lon) }

  /** The distance from `p` to `q`. */
  function Leg(dist: Distance, p: Point, q: Point): real
  {
    dist(Pos(p), Pos(q))
  }

  /** `ele || 0`: a missing (NaN) elevation counts as 0. */
  function EleOf(p: Point): real
  {
    if p.ele.Some? then p.ele.value else 0.0
  }

  function Abs(x: real): real { if x < 0.0 then -x else x }

  // ---------------------------------------------------------------------
  // Distance

  /** The sum of the legs between consecutive points. */
  function PathLength(dist: Distance, pts: seq<Point>): (r: real)
    ensures r >= 0.0
    decreases |pts|
  {
    if |pts| <= 1 then 0.0
    else PathLength(dist, pts[..|pts| - 1]) + Leg(dist, pts[|pts| - 2], pts[|pts| - 1])
  }

  /** The length of a path never decreases as the path is extended. */
  lemma {:induction false} PathLengthGrows(dist: Distance, pts: seq<Point>, i: nat, j: nat)
    requires i <= j <= |pts|
    ensures PathLength(dist, pts[..i]) <= PathLength(dist, pts[..j])
    decreases j
  {
    if i < j {
      PathLengthGrows(dist, pts, i, j - 1);
      if j >= 2 {
        assert pts[..j][..j - 1] == pts[..j - 1];
      }
    }
  }

  /**
   * Joining two point lists adds exactly the leg between the last point of
   * the first and the first point of the second: this is the jump between
   * two segments of a track that flattening counts.
   */
  lemma {:induction false} PathLengthAppend(dist: Distance, a: seq<Point>, b: seq<Point>)
    requires |a| > 0 && |b| > 0
    ensures PathLength(dist, a + b) == PathLength(dist, a) + Leg(dist, a[|a| - 1], b[0]) + PathLength(dist, b)
    decreases |b|
  {
    var ab := a + b;
    if |b| == 1 {
      assert ab[..|ab| - 1] == a;
    } else {
      var b' := b[..|b| - 1];
      assert ab[..|ab| - 1] == a + b';
      PathLengthAppend(dist, a, b');
    }
  }

  /**
   * A track's segments are flattened before the walk, so one more segment
   * adds its own length plus the jump from the end of the segments before
   * it to its first point.
   */
  lemma {:induction false} SegmentJumpCounted(dist: Distance, segs: seq<seq<Point>>, next: seq<Point>)
    requires |Flatten(segs)| > 0 && |next| > 0
    ensures var before := Flatten(segs);
      PathLength(dist, Coords(Feature("", MultiLineString(segs + [next]))))
      == PathLength(dist, before) + Leg(dist, before[|before| - 1], next[0]) + PathLength(dist, next)
  {
    assert (segs + [next])[..|segs|] == segs;
    assert Flatten(segs + [next]) == Flatten(segs) + next;
    PathLengthAppend(dist, Flatten(segs), next);
  }

  /** The total distance in metres: the path lengths of the features, with nothing between them. */
  function TotalDistance(dist: Distance, fs: seq<Feature>): (d: real)
    ensures d >= 0.0
    decreases |fs|
  {
    if fs == [] then 0.0
    else TotalDistance(dist, fs[..|fs| - 1]) + PathLength(dist, Coords(fs[|fs| - 1]))
  }

  /** Features are independent: no distance is added between the last one of `a` and the first one of `b`. */
  lemma {:induction false} TotalDistanceAppend(dist: Distance, a: seq<Feature>, b: seq<Feature>)
    ensures TotalDistance(dist, a + b) == TotalDistance(dist, a) + TotalDistance(dist, b)
    decreases |b|
  {
    if b == [] {
      assert a + b == a;
    } else {
      assert (a + b)[..|a + b| - 1] == a + b[..|b| - 1];
      TotalDistanceAppend(dist, a, b[..|b| - 1]);
    }
  }

  // ---------------------------------------------------------------------
  // Elevation gain and loss

  /** Accumulated gain and loss, and the reference elevation steps are measured from. */
  datatype Climb = Climb(gain: real, loss: real, reference: real)

  /**
   * One point of the hysteresis walk. A step of at least the threshold away
   * from the reference adds to exactly one of gain and loss and moves the
   * reference to the current elevation; a smaller step changes nothing.
   */
  function ClimbStep(c: Climb, current: real): (r: Climb)
    ensures r.gain >= c.gain && r.loss >= c.loss
    ensures r.gain - r.loss - r.reference == c.gain - c.loss - c.reference
  {
    var diff := current - c.reference;
    if Abs(diff) >= ElevationThreshold then
      if diff > 0.0 then Climb(c.gain + diff, c.loss, current)
      else Climb(c.gain, c.loss + Abs(diff), current)
    else c
  }

  /**
   * A step smaller than the threshold changes nothing; any other moves the
   * reference to the current elevation and adds the whole step to exactly
   * one of gain and loss.
   */
  lemma {:induction false} ClimbStepThreshold(c: Climb, current: real)
    ensures Abs(current - c.reference) < ElevationThreshold ==> ClimbStep(c, current) == c
    ensures Abs(current - c.reference) >= ElevationThreshold ==>
      var r := ClimbStep(c, current);
      r.reference == current
      && ((r.gain == c.gain + (current - c.reference) && r.loss == c.loss && current > c.reference)
          || (r.loss == c.loss + (c.reference - current) && r.gain == c.gain && current < c.reference))
  {
  }

  /** The hysteresis walk along one feature, starting from its first point. */
  function ClimbAlong(pts: seq<Point>): (c: Climb)
    requires |pts| > 0
    ensures c.gain >= 0.0 && c.loss >= 0.0
    decreases |pts|
  {
    if |pts| == 1 then Climb(0.0, 0.0, EleOf(pts[0]))
    else ClimbStep(ClimbAlong(pts[..|pts| - 1]), EleOf(pts[|pts| - 1]))
  }

  /** Gain minus loss is how far the reference has moved from the first elevation. */
  lemma {:induction false} ClimbBalance(pts: seq<Point>)
    requires |pts| > 0
    ensures ClimbAlong(pts).gain - ClimbAlong(pts).loss == ClimbAlong(pts).reference - EleOf(pts[0])
    decreases |pts|
  {
    if |pts| > 1 {
      ClimbBalance(pts[..|pts| - 1]);
    }
  }

  /** A feature whose elevations all stay within the threshold of its first adds no gain and no loss. */
  lemma {:induction false} ClimbWithinBand(pts: seq<Point>)
    requires |pts| > 0
    requires forall i :: 0 <= i < |pts| ==> Abs(EleOf(pts[i]) - EleOf(pts[0])) < ElevationThreshold
    ensures ClimbAlong(pts) == Climb(0.0, 0.0, EleOf(pts[0]))
    decreases |pts|
  {
    if |pts| > 1 {
      ClimbWithinBand(pts[..|pts| - 1]);
    }
  }

  /**
   * Steps that are each below the threshold can still add up: the elevations
   * 0, 4, 8 give a gain of 8, because the reference stays at 0 until the
   * third point is 8 m away from it.
   */
  lemma {:induction false} SmallStepsCanAddUp(p0: Point, p1: Point, p2: Point)
    requires EleOf(p0) == 0.0 && EleOf(p1) == 4.0 && EleOf(p2) == 8.0
    ensures ClimbAlong([p0, p1, p2]) == Climb(8.0, 0.0, 8.0)
  {
    assert [p0, p1, p2][..2] == [p0, p1];
    assert [p0, p1][..1] == [p0];
    assert ClimbAlong([p0]) == Climb(0.0, 0.0, 0.0);
    assert ClimbAlong([p0, p1]) == Climb(0.0, 0.0, 0.0);
  }

  /**
   * Elevations 100, 104, 96, 96: every point stays within 5 m of the first,
   * the reference never moves, and neither gain nor loss is counted.
   */
  lemma {:induction false} JitterIgnored(p0: Point, p1: Point, p2: Point, p3: Point)
    requires EleOf(p0) == 100.0 && EleOf(p1) == 104.0 && EleOf(p2) == 96.0 && EleOf(p3) == 96.0
    ensures ClimbAlong([p0, p1, p2, p3]) == Climb(0.0, 0.0, 100.0)
  {
    var pts := [p0, p1, p2, p3];
    forall i | 0 <= i < |pts| ensures Abs(EleOf(pts[i]) - EleOf(pts[0])) < ElevationThreshold { }
    ClimbWithinBand(pts);
  }

  /**
   * Elevations 100, 110, 95: a 10 m climb moves the reference to 110, then
   * a 15 m drop is counted as loss.
   */
  lemma {:induction false} ClimbThenDrop(p0: Point, p1: Point, p2: Point)
    requires EleOf(p0) == 100.0 && EleOf(p1) == 110.0 && EleOf(p2) == 95.0
    ensures ClimbAlong([p0, p1, p2]) == Climb(10.0, 15.0, 95.0)
  {
    assert [p0, p1, p2][..2] == [p0, p1];
    assert [p0, p1][..1] == [p0];
    assert ClimbAlong([p0]) == Climb(0.0, 0.0, 100.0);
    assert ClimbAlong([p0, p1]) == Climb(10.0, 0.0, 110.0);
  }

  /** What a feature's point list adds to the gain and loss totals: nothing when it has no point. */
  function FeatureClimb(pts: seq<Point>): (c: Climb)
    ensures c.gain >= 0.0 && c.loss >= 0.0
  {
    if |pts| == 0 then Climb(0.0, 0.0, 0.0) else ClimbAlong(pts)
  }

  function TotalGain(fs: seq<Feature>): (g: real)
    ensures g >= 0.0
    decreases |fs|
  {
    if fs == [] then 0.0 else TotalGain(fs[..|fs| - 1]) + FeatureClimb(Coords(fs[|fs| - 1])).gain
  }

  function TotalLoss(fs: seq<Feature>): (l: real)
    ensures l >= 0.0
    decreases |fs|
  {
    if fs == [] then 0.0 else TotalLoss(fs[..|fs| - 1]) + FeatureClimb(Coords(fs[|fs| - 1])).loss
  }

  /** Every point of every feature stays within the threshold of its feature's first point. */
  predicate WithinBand(fs: seq<Feature>)
  {
    forall k, i :: 0 <= k < |fs| && 0 <= i < |Coords(fs[k])| ==>
      Abs(EleOf(Coords(fs[k])[i]) - EleOf(Coords(fs[k])[0])) < ElevationThreshold
  }

  lemma {:induction false} TotalsWithinBand(fs: seq<Feature>)
    requires WithinBand(fs)
    ensures TotalGain(fs) == 0.0 && TotalLoss(fs) == 0.0
    decreases |fs|
  {
    if fs != [] {
      var last := fs[|fs| - 1];
      assert WithinBand(fs[..|fs| - 1]) by {
        forall k | 0 <= k < |fs| - 1 ensures fs[..|fs| - 1][k] == fs[k] { }
      }
      TotalsWithinBand(fs[..|fs| - 1]);
      if |Coords(last)| > 0 {
        ClimbWithinBand(Coords(last));
      }
    }
  }

  // ---------------------------------------------------------------------
  // Highest point

  /** `Math.max(hp, x)` where `None` is the initial `-Infinity`. */
  function MaxOpt(hp: Option<real>, x: real): (r: real)
    ensures r >= x && (hp.Some? ==> r >= hp.value)
    ensures r == x || (hp.Some? && r == hp.value)
  {
    if hp.Some? && hp.value >= x then hp.value else x
  }

  /** The larger of two optional maxima. */
  function Join(a: Option<real>, b: Option<real>): (r: Option<real>)
    ensures r.None? <==> a.None? && b.None?
    ensures r.Some? ==> (a.Some? ==> r.value >= a.value) && (b.Some? ==> r.value >= b.value)
    ensures r == a || r == b
  {
    if b.None? then a else Some(MaxOpt(a, b.value))
  }

  /** The highest elevation at positions 1.. of a point list; `None` for one point or none. */
  function PeakAlong(pts: seq<Point>): (h: Option<real>)
    ensures h.None? <==> |pts| <= 1
    decreases |pts|
  {
    if |pts| <= 1 then None
    else Some(MaxOpt(PeakAlong(pts[..|pts| - 1]), EleOf(pts[|pts| - 1])))
  }

  /** The peak of a point list is the highest elevation at its positions 1.., and is attained. */
  lemma {:induction false} PeakAlongIsMax(pts: seq<Point>)
    ensures PeakAlong(pts).Some? ==> forall i :: 1 <= i < |pts| ==> EleOf(pts[i]) <= PeakAlong(pts).value
    ensures PeakAlong(pts).Some? ==> exists i :: 1 <= i < |pts| && EleOf(pts[i]) == PeakAlong(pts).value
    decreases |pts|
  {
    if |pts| > 1 {
      var n := |pts| - 1;
      var init := pts[..n];
      assert forall i :: 0 <= i < n ==> init[i] == pts[i];
      PeakAlongIsMax(init);
      var h := PeakAlong(pts).value;
      if h == EleOf(pts[n]) {
        assert 1 <= n < |pts| && EleOf(pts[n]) == h;
      } else {
        var i :| 1 <= i < n && EleOf(init[i]) == h;
        assert EleOf(pts[i]) == h;
      }
    }
  }

  /** The highest elevation over all features, each from its second point on. */
  function Highest(fs: seq<Feature>): (h: Option<real>)
    decreases |fs|
  {
    if fs == [] then None
    else Join(Highest(fs[..|fs| - 1]), PeakAlong(Coords(fs[|fs| - 1])))
  }

  /** A point at position 1 or later of feature `k`. */
  predicate Sampled(fs: seq<Feature>, k: int, i: int)
  {
    0 <= k < |fs| && 1 <= i < |Coords(fs[k])|
  }

  /** There is no highest point exactly when no feature has a second point. */
  lemma {:induction false} HighestNoneIff(fs: seq<Feature>)
    ensures Highest(fs).None? <==> forall k :: 0 <= k < |fs| ==> |Coords(fs[k])| <= 1
    decreases |fs|
  {
    if fs != [] {
      var n := |fs| - 1;
      var init := fs[..n];
      var last := Coords(fs[n]);
      HighestNoneIff(init);
      assert Highest(fs) == Join(Highest(init), PeakAlong(last));
      assert (forall k :: 0 <= k < |fs| ==> |Coords(fs[k])| <= 1)
         <==> (forall k :: 0 <= k < n ==> |Coords(init[k])| <= 1) && |last| <= 1 by {
        assert forall k :: 0 <= k < n ==> init[k] == fs[k];
      }
    }
  }

  /** The highest point is at least the elevation of every point at position 1.. of every feature. */
  lemma {:induction false} HighestIsUpperBound(fs: seq<Feature>)
    requires Highest(fs).Some?
    ensures forall k, i :: Sampled(fs, k, i) ==> EleOf(Coords(fs[k])[i]) <= Highest(fs).value
    decreases |fs|
  {
    var n := |fs| - 1;
    var init := fs[..n];
    var h := Highest(fs).value;
    PeakAlongIsMax(Coords(fs[n]));
    HighestNoneIff(init);
    if Highest(init).Some? {
      HighestIsUpperBound(init);
    }
    forall k, i | Sampled(fs, k, i) ensures EleOf(Coords(fs[k])[i]) <= h {
      if k < n {
        assert init[k] == fs[k];
        assert Sampled(init, k, i);
      }
    }
  }

  /** The highest point is the elevation of some point at position 1.. of some feature. */
  lemma {:induction false} HighestAttained(fs: seq<Feature>)
    requires Highest(fs).Some?
    ensures exists k, i :: Sampled(fs, k, i) && EleOf(Coords(fs[k])[i]) == Highest(fs).value
    decreases |fs|
  {
    var n := |fs| - 1;
    var init := fs[..n];
    var lc := Coords(fs[n]);
    var h := Highest(fs);
    if h == PeakAlong(lc) {
      PeakAlongIsMax(lc);
      var i :| 1 <= i < |lc| && EleOf(lc[i]) == h.value;
      assert Sampled(fs, n, i);
    } else {
      HighestAttained(init);
      var k, i :| Sampled(init, k, i) && EleOf(Coords(init[k])[i]) == h.value;
      assert init[k] == fs[k];
      assert Sampled(fs, k, i);
    }
  }

  // ---------------------------------------------------------------------
  // Duration

  /** A JavaScript time that is truthy: present, not NaN and not 0. */
  predicate Truthy(t: Option<int>) { t.Some? && t.value != 0 }

  /** The time of the first point of a point list, if it has one. */
  function FirstTime(pts: seq<Point>): Option<int>
  {
    if |pts| == 0 then None else pts[0].time
  }

  /** The time of the last point of a point list, if it has one. */
  function LastTime(pts: seq<Point>): Option<int>
  {
    if |pts| == 0 then None else pts[|pts| - 1].time
  }

  /** `if (t && (!s || t < s)) s = t`. */
  function EarlierTime(s: Option<int>, t: Option<int>): Option<int>
  {
    if Truthy(t) && (s.None? || t.value < s.value) then t else s
  }

  /** `if (t && (!e || t > e)) e = t`. */
  function LaterTime(e: Option<int>, t: Option<int>): Option<int>
  {
    if Truthy(t) && (e.None? || t.value > e.value) then t else e
  }

  /** The earliest truthy first-point time over the features. */
  function EarliestStart(fs: seq<Feature>): (s: Option<int>)
    ensures s.Some? ==> s.value != 0
    decreases |fs|
  {
    if fs == [] then None
    else
      EarlierTime(EarliestStart(fs[..|fs| - 1]), FirstTime(Coords(fs[|fs| - 1])))
  }

  /**
   * The start time is the smallest truthy first-point time of any feature,
   * and there is none exactly when no feature has one.
   */
  lemma {:induction false} EarliestStartIsMin(fs: seq<Feature>)
    ensures EarliestStart(fs).None? <==> forall k :: 0 <= k < |fs| ==> !Truthy(FirstTime(Coords(fs[k])))
    ensures EarliestStart(fs).Some? ==>
      forall k :: 0 <= k < |fs| && Truthy(FirstTime(Coords(fs[k]))) ==> EarliestStart(fs).value <= FirstTime(Coords(fs[k])).value
    ensures EarliestStart(fs).Some? ==> exists k :: 0 <= k < |fs| && FirstTime(Coords(fs[k])) == EarliestStart(fs)
    decreases |fs|
  {
    if fs != [] {
      var n := |fs| - 1;
      var init := fs[..n];
      assert forall k :: 0 <= k < n ==> init[k] == fs[k];
      EarliestStartIsMin(init);
      var s := EarliestStart(fs);
      if s == FirstTime(Coords(fs[n])) {
        assert 0 <= n < |fs| && FirstTime(Coords(fs[n])) == s;
      } else if s.Some? {
        var k :| 0 <= k < n && FirstTime(Coords(init[k])) == s;
        assert FirstTime(Coords(fs[k])) == s;
      }
    }
  }

  /** The latest truthy last-point time over the features. */
  function LatestEnd(fs: seq<Feature>): (e: Option<int>)
    ensures e.Some? ==> e.value != 0
    decreases |fs|
  {
    if fs == [] then None
    else
      LaterTime(LatestEnd(fs[..|fs| - 1]), LastTime(Coords(fs[|fs| - 1])))
  }

  /**
   * The end time is the largest truthy last-point time of any feature, and
   * there is none exactly when no feature has one.
   */
  lemma {:induction false} LatestEndIsMax(fs: seq<Feature>)
    ensures LatestEnd(fs).None? <==> forall k :: 0 <= k < |fs| ==> !Truthy(LastTime(Coords(fs[k])))
    ensures LatestEnd(fs).Some? ==>
      forall k :: 0 <= k < |fs| && Truthy(LastTime(Coords(fs[k]))) ==> LastTime(Coords(fs[k])).value <= LatestEnd(fs).value
    ensures LatestEnd(fs).Some? ==> exists k :: 0 <= k < |fs| && LastTime(Coords(fs[k])) == LatestEnd(fs)
    decreases |fs|
  {
    if fs != [] {
      var n := |fs| - 1;
      var init := fs[..n];
      assert forall k :: 0 <= k < n ==> init[k] == fs[k];
      LatestEndIsMax(init);
      var e := LatestEnd(fs);
      if e == LastTime(Coords(fs[n])) {
        assert 0 <= n < |fs| && LastTime(Coords(fs[n])) == e;
      } else if e.Some? {
        var k :| 0 <= k < n && LastTime(Coords(init[k])) == e;
        assert LastTime(Coords(fs[k])) == e;
      }
    }
  }

  /** `(startTime && endTime) ? endTime - startTime : 0`. */
  function Duration(fs: seq<Feature>): int
  {
    var s := EarliestStart(fs);
    var e := LatestEnd(fs);
    if s.Some? && e.Some? then e.value - s.value else 0
  }

  // ---------------------------------------------------------------------
  // The statistics record

  datatype RouteStats = RouteStats(distance: real, elevationGain: int, elevationLoss: int, highestPoint: int, duration: int)

  /** `Math.round`: halves round up. */
  function Round(x: real): (n: int)
    ensures x - 0.5 < n as real <= x + 0.5
  {
    (x + 0.5).Floor
  }

  /** The record `calculateRouteStats` returns for a list of features. */
  function StatsOf(dist: Distance, fs: seq<Feature>): (s: RouteStats)
    ensures s.distance >= 0.0 && s.elevationGain >= 0 && s.elevationLoss >= 0
  {
    RouteStats(
      TotalDistance(dist, fs) / 1000.0,
      Round(TotalGain(fs)),
      Round(TotalLoss(fs)),
      Round(Highest(fs).GetOr(0.0)),
      Duration(fs))
  }

  /** Routes whose features all stay within the threshold of their first point report no gain and no loss. */
  lemma {:induction false} StatsWithinBand(dist: Distance, fs: seq<Feature>)
    requires WithinBand(fs)
    ensures StatsOf(dist, fs).elevationGain == 0 && StatsOf(dist, fs).elevationLoss == 0
  {
    TotalsWithinBand(fs);
  }
}
