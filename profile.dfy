/**
 * The specification of `_prepareElevationData`: the flattened point lists
 * of the features to chart are walked one after the other with a single
 * running distance, one sample per point. The running distance is not
 * advanced at the first point of a feature, so nothing is added between
 * features or between routes.
 */
module Profile {
  import opened Wrappers
  import opened Gpx
  import opened Statistics

  /** One sample of the chart: kilometres from the start, elevation, position. */
  datatype Sample = Sample(dist: real, ele: real, lat: real, lon: Option<real>)

  /** The samples of one point list whose walk starts `base` metres into the profile. */
  function RunSamples(dist: Distance, base: real, pts: seq<Point>): (r: seq<Sample>)
    ensures |r| == |pts|
    decreases |pts|
  {
    if pts == [] then []
    else
      var n := |pts| - 1;
      RunSamples(dist, base, pts[..n]) + [Sample((base + PathLength(dist, pts)) / 1000.0, EleOf(pts[n]), pts[n].lat, pts[n].lon)]
  }

  /**
   * Sample `i` of a point list is point `i`'s elevation (a missing one read
   * as 0) and position, at `base` plus the metres walked up to that point.
   */
  lemma {:induction false} RunSamplesAt(dist: Distance, base: real, pts: seq<Point>, i: nat)
    requires i < |pts|
    ensures RunSamples(dist, base, pts)[i]
      == Sample((base + PathLength(dist, pts[..i + 1])) / 1000.0, EleOf(pts[i]), pts[i].lat, pts[i].lon)
    decreases |pts|
  {
    var n := |pts| - 1;
    if i < n {
      RunSamplesAt(dist, base, pts[..n], i);
      assert pts[..n][..i + 1] == pts[..i + 1];
      assert pts[..n][i] == pts[i];
    } else {
      assert pts[..n + 1] == pts;
    }
  }

  /** The metres walked along a list of point lists, nothing counted between them. */
  function RunsLength(dist: Distance, runs: seq<seq<Point>>): (d: real)
    ensures d >= 0.0
    decreases |runs|
  {
    if runs == [] then 0.0 else RunsLength(dist, runs[..|runs| - 1]) + PathLength(dist, runs[|runs| - 1])
  }

  function PointCount(runs: seq<seq<Point>>): nat
    decreases |runs|
  {
    if runs == [] then 0 else PointCount(runs[..|runs| - 1]) + |runs[|runs| - 1]|
  }

  /** The whole profile over a list of point lists. */
  function ProfileOf(dist: Distance, runs: seq<seq<Point>>): (r: seq<Sample>)
    ensures |r| == PointCount(runs)
    decreases |runs|
  {
    if runs == [] then []
    else
      var init := runs[..|runs| - 1];
      ProfileOf(dist, init) + RunSamples(dist, RunsLength(dist, init), runs[|runs| - 1])
  }

  /**
   * One more point: the walk grows by the leg from the point before (by
   * nothing at the first point) and one sample follows at the new distance.
   */
  lemma {:induction false} RunSamplesStep(dist: Distance, base: real, pts: seq<Point>, i: nat)
    requires i < |pts|
    ensures PathLength(dist, pts[..i + 1])
      == if i == 0 then 0.0 else PathLength(dist, pts[..i]) + dist(Pos(pts[i - 1]), Pos(pts[i]))
    ensures RunSamples(dist, base, pts[..i + 1])
      == RunSamples(dist, base, pts[..i])
         + [Sample((base + PathLength(dist, pts[..i + 1])) / 1000.0, EleOf(pts[i]), pts[i].lat, pts[i].lon)]
  {
    assert pts[..i + 1][..i] == pts[..i];
  }

  /** One more point list: its samples follow, starting where the walk so far ended. */
  lemma {:induction false} ProfileAppend(dist: Distance, runs: seq<seq<Point>>, pts: seq<Point>)
    ensures ProfileOf(dist, runs + [pts]) == ProfileOf(dist, runs) + RunSamples(dist, RunsLength(dist, runs), pts)
    ensures RunsLength(dist, runs + [pts]) == RunsLength(dist, runs) + PathLength(dist, pts)
  {
    assert (runs + [pts])[..|runs|] == runs;
  }

  /** Point lists without points add no distance. */
  lemma {:induction false} NoPointsNoLength(dist: Distance, runs: seq<seq<Point>>)
    requires PointCount(runs) == 0
    ensures RunsLength(dist, runs) == 0.0
    decreases |runs|
  {
    if runs != [] {
      NoPointsNoLength(dist, runs[..|runs| - 1]);
    }
  }

  /** The first sample of a profile is at distance 0. */
  lemma {:induction false} ProfileStartsAtZero(dist: Distance, runs: seq<seq<Point>>)
    requires |ProfileOf(dist, runs)| > 0
    ensures ProfileOf(dist, runs)[0].dist == 0.0
    decreases |runs|
  {
    var init := runs[..|runs| - 1];
    if |ProfileOf(dist, init)| > 0 {
      ProfileStartsAtZero(dist, init);
    } else {
      NoPointsNoLength(dist, init);
      var pts := runs[|runs| - 1];
      RunSamplesAt(dist, 0.0, pts, 0);
      assert PathLength(dist, pts[..1]) == 0.0;
    }
  }

  /** Within one point list the samples never go back, and stay between `base` and its end. */
  lemma {:induction false} RunSamplesOrdered(dist: Distance, base: real, pts: seq<Point>)
    ensures Within(RunSamples(dist, base, pts), base / 1000.0, (base + PathLength(dist, pts)) / 1000.0)
    ensures Ascending(RunSamples(dist, base, pts))
  {
    var r := RunSamples(dist, base, pts);
    forall i, j | 0 <= i <= j < |r| ensures r[i].dist <= r[j].dist {
      RunSamplesAt(dist, base, pts, i);
      RunSamplesAt(dist, base, pts, j);
      PathLengthGrows(dist, pts, i + 1, j + 1);
    }
    forall i | 0 <= i < |r| ensures base / 1000.0 <= r[i].dist <= (base + PathLength(dist, pts)) / 1000.0 {
      RunSamplesAt(dist, base, pts, i);
      PathLengthGrows(dist, pts, i + 1, |pts|);
      assert pts[..|pts|] == pts;
    }
  }

  /** Every sample of `s` lies between `lo` and `hi` kilometres. */
  predicate Within(s: seq<Sample>, lo: real, hi: real)
  {
    forall i :: 0 <= i < |s| ==> lo <= s[i].dist <= hi
  }

  /** The distances of `s` never decrease. */
  predicate Ascending(s: seq<Sample>)
  {
    forall i, j :: 0 <= i <= j < |s| ==> s[i].dist <= s[j].dist
  }

  lemma {:induction false} ConcatWithin(p: seq<Sample>, q: seq<Sample>, lo: real, mid: real, hi: real)
    requires Within(p, lo, mid) && Within(q, mid, hi) && lo <= mid <= hi
    ensures Within(p + q, lo, hi)
  {
    var r := p + q;
    forall i | 0 <= i < |r| ensures lo <= r[i].dist <= hi {
      if i < |p| {
        assert r[i] == p[i];
      } else {
        assert r[i] == q[i - |p|];
      }
    }
  }

  lemma {:induction false} ConcatAscending(p: seq<Sample>, q: seq<Sample>, lo: real, mid: real, hi: real)
    requires Ascending(p) && Ascending(q) && Within(p, lo, mid) && Within(q, mid, hi)
    ensures Ascending(p + q)
  {
    var r := p + q;
    forall i, j | 0 <= i <= j < |r| ensures r[i].dist <= r[j].dist {
      if j < |p| {
        assert r[i] == p[i] && r[j] == p[j];
      } else if i >= |p| {
        assert r[i] == q[i - |p|] && r[j] == q[j - |p|];
      } else {
        assert r[i] == p[i] && r[j] == q[j - |p|];
      }
    }
  }

  /** Every sample lies between 0 and the total length walked. */
  lemma {:induction false} ProfileBounded(dist: Distance, runs: seq<seq<Point>>)
    ensures Within(ProfileOf(dist, runs), 0.0, RunsLength(dist, runs) / 1000.0)
    decreases |runs|
  {
    if runs != [] {
      var init := runs[..|runs| - 1];
      var pts := runs[|runs| - 1];
      var base := RunsLength(dist, init);
      ProfileBounded(dist, init);
      RunSamplesOrdered(dist, base, pts);
      ConcatWithin(ProfileOf(dist, init), RunSamples(dist, base, pts),
        0.0, base / 1000.0, (base + PathLength(dist, pts)) / 1000.0);
    }
  }

  /** The cumulative distance of a profile never decreases. */
  lemma {:induction false} ProfileNondecreasing(dist: Distance, runs: seq<seq<Point>>)
    ensures Ascending(ProfileOf(dist, runs))
    decreases |runs|
  {
    if runs != [] {
      var init := runs[..|runs| - 1];
      var pts := runs[|runs| - 1];
      var base := RunsLength(dist, init);
      ProfileNondecreasing(dist, init);
      ProfileBounded(dist, init);
      RunSamplesOrdered(dist, base, pts);
      ConcatAscending(ProfileOf(dist, init), RunSamples(dist, base, pts),
        0.0, base / 1000.0, (base + PathLength(dist, pts)) / 1000.0);
    }
  }

  /** The last sample of a profile is at the total length walked. */
  lemma {:induction false} ProfileEndsAtLength(dist: Distance, runs: seq<seq<Point>>)
    requires |ProfileOf(dist, runs)| > 0
    ensures ProfileOf(dist, runs)[|ProfileOf(dist, runs)| - 1].dist == RunsLength(dist, runs) / 1000.0
    decreases |runs|
  {
    var init := runs[..|runs| - 1];
    var pts := runs[|runs| - 1];
    if pts == [] {
      ProfileEndsAtLength(dist, init);
    } else {
      RunSamplesAt(dist, RunsLength(dist, init), pts, |pts| - 1);
      assert pts[..|pts|] == pts;
    }
  }

  /**
   * The first sample of a further point list sits at the same distance as
   * the sample before it: the gap between two features is not counted.
   */
  lemma {:induction false} NoGapBetweenRuns(dist: Distance, runs: seq<seq<Point>>, pts: seq<Point>)
    requires |ProfileOf(dist, runs)| > 0 && |pts| > 0
    ensures var n := |ProfileOf(dist, runs)|;
      |ProfileOf(dist, runs + [pts])| > n
      && ProfileOf(dist, runs + [pts])[n].dist == ProfileOf(dist, runs + [pts])[n - 1].dist
  {
    var all := runs + [pts];
    assert all[..|all| - 1] == runs;
    ProfileEndsAtLength(dist, runs);
    RunSamplesAt(dist, RunsLength(dist, runs), pts, 0);
    assert PathLength(dist, pts[..1]) == 0.0;
  }

  /**
   * The sample of point `i` of list `k` comes after the points of the lists
   * before it; it carries the point's elevation (a missing one read as 0)
   * and position, and the metres walked up to it.
   */
  lemma {:induction false} ProfileAt(dist: Distance, runs: seq<seq<Point>>, k: nat, i: nat)
    requires k < |runs| && i < |runs[k]|
    ensures PointCount(runs[..k]) + i < |ProfileOf(dist, runs)|
    ensures ProfileOf(dist, runs)[PointCount(runs[..k]) + i]
      == RunSamples(dist, RunsLength(dist, runs[..k]), runs[k])[i]
    decreases |runs|
  {
    var n := |runs| - 1;
    var init := runs[..n];
    var p := ProfileOf(dist, init);
    var q := RunSamples(dist, RunsLength(dist, init), runs[n]);
    assert ProfileOf(dist, runs) == p + q;
    if k < n {
      assert init[..k] == runs[..k] && init[k] == runs[k];
      ProfileAt(dist, init, k, i);
    } else {
      assert runs[..k] == init;
    }
  }
}
