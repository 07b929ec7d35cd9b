/**
 * The totals loop of `calculateAndShowTotalStats`: the number of routes
 * summed over, and the sums of their distance, gain, loss and duration.
 */
module Aggregate {
  import opened Statistics

  datatype Totals = Totals(count: nat, distance: real, gain: int, loss: int, duration: int)

  const NoTotals := Totals(0, 0.0, 0, 0, 0)

  /** Counting one more route. */
  function AddRoute(t: Totals, s: RouteStats): Totals
  {
    Totals(t.count + 1, t.distance + s.distance, t.gain + s.elevationGain,
           t.loss + s.elevationLoss, t.duration + s.duration)
  }

  /** Componentwise sum of two totals. */
  function Plus(a: Totals, b: Totals): Totals
  {
    Totals(a.count + b.count, a.distance + b.distance, a.gain + b.gain, a.loss + b.loss, a.duration + b.duration)
  }

  /** The totals over a list of route statistics, in order. */
  function TotalsOf(stats: seq<RouteStats>): (t: Totals)
    ensures t.count == |stats|
    decreases |stats|
  {
    if stats == [] then NoTotals
    else AddRoute(TotalsOf(stats[..|stats| - 1]), stats[|stats| - 1])
  }

  lemma {:induction false} PlusNone(t: Totals)
    ensures Plus(t, NoTotals) == t
  {
  }

  lemma {:induction false} PlusAddRoute(x: Totals, y: Totals, s: RouteStats)
    ensures AddRoute(Plus(x, y), s) == Plus(x, AddRoute(y, s))
  {
  }

  /** Totals are additive: summing two lists is summing their totals. */
  lemma {:induction false} TotalsAppend(a: seq<RouteStats>, b: seq<RouteStats>)
    ensures TotalsOf(a + b) == Plus(TotalsOf(a), TotalsOf(b))
    decreases |b|
  {
    if b == [] {
      assert a + b == a;
      PlusNone(TotalsOf(a));
    } else {
      var b' := b[..|b| - 1];
      var last := b[|b| - 1];
      assert (a + b)[..|a + b| - 1] == a + b';
      TotalsAppend(a, b');
      PlusAddRoute(TotalsOf(a), TotalsOf(b'), last);
    }
  }
}
