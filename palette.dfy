/**
 * The colour palette of the map handler: the configured colours or the
 * default ones. The handler picks `colors[colorIndex % colors.length]`.
 */
module Palette {
  import opened Wrappers

  /** The palette used when the configuration gives no colours. */
  const DefaultColors: seq<string> := ["#e74c3c", "#3498db", "#2ecc71", "#f39c12", "#9b59b6"]

  /**
   * `config.colors` when it is an array with at least one colour, the
   * default palette otherwise (`None` stands for absent or not an array).
   */
  function ChoosePalette(configColors: Option<seq<string>>): (r: seq<string>)
    ensures |r| > 0
    ensures configColors.Some? && |configColors.value| > 0 ==> r == configColors.value
    ensures configColors.None? || |configColors.value| == 0 ==> r == DefaultColors
  {
    if configColors.Some? && |configColors.value| > 0 then configColors.value else DefaultColors
  }

  lemma {:induction false} MulNonNegative(a: nat, b: nat)
    ensures a * b >= 0
    decreases a
  {
    if a > 0 {
      MulNonNegative(a - 1, b);
      assert a * b == (a - 1) * b + b;
    }
  }

  /** A non-zero multiple of `n` is at least `n` away from zero. */
  lemma {:induction false} MulAwayFromZero(d: int, n: nat)
    ensures d >= 1 ==> d * n >= n
    ensures d <= -1 ==> d * n + n <= 0
  {
    if d >= 1 {
      MulNonNegative(d - 1, n);
      assert d * n == (d - 1) * n + n;
    } else if d <= -1 {
      MulNonNegative(-d - 1, n);
      assert d * n == -((-d - 1) * n) - n;
    }
  }

  /** A quotient and remainder in range are the ones `/` and `%` give. */
  lemma {:induction false} ModUnique(c: int, n: int, q: int, r: int)
    requires n > 0 && 0 <= r < n && c == q * n + r
    ensures c % n == r
  {
    var q0, r0 := c / n, c % n;
    assert c == q0 * n + r0 && 0 <= r0 < n;
    assert (q - q0) * n == r0 - r;
    MulAwayFromZero(q - q0, n);
  }

  /** One full round of the palette brings the counter back to the same slot. */
  lemma {:induction false} SlotAfterRound(counter: nat, size: nat)
    requires size > 0
    ensures (counter + size) % size == counter % size
  {
    var q, r := counter / size, counter % size;
    assert counter + size == (q + 1) * size + r;
    ModUnique(counter + size, size, q + 1, r);
  }
}
