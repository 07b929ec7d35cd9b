/**
 * The string helpers of the map handler: decimal rendering of naturals,
 * `padStart(2, '0')`, the duration clock `formatTime` and the display name
 * `getFileName` derived from a file path.
 */
module Text {
  import opened Wrappers

  predicate IsDigit(c: char) { '0' <= c <= '9' }

  predicate IsDigits(s: string) { forall i :: 0 <= i < |s| ==> IsDigit(s[i]) }

  function DigitChar(d: nat): (c: char)
    requires d < 10
    ensures IsDigit(c) && c as int - '0' as int == d
  {
    ('0' as int + d) as char
  }

  /** The value of a string of decimal digits (the empty string reads as 0). */
  function DigitsValue(s: string): nat
    requires IsDigits(s)
  {
    if s == [] then 0 else DigitsValue(s[..|s| - 1]) * 10 + (s[|s| - 1] as int - '0' as int)
  }

  /** `n.toString()` for a non-negative integer. */
  function NatToString(n: nat): (s: string)
    ensures |s| >= 1 && IsDigits(s)
    ensures s[0] == '0' <==> n == 0
    ensures n < 10 <==> |s| == 1
    ensures n < 100 ==> |s| <= 2
  {
    if n < 10 then [DigitChar(n)] else NatToString(n / 10) + [DigitChar(n % 10)]
  }

  /** Reading back the decimal rendering gives the number. */
  lemma {:induction false} DigitsRoundTrip(n: nat)
    ensures DigitsValue(NatToString(n)) == n
  {
    if n >= 10 {
      var s := NatToString(n / 10);
      var t := s + [DigitChar(n % 10)];
      assert t[..|t| - 1] == s;
      DigitsRoundTrip(n / 10);
    }
  }

  /** Leading zeros do not change the value of a digit string. */
  lemma {:induction false} LeadingZeroIgnored(s: string)
    requires IsDigits(s)
    ensures IsDigits(['0'] + s) && DigitsValue(['0'] + s) == DigitsValue(s)
  {
    var t := ['0'] + s;
    if s != [] {
      assert t[..|t| - 1] == ['0'] + s[..|s| - 1];
      LeadingZeroIgnored(s[..|s| - 1]);
    }
  }

  /** `s.padStart(2, '0')`: zeros are added in front until the length is 2. */
  function PadStart2(s: string): (r: string)
    ensures |r| == if |s| < 2 then 2 else |s|
    ensures r[|r| - |s|..] == s
    ensures forall i :: 0 <= i < |r| - |s| ==> r[i] == '0'
  {
    if |s| >= 2 then s else if |s| == 1 then ['0'] + s else "00"
  }

  lemma {:induction false} PadStart2Value(s: string)
    requires IsDigits(s)
    ensures IsDigits(PadStart2(s)) && DigitsValue(PadStart2(s)) == DigitsValue(s)
  {
    if |s| == 1 {
      LeadingZeroIgnored(s);
    } else if |s| == 0 {
      LeadingZeroIgnored("0");
      LeadingZeroIgnored("");
    }
  }

  /** The clock text for `h` hours and `m` minutes: `HH:MMh`. */
  function Clock(h: nat, m: nat): (r: string)
    ensures m < 100 ==> |r| >= 6 && r[|r| - 1] == 'h' && r[|r| - 4] == ':'
  {
    PadStart2(NatToString(h)) + ":" + PadStart2(NatToString(m)) + "h"
  }

  /**
   * `formatTime(ms)`: `--:--` for a missing value (`None`: null, undefined or
   * NaN) or one that is not positive, otherwise the whole minutes split into
   * two-digit hours, `:`, two-digit minutes and the letter `h`. Hours are not
   * capped, so they may take more than two digits.
   */
  function FormatTime(ms: Option<int>): (r: string)
    ensures (ms.None? || ms.value <= 0) ==> r == "--:--"
    ensures (ms.Some? && ms.value > 0) ==> |r| >= 6 && r[|r| - 1] == 'h' && r[|r| - 4] == ':'
  {
    if ms.None? || ms.value <= 0 then "--:--"
    else
      var minutes := ms.value / 60000;
      Clock(minutes / 60, minutes % 60)
  }

  /**
   * Reads a clock string `HH:MMh` (at least two hour digits, exactly two
   * minute digits) back into its hours and minutes.
   */
  function ReadClock(s: string): Option<(nat, nat)>
  {
    if |s| >= 6 && s[|s| - 1] == 'h' && s[|s| - 4] == ':'
       && IsDigits(s[..|s| - 4]) && IsDigits(s[|s| - 3..|s| - 1])
    then Some((DigitsValue(s[..|s| - 4]), DigitsValue(s[|s| - 3..|s| - 1])))
    else None
  }

  lemma {:induction false} ClockSplit(hs: string, ms: string)
    requires |ms| == 2
    ensures var r := hs + ":" + ms + "h";
      |r| == |hs| + 4 && r[..|hs|] == hs && r[|hs| + 1..|hs| + 3] == ms
      && r[|hs|] == ':' && r[|hs| + 3] == 'h'
  {
  }

  /** A clock built from digit strings reads back as their values. */
  lemma {:induction false} ReadClockParts(hs: string, ms: string)
    requires |hs| >= 2 && IsDigits(hs) && |ms| == 2 && IsDigits(ms)
    ensures ReadClock(hs + ":" + ms + "h") == Some((DigitsValue(hs), DigitsValue(ms)))
  {
    var r := hs + ":" + ms + "h";
    ClockSplit(hs, ms);
    assert r[..|r| - 4] == hs;
    assert r[|r| - 3..|r| - 1] == ms;
  }

  lemma {:induction false} ReadClockOfClock(h: nat, m: nat)
    requires m < 100
    ensures ReadClock(Clock(h, m)) == Some((h, m))
  {
    var hs := PadStart2(NatToString(h));
    var ms := PadStart2(NatToString(m));
    DigitsRoundTrip(h);
    DigitsRoundTrip(m);
    PadStart2Value(NatToString(h));
    PadStart2Value(NatToString(m));
    ReadClockParts(hs, ms);
  }

  /**
   * The clock that `FormatTime` shows reads back as floor(ms / 60000) minutes
   * split into hours and minutes below 60; a missing or non-positive value shows no clock.
   */
  lemma {:induction false} FormatTimeReadBack(ms: Option<int>)
    ensures (ms.None? || ms.value <= 0) ==> ReadClock(FormatTime(ms)) == None
    ensures (ms.Some? && ms.value > 0) ==>
      ReadClock(FormatTime(ms)) == Some((ms.value / 60000 / 60, ms.value / 60000 % 60))
  {
    if ms.Some? && ms.value > 0 {
      var minutes := ms.value / 60000;
      ReadClockOfClock(minutes / 60, minutes % 60);
    }
  }

  // ---------------------------------------------------------------------
  // getFileName

  /** `f.split('/').pop()`: the text after the last `/` (all of `f` without one). */
  function LastSegment(f: string): (r: string)
    ensures |r| <= |f|
  {
    if f == [] then []
    else if f[|f| - 1] == '/' then []
    else LastSegment(f[..|f| - 1]) + [f[|f| - 1]]
  }

  /**
   * The last segment holds no `/` and ends the path; unless it is the whole
   * path, a `/` stands right before it.
   */
  lemma {:induction false} LastSegmentSpec(f: string)
    ensures var r := LastSegment(f);
      && '/' !in r && |r| <= |f| && f[|f| - |r|..] == r
      && (|r| < |f| ==> f[|f| - |r| - 1] == '/')
    decreases |f|
  {
    if f != [] && f[|f| - 1] != '/' {
      var init := f[..|f| - 1];
      LastSegmentSpec(init);
      var r0 := LastSegment(init);
      assert f[|init| - |r0|..] == init[|init| - |r0|..] + [f[|f| - 1]];
      if |r0| < |init| {
        assert f[|init| - |r0| - 1] == init[|init| - |r0| - 1];
      }
    }
  }

  /** `pat` occurs in `s` at position `i`. */
  predicate OccursAt(s: string, pat: string, i: int)
  {
    0 <= i && i + |pat| <= |s| && s[i..i + |pat|] == pat
  }

  /** The leftmost position at or after `from` where `pat` occurs in `s`. */
  function FindFrom(s: string, pat: string, from: nat): (r: Option<nat>)
    ensures r.Some? ==> from <= r.value && r.value + |pat| <= |s|
    decreases |s| - from
  {
    if from + |pat| > |s| then None
    else if s[from..from + |pat|] == pat then Some(from)
    else FindFrom(s, pat, from + 1)
  }

  /** `FindFrom` finds an occurrence with none before it, or reports that there is none. */
  lemma {:induction false} FindFromSpec(s: string, pat: string, from: nat)
    ensures var r := FindFrom(s, pat, from);
      && (r.Some? ==> from <= r.value && OccursAt(s, pat, r.value)
                      && forall j :: from <= j < r.value ==> !OccursAt(s, pat, j))
      && (r.None? ==> forall j :: from <= j <= |s| ==> !OccursAt(s, pat, j))
    decreases |s| - from
  {
    if from + |pat| <= |s| && s[from..from + |pat|] != pat {
      FindFromSpec(s, pat, from + 1);
    }
  }

  /** `s.replace(pat, '')` for a string pattern: the leftmost occurrence is cut out. */
  function RemoveFirst(s: string, pat: string): (r: string)
    requires pat != []
    ensures |r| <= |s|
  {
    match FindFrom(s, pat, 0)
    case None => s
    case Some(i) => s[..i] + s[i + |pat|..]
  }

  /** At most one occurrence is cut out. */
  lemma {:induction false} RemoveFirstLength(s: string, pat: string)
    requires pat != []
    ensures |RemoveFirst(s, pat)| == |s| || |RemoveFirst(s, pat)| == |s| - |pat|
  {
    FindFromSpec(s, pat, 0);
  }

  lemma {:induction false} RemoveFirstAt(s: string, pat: string, i: nat)
    requires pat != []
    requires OccursAt(s, pat, i)
    requires forall j :: 0 <= j < i ==> !OccursAt(s, pat, j)
    ensures RemoveFirst(s, pat) == s[..i] + s[i + |pat|..]
  {
    FindFromSpec(s, pat, 0);
  }

  lemma {:induction false} RemoveFirstAbsent(s: string, pat: string)
    requires pat != []
    requires forall j :: 0 <= j <= |s| ==> !OccursAt(s, pat, j)
    ensures RemoveFirst(s, pat) == s
  {
    FindFromSpec(s, pat, 0);
  }

  /** `s` does not contain the character `c`. */
  predicate Avoids(s: string, c: char) { forall i :: 0 <= i < |s| ==> s[i] != c }

  lemma {:induction false} RemoveFirstAvoids(s: string, pat: string, c: char)
    requires pat != [] && Avoids(s, c)
    ensures Avoids(RemoveFirst(s, pat), c)
  {
    var r := RemoveFirst(s, pat);
    if FindFrom(s, pat, 0).Some? {
      var i := FindFrom(s, pat, 0).value;
      FindFromSpec(s, pat, 0);
      forall k | 0 <= k < |r| ensures r[k] != c {
        if k < i {
          assert r[k] == s[k];
        } else {
          assert r[k] == s[k + |pat|];
        }
      }
    }
  }

  /** `s.replace(/[-_]/g, ' ')`. */
  function SpaceDashes(s: string): (r: string)
    ensures |r| == |s|
    decreases |s|
  {
    if s == [] then []
    else SpaceDashes(s[..|s| - 1]) + [SpaceOf(s[|s| - 1])]
  }

  function SpaceOf(c: char): char
  {
    if c == '-' || c == '_' then ' ' else c
  }

  /** Dashes and underscores become spaces; every other character stays where it was. */
  lemma {:induction false} SpaceDashesSpec(s: string)
    ensures var r := SpaceDashes(s);
      && |r| == |s| && Avoids(r, '-') && Avoids(r, '_')
      && forall i :: 0 <= i < |s| ==> r[i] == if s[i] == '-' || s[i] == '_' then ' ' else s[i]
    decreases |s|
  {
    if s != [] {
      var init := s[..|s| - 1];
      SpaceDashesSpec(init);
      forall i | 0 <= i < |init| ensures s[i] == init[i] { }
    }
  }

  /** `getFileName(f)`: the display name of a route derived from its file path. */
  function GetFileName(f: string): (r: string)
    ensures |r| <= |f|
  {
    SpaceDashes(RemoveFirst(LastSegment(f), ".gpx"))
  }

  /**
   * A display name holds no `/`, `-` or `_`; it is as long as the last path
   * segment, or shorter by exactly four when a `.gpx` was cut out.
   */
  lemma {:induction false} GetFileNameClean(f: string)
    ensures Avoids(GetFileName(f), '/') && Avoids(GetFileName(f), '-') && Avoids(GetFileName(f), '_')
    ensures |GetFileName(f)| == |LastSegment(f)| || |GetFileName(f)| == |LastSegment(f)| - 4
  {
    var seg := LastSegment(f);
    LastSegmentSpec(f);
    assert Avoids(seg, '/');
    RemoveFirstAvoids(seg, ".gpx", '/');
    RemoveFirstLength(seg, ".gpx");
    SpaceDashesSpec(RemoveFirst(seg, ".gpx"));
  }

  /** In `stem + ".gpx"` the first `.gpx` is the appended one when the stem holds none. */
  lemma {:induction false} GpxSuffixIsFirst(stem: string)
    requires forall j :: 0 <= j <= |stem| ==> !OccursAt(stem, ".gpx", j)
    ensures OccursAt(stem + ".gpx", ".gpx", |stem|)
    ensures forall j :: 0 <= j < |stem| ==> !OccursAt(stem + ".gpx", ".gpx", j)
  {
    var seg := stem + ".gpx";
    assert seg[|stem|..|stem| + 4] == ".gpx";
    forall j | 0 <= j < |stem| ensures !OccursAt(seg, ".gpx", j) {
      if j + 4 <= |stem| {
        assert seg[j..j + 4] == stem[j..j + 4];
        assert !OccursAt(stem, ".gpx", j);
      } else {
        // the window covers the '.' that starts the appended suffix
        assert seg[j..j + 4][|stem| - j] == '.';
      }
    }
  }

  lemma {:induction false} LastSegmentAfterSlash(prefix: string, seg: string)
    requires '/' !in seg
    ensures LastSegment(prefix + "/" + seg) == seg
    decreases |seg|
  {
    var f := prefix + "/" + seg;
    if seg != [] {
      var init := seg[..|seg| - 1];
      assert f[..|f| - 1] == prefix + "/" + init;
      LastSegmentAfterSlash(prefix, init);
      assert init + [seg[|seg| - 1]] == seg;
    }
  }

  /** A path without a `/` is its own last segment. */
  lemma {:induction false} LastSegmentWhole(seg: string)
    requires '/' !in seg
    ensures LastSegment(seg) == seg
    decreases |seg|
  {
    if seg != [] {
      var init := seg[..|seg| - 1];
      LastSegmentWhole(init);
      assert init + [seg[|seg| - 1]] == seg;
    }
  }

  /**
   * For `dir/stem.gpx` and for a bare `stem.gpx`, where the stem holds no
   * `/` and no `.gpx`, the display name is the stem with dashes and
   * underscores turned into spaces.
   */
  lemma {:induction false} GetFileNameOfPath(dir: string, stem: string)
    requires '/' !in stem
    requires forall j :: 0 <= j <= |stem| ==> !OccursAt(stem, ".gpx", j)
    ensures GetFileName(dir + "/" + stem + ".gpx") == SpaceDashes(stem)
    ensures GetFileName(stem + ".gpx") == SpaceDashes(stem)
  {
    var seg := stem + ".gpx";
    assert dir + "/" + stem + ".gpx" == dir + "/" + seg;
    LastSegmentAfterSlash(dir, seg);
    LastSegmentWhole(seg);
    GpxSuffixIsFirst(stem);
    RemoveFirstAt(seg, ".gpx", |stem|);
    assert seg[..|stem|] + seg[|stem| + 4..] == stem;
  }

  /** The default name `Track {index+1}` / `Route {index+1}`. */
  function DefaultName(kind: string, index: nat): (r: string)
    ensures |r| >= |kind| + 2 && r[..|kind| + 1] == kind + " "
    ensures IsDigits(r[|kind| + 1..]) && DigitsValue(r[|kind| + 1..]) == index + 1
    ensures r[|kind| + 1] != '0'
  {
    var digits := NatToString(index + 1);
    DigitsRoundTrip(index + 1);
    assert (kind + " " + digits)[|kind| + 1..] == digits;
    kind + " " + digits
  }
}
