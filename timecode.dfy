/**
 * The timecode conversions of the clock: `HH:MM:SS:FF` at 30 frames per second.
 *
 * Seconds are exact Dafny reals, so the properties below hold of exact
 * arithmetic; they are not claims about IEEE-754 doubles. JavaScript's `%`
 * keeps the sign of the dividend, and is written out as `JsRem`.
 */
module Timecode {
  import opened Strings

  // The clock runs at 30 frames per second: 1800 frames a minute, 108000 an hour.

  /** The four numeric fields of a timecode, in the order they are printed. */
  datatype Fields = Fields(hours: int, minutes: int, seconds: int, frames: int)

  predicate NonNegative(f: Fields)
  {
    f.hours >= 0 && f.minutes >= 0 && f.seconds >= 0 && f.frames >= 0
  }

  /** What a running clock shows: hours unbounded, the other fields in range. */
  predicate Canonical(f: Fields)
  {
    f.hours >= 0 && 0 <= f.minutes < 60 && 0 <= f.seconds < 60 && 0 <= f.frames < 30
  }

  /** Position of a timecode on the frame axis. */
  function TotalFrames(f: Fields): int
  {
    ((f.hours * 60 + f.minutes) * 60 + f.seconds) * 30 + f.frames
  }

  /** Reference definition: the canonical timecode of the `n`-th frame. */
  function FramesToFields(n: nat): (f: Fields)
    ensures Canonical(f)
  {
    Fields(n / 108000, n / 1800 % 60, n / 30 % 60, n % 30)
  }

  /** `FramesToFields` and `TotalFrames` are inverse: every frame has exactly one canonical timecode. */
  lemma TotalFramesOfFields(n: nat)
    ensures TotalFrames(FramesToFields(n)) == n
  {
    var secs, fr := n / 30, n % 30;
    var mins, s := secs / 60, secs % 60;
    var h, m := mins / 60, mins % 60;
    assert n == secs * 30 + fr && secs == mins * 60 + s && mins == h * 60 + m;
    assert mins == n / 1800 && h == n / 108000;
    assert FramesToFields(n) == Fields(h, m, s, fr);
  }

  lemma FramesToFieldsOfTotal(f: Fields)
    requires Canonical(f)
    ensures TotalFrames(f) >= 0 && FramesToFields(TotalFrames(f)) == f
  {
    var mins := f.hours * 60 + f.minutes;
    var secs := mins * 60 + f.seconds;
    var n := secs * 30 + f.frames;
    assert n == TotalFrames(f);
    DivModUnique(n, 30, secs, f.frames);
    DivModUnique(secs, 60, mins, f.seconds);
    DivModUnique(mins, 60, f.hours, f.minutes);
    assert n / 1800 == mins && n / 108000 == f.hours;
  }

  lemma DivModUnique(n: int, k: int, q: int, r: int)
    requires k == 30 || k == 60
    requires n == q * k + r && 0 <= r < k
    ensures n / k == q && n % k == r
  {
  }

  // ---------------------------------------------------------------------------
  // Printing and parsing
  // ---------------------------------------------------------------------------

  /** The template `${hh}:${mm}:${ss}:${ff}` with every field through `padStart(2, '0')`. */
  function Format(f: Fields): (t: string)
  {
    Pad2(f.hours) + ":" + Pad2(f.minutes) + ":" + Pad2(f.seconds) + ":" + Pad2(f.frames)
  }

  /** The inputs `timecode.split(':').map(Number)` reads as four numbers in this model. */
  predicate WellFormed(t: string)
  {
    var parts := Split(t, ':');
    |parts| == 4 && AllDigits(parts[0]) && AllDigits(parts[1]) && AllDigits(parts[2]) && AllDigits(parts[3])
  }

  function ParseFields(t: string): (f: Fields)
    requires WellFormed(t)
    ensures NonNegative(f)
  {
    var parts := Split(t, ':');
    Fields(ParseNat(parts[0]), ParseNat(parts[1]), ParseNat(parts[2]), ParseNat(parts[3]))
  }

  /** Four separator-free fields joined by ':' split back into those four fields. */
  lemma SplitFour(a: string, b: string, c: string, d: string)
    requires ':' !in a && ':' !in b && ':' !in c && ':' !in d
    ensures Split(a + ":" + b + ":" + c + ":" + d, ':') == [a, b, c, d]
  {
    var bcd := b + [':'] + (c + [':'] + d);
    assert a + ":" + b + ":" + c + ":" + d == a + [':'] + bcd;
    SplitThree(b, c, d);
    SplitCons(a, ':', bcd);
  }

  lemma SplitThree(b: string, c: string, d: string)
    requires ':' !in b && ':' !in c && ':' !in d
    ensures Split(b + [':'] + (c + [':'] + d), ':') == [b, c, d]
  {
    SplitNoSep(d, ':');
    SplitCons(c, ':', d);
    SplitCons(b, ':', c + [':'] + d);
  }

  lemma DigitsHaveNoColon(s: string)
    requires AllDigits(s)
    ensures ':' !in s
  {
    assert !IsDigit(':');
  }

  /** Reading a printed timecode back yields the fields that were printed. */
  lemma ParseFormat(f: Fields)
    requires NonNegative(f)
    ensures WellFormed(Format(f)) && ParseFields(Format(f)) == f
  {
    SplitFormat(f);
    Pad2Parse(f.hours);
    Pad2Parse(f.minutes);
    Pad2Parse(f.seconds);
    Pad2Parse(f.frames);
  }

  /** The printed fields are exactly the parts `split(':')` finds. */
  lemma SplitFormat(f: Fields)
    requires NonNegative(f)
    ensures Split(Format(f), ':') == [Pad2(f.hours), Pad2(f.minutes), Pad2(f.seconds), Pad2(f.frames)]
  {
    var h, m, s, fr := Pad2(f.hours), Pad2(f.minutes), Pad2(f.seconds), Pad2(f.frames);
    DigitsHaveNoColon(h);
    DigitsHaveNoColon(m);
    DigitsHaveNoColon(s);
    DigitsHaveNoColon(fr);
    SplitFour(h, m, s, fr);
  }

  /** Fields below 100 print as exactly `HH:MM:SS:FF`, eleven characters. */
  lemma FormatWidth(f: Fields)
    requires NonNegative(f) && f.hours < 100 && f.minutes < 100 && f.seconds < 100 && f.frames < 100
    ensures |Format(f)| == 11
  {
  }

  // ---------------------------------------------------------------------------
  // timecodeToSeconds
  // ---------------------------------------------------------------------------

  /** `hours * 3600 + minutes * 60 + seconds + frames / 30`. */
  function TimecodeToSeconds(t: string): (x: real)
    requires WellFormed(t)
    ensures x >= 0.0
    ensures x * 30.0 == TotalFrames(ParseFields(t)) as real
  {
    var f := ParseFields(t);
    var x := f.hours as real * 3600.0 + f.minutes as real * 60.0 + f.seconds as real + f.frames as real / 30.0;
    assert x * 30.0 == (f.hours * 108000 + f.minutes * 1800 + f.seconds * 30 + f.frames) as real;
    x
  }

  /** On a printed timecode the conversion reads off exactly the printed numbers. */
  lemma TimecodeToSecondsFormat(f: Fields)
    requires NonNegative(f)
    ensures WellFormed(Format(f))
    ensures TimecodeToSeconds(Format(f))
         == f.hours as real * 3600.0 + f.minutes as real * 60.0 + f.seconds as real + f.frames as real / 30.0
  {
    ParseFormat(f);
  }

  // ---------------------------------------------------------------------------
  // secondsToTimecode
  // ---------------------------------------------------------------------------

  /** JavaScript's truncation toward zero of a number. */
  function Trunc(x: real): (n: int)
    ensures x >= 0.0 ==> n as real <= x < n as real + 1.0
    ensures x < 0.0 ==> n as real - 1.0 < x <= n as real
  {
    if x >= 0.0 then x.Floor else -((-x).Floor)
  }

  /** JavaScript's `x % y`: the remainder takes the sign of `x` and is smaller than `y` in size. */
  function JsRem(x: real, y: real): (r: real)
    requires y > 0.0
    ensures x >= 0.0 ==> 0.0 <= r < y
    ensures x < 0.0 ==> -y < r <= 0.0
    ensures ((x - r) / y).Floor as real == (x - r) / y
  {
    TruncRemainder(x, y, Trunc(x / y));
    x - y * Trunc(x / y) as real
  }

  lemma TruncRemainder(x: real, y: real, q: int)
    requires y > 0.0 && q == Trunc(x / y)
    ensures x >= 0.0 ==> 0.0 <= x - y * q as real < y
    ensures x < 0.0 ==> -y < x - y * q as real <= 0.0
    ensures (x - (x - y * q as real)) / y == q as real
  {
    var z := x / y;
    if x >= 0.0 {
      assert z >= 0.0 by { if z < 0.0 { NegativeProduct(y, z); } }
      RemainderBelow(x, y, z, q as real);
    } else {
      assert z < 0.0 by { if z >= 0.0 { NonNegativeProduct(y, z); } }
      RemainderAbove(x, y, z, q as real);
    }
    var w := q as real;
    assert x - (x - y * w) == y * w;
  }

  /** `x = y * z` with `z` in `[lo, lo + 1)` lies less than `y` above `y * lo`. */
  lemma RemainderBelow(x: real, y: real, z: real, lo: real)
    requires y > 0.0 && x == y * z && lo <= z < lo + 1.0
    ensures 0.0 <= x - y * lo < y
  {
    var d := z - lo;
    Distribute(y, z, lo);
    assert x - y * lo == y * d;
    NonNegativeProduct(y, d);
    FractionBelow(y, d);
  }

  /** `x = y * z` with `z` in `(hi - 1, hi]` lies less than `y` below `y * hi`. */
  lemma RemainderAbove(x: real, y: real, z: real, hi: real)
    requires y > 0.0 && x == y * z && hi - 1.0 < z <= hi
    ensures -y < x - y * hi <= 0.0
  {
    var d := hi - z;
    Distribute(y, hi, z);
    assert y * hi - x == y * d;
    NonNegativeProduct(y, d);
    FractionBelow(y, d);
  }

  lemma FractionBelow(y: real, d: real)
    requires y > 0.0 && d < 1.0
    ensures y * d < y
  {
    PositiveProduct(y, 1.0 - d);
    Distribute(y, 1.0, d);
    assert y * 1.0 == y;
  }

  lemma Distribute(a: real, b: real, c: real)
    ensures a * (b - c) == a * b - a * c
  {
  }

  lemma PositiveProduct(a: real, b: real)
    requires a > 0.0 && b > 0.0
    ensures a * b > 0.0
  {
  }

  lemma NonNegativeProduct(a: real, b: real)
    requires a > 0.0 && b >= 0.0
    ensures a * b >= 0.0
  {
  }

  lemma NegativeProduct(a: real, b: real)
    requires a > 0.0 && b < 0.0
    ensures a * b < 0.0
  {
  }

  /**
   * The four `Math.floor` expressions of `secondsToTimecode`. For a non-negative
   * total every field but the hours is in range; the hours are not wrapped at 24.
   */
  function SecondsToFields(x: real): (f: Fields)
    ensures x >= 0.0 ==> Canonical(f) && f.hours == (x / 3600.0).Floor
  {
    var f := Fields((x / 3600.0).Floor, (JsRem(x, 3600.0) / 60.0).Floor, JsRem(x, 60.0).Floor,
                    (JsRem(x, 1.0) * 30.0).Floor);
    if x >= 0.0 then
      SecondsToFieldsByFrames(x);
      f
    else f
  }

  /** `secondsToTimecode`: a non-negative total prints as the canonical timecode of the frame it falls in. */
  function SecondsToTimecode(x: real): (t: string)
    ensures x >= 0.0 ==> (x * 30.0).Floor >= 0 && t == Format(FramesToFields((x * 30.0).Floor))
  {
    var f := SecondsToFields(x);
    if x >= 0.0 then
      SecondsToFieldsByFrames(x);
      Format(f)
    else Format(f)
  }

  /** Only the frame a non-negative total falls in matters: the conversion truncates, never rounds. */
  lemma SecondsToFieldsByFrames(x: real)
    requires x >= 0.0
    ensures (x * 30.0).Floor >= 0
    ensures Fields((x / 3600.0).Floor, (JsRem(x, 3600.0) / 60.0).Floor, JsRem(x, 60.0).Floor,
                   (JsRem(x, 1.0) * 30.0).Floor)
         == FramesToFields((x * 30.0).Floor)
  {
    var n := (x * 30.0).Floor;
    var h := (x / 3600.0).Floor;
    var m := (x / 60.0).Floor;
    var s := x.Floor;
    assert h == n / 108000 by {
      assert x / 3600.0 == (x * 30.0) / 108000.0;
      FloorDiv(x * 30.0, 108000);
    }
    assert m == n / 1800 by {
      assert x / 60.0 == (x * 30.0) / 1800.0;
      FloorDiv(x * 30.0, 1800);
    }
    assert s == n / 30 by {
      assert x == (x * 30.0) / 30.0;
      FloorDiv(x * 30.0, 30);
    }
    assert n / 1800 / 60 == n / 108000 && n / 30 / 60 == n / 1800;
    assert JsRem(x, 3600.0) == x - 3600.0 * h as real;
    assert (JsRem(x, 3600.0) / 60.0).Floor == n / 1800 % 60 by {
      assert JsRem(x, 3600.0) / 60.0 == x / 60.0 - (60 * h) as real;
      FloorShift(x / 60.0, -60 * h);
    }
    assert JsRem(x, 60.0) == x - 60.0 * m as real;
    assert JsRem(x, 60.0).Floor == n / 30 % 60 by {
      FloorShift(x, -60 * m);
    }
    assert JsRem(x, 1.0) == x - s as real;
    assert (JsRem(x, 1.0) * 30.0).Floor == n % 30 by {
      assert JsRem(x, 1.0) * 30.0 == x * 30.0 - (30 * s) as real;
      FloorShift(x * 30.0, -30 * s);
    }
  }

  /** Round trip: a canonical timecode survives seconds and back unchanged. */
  lemma RoundTrip(f: Fields)
    requires Canonical(f)
    ensures WellFormed(Format(f))
    ensures SecondsToTimecode(TimecodeToSeconds(Format(f))) == Format(f)
  {
    ParseFormat(f);
    var x := TimecodeToSeconds(Format(f));
    assert (x * 30.0).Floor == TotalFrames(f);
    SecondsToFieldsOfFrames(x, TotalFrames(f));
    FramesToFieldsOfTotal(f);
    assert SecondsToFields(x) == f;
  }

  lemma SecondsToFieldsOfFrames(x: real, k: nat)
    requires x >= 0.0 && (x * 30.0).Floor == k
    ensures SecondsToFields(x) == FramesToFields(k)
  {
    SecondsToFieldsByFrames(x);
  }

  /** With every field below 100 hours the printed timecode has the fixed width `HH:MM:SS:FF`. */
  lemma SecondsToTimecodeWidth(x: real)
    requires 0.0 <= x < 360000.0
    ensures |SecondsToTimecode(x)| == 11
  {
    var f := SecondsToFields(x);
    assert f.hours < 100;
    FormatWidth(f);
  }

  /** A negative total (a clock read before its anchor) prints negative fields. */
  lemma SecondsToTimecodeNegative()
    ensures SecondsToTimecode(-0.5) == "-1:-1:-1:-15"
  {
    NegativeHalfFields();
    FormatNegativeFields();
  }

  /** Each remainder of -0.5 keeps its sign, so every `Math.floor` gives a negative field. */
  lemma NegativeHalfFields()
    ensures SecondsToFields(-0.5) == Fields(-1, -1, -1, -15)
  {
    var x := -0.5;
    assert Trunc(x / 3600.0) == 0 && JsRem(x, 3600.0) == x;
    assert Trunc(x / 60.0) == 0 && JsRem(x, 60.0) == x;
    assert Trunc(x / 1.0) == 0 && JsRem(x, 1.0) == x;
  }

  lemma FormatNegativeFields()
    ensures Format(Fields(-1, -1, -1, -15)) == "-1:-1:-1:-15"
  {
    assert Pad2(-1) == "-1" by { assert IntToString(-1) == "-1"; }
    assert Pad2(-15) == "-15" by { assert IntToString(-15) == "-15"; }
  }

  // ---------------------------------------------------------------------------
  // The manual clock: base timecode plus time elapsed since the anchor
  // ---------------------------------------------------------------------------

  /** `timecodeToSeconds(base) + (now - start) / 1000`: the base plus the seconds elapsed since the anchor. */
  function ManualSeconds(base: string, start: int, now: int): (x: real)
    requires WellFormed(base)
    ensures now == start ==> x == TimecodeToSeconds(base)
    ensures start <= now ==> x >= TimecodeToSeconds(base)
  {
    TimecodeToSeconds(base) + (now - start) as real / 1000.0
  }

  /**
   * `secondsToTimecode(timecodeToSeconds(base) + (now - start) / 1000)`. Once the
   * anchor has passed, the manual clock counts whole frames from the base,
   * recomputed from the absolute delta `now - start` on every tick rather than
   * accumulated.
   */
  function ManualTimecode(base: string, start: int, now: int): (t: string)
    requires WellFormed(base)
    ensures start <= now ==> t == Format(FramesToFields(ManualFrameCount(base, start, now)))
  {
    if start <= now then
      ManualSecondsFrame(base, start, now);
      SecondsToTimecode(ManualSeconds(base, start, now))
    else SecondsToTimecode(ManualSeconds(base, start, now))
  }

  /** The frame the manual clock is on: the base's frame plus the whole frames elapsed since the anchor. */
  function ManualFrameCount(base: string, start: int, now: int): (n: nat)
    requires WellFormed(base) && start <= now
    ensures n >= TotalFrames(ParseFields(base))
    ensures now == start ==> n == TotalFrames(ParseFields(base))
  {
    TotalFrames(ParseFields(base)) + (now - start) * 3 / 100
  }

  /** After the anchor the manual total is non-negative and falls in frame `ManualFrameCount`. */
  lemma ManualSecondsFrame(base: string, start: int, now: int)
    requires WellFormed(base) && start <= now
    ensures ManualSeconds(base, start, now) >= 0.0
    ensures (ManualSeconds(base, start, now) * 30.0).Floor == ManualFrameCount(base, start, now)
  {
    ElapsedFrames(ManualSeconds(base, start, now), TimecodeToSeconds(base), TotalFrames(ParseFields(base)),
                  now - start, ManualFrameCount(base, start, now));
  }

  lemma ManualFieldsFrames(base: string, start: int, now: int)
    requires WellFormed(base) && start <= now
    ensures SecondsToFields(ManualSeconds(base, start, now)) == FramesToFields(ManualFrameCount(base, start, now))
  {
    var x := ManualSeconds(base, start, now);
    var k := ManualFrameCount(base, start, now);
    ElapsedFrames(x, TimecodeToSeconds(base), TotalFrames(ParseFields(base)), now - start, k);
    SecondsToFieldsOfFrames(x, k);
  }

  lemma ElapsedFrames(x: real, b: real, n: int, d: int, k: int)
    requires b * 30.0 == n as real && d >= 0 && x == b + d as real / 1000.0 && k == n + d * 3 / 100
    ensures (x * 30.0).Floor == k
  {
    assert x * 30.0 == n as real + (3 * d) as real / 100.0;
    FloorShift((3 * d) as real / 100.0, n);
    FloorIntRatio(3 * d, 100);
  }

  /** One hour on the base and two seconds on the clock read `01:00:02:00`. */
  lemma ManualTwoSecondsAfterOneHour(start: int)
    ensures WellFormed("01:00:00:00")
    ensures ManualTimecode("01:00:00:00", start, start + 2000) == "01:00:02:00"
  {
    Pad2Digit(0);
    Pad2Digit(1);
    Pad2Digit(2);
    assert DigitChar(0) == '0' && DigitChar(1) == '1' && DigitChar(2) == '2';
    var base := Fields(1, 0, 0, 0);
    var later := Fields(1, 0, 2, 0);
    assert Format(base) == "01:00:00:00";
    assert Format(later) == "01:00:02:00";
    ParseFormat(base);
    assert ManualFrameCount("01:00:00:00", start, start + 2000) == 108060;
    FramesOneHourTwoSeconds();
  }

  lemma FramesOneHourTwoSeconds()
    ensures FramesToFields(108060) == Fields(1, 0, 2, 0)
  {
  }

  // ---------------------------------------------------------------------------
  // The automatic clock: local time of day
  // ---------------------------------------------------------------------------

  const MillisPerDay: int := 24 * 60 * 60 * 1000

  /** `Math.floor(ms / 33.33)`: the frame of a millisecond within its second. */
  function WallClockFrame(ms: int): (fr: int)
    ensures fr as real <= ms as real / 33.33 < fr as real + 1.0
    ensures 0 <= ms < 1000 ==> 0 <= fr < 30
  {
    (ms as real / 33.33).Floor
  }

  /** The milliseconds since local midnight of the instant `now` in a zone `zoneOffset` ahead of UTC. */
  function LocalMillis(now: int, zoneOffset: int): (d: int)
    ensures 0 <= d < MillisPerDay
    ensures (now + zoneOffset - d) % MillisPerDay == 0
  {
    (now + zoneOffset) % MillisPerDay
  }

  /**
   * `getHours()`, `getMinutes()`, `getSeconds()` and the frame of
   * `getMilliseconds()`, for the instant `now` (milliseconds since the epoch)
   * in a zone `zoneOffset` milliseconds ahead of UTC: together they are the
   * time elapsed since local midnight.
   */
  function WallClockFields(now: int, zoneOffset: int): (f: Fields)
    ensures Canonical(f) && f.hours < 24
    ensures ((f.hours * 60 + f.minutes) * 60 + f.seconds) * 1000 + LocalMillis(now, zoneOffset) % 1000
            == LocalMillis(now, zoneOffset)
    ensures f.frames == WallClockFrame(LocalMillis(now, zoneOffset) % 1000)
  {
    var day := LocalMillis(now, zoneOffset);
    TimeOfDaySplit(day);
    Fields(day / 3600000, day / 60000 % 60, day / 1000 % 60, WallClockFrame(day % 1000))
  }

  /** Hours, minutes, seconds and milliseconds of a time of day add back up to it. */
  lemma TimeOfDaySplit(d: int)
    requires 0 <= d < MillisPerDay
    ensures d / 3600000 < 24
    ensures ((d / 3600000 * 60 + d / 60000 % 60) * 60 + d / 1000 % 60) * 1000 + d % 1000 == d
  {
    var secs, ms := d / 1000, d % 1000;
    var mins, s := secs / 60, secs % 60;
    var h, m := mins / 60, mins % 60;
    assert d == secs * 1000 + ms && secs == mins * 60 + s && mins == h * 60 + m;
    assert mins == d / 60000 && h == d / 3600000;
  }

  /** The automatic timecode: the time of day, printed `HH:MM:SS:FF`. */
  function WallClockTimecode(now: int, zoneOffset: int): (t: string)
    ensures |t| == 11
  {
    FormatWidth(WallClockFields(now, zoneOffset));
    Format(WallClockFields(now, zoneOffset))
  }

  /** Half a second past local noon is frame 15 of `12:00:00`. */
  lemma WallClockHalfPastNoon()
    ensures WallClockFields(43200500, 0) == Fields(12, 0, 0, 15)
  {
    assert LocalMillis(43200500, 0) == 43200500;
    assert WallClockFrame(500) == 15;
  }

  /** The automatic timecode has fixed width and reads back as the current local time of day. */
  lemma WallClockTimecodeReadsBack(now: int, zoneOffset: int)
    ensures |WallClockTimecode(now, zoneOffset)| == 11
    ensures WellFormed(WallClockTimecode(now, zoneOffset))
    ensures ParseFields(WallClockTimecode(now, zoneOffset)) == WallClockFields(now, zoneOffset)
    ensures Canonical(ParseFields(WallClockTimecode(now, zoneOffset)))
    ensures ParseFields(WallClockTimecode(now, zoneOffset)).hours < 24
  {
    var f := WallClockFields(now, zoneOffset);
    FormatWidth(f);
    ParseFormat(f);
  }

  // ---------------------------------------------------------------------------
  // Arithmetic facts about floors and integer division
  // ---------------------------------------------------------------------------

  lemma FloorShift(y: real, k: int)
    ensures (y + k as real).Floor == y.Floor + k
  {
  }

  /** Flooring a quotient by a positive integer is integer division of the floor. */
  lemma FloorDiv(y: real, k: int)
    requires y >= 0.0 && k > 0
    ensures (y / k as real).Floor == y.Floor / k
  {
    var m := y.Floor;
    var q := m / k;
    var z := y / k as real;
    assert z * k as real == y;
    assert q * k <= m < q * k + k;
    assert q as real * k as real <= y;
    assert y < (q + 1) as real * k as real;
    assert q as real <= z;
    assert z < (q + 1) as real;
  }

  lemma FloorIntRatio(a: int, k: int)
    requires k > 0
    ensures (a as real / k as real).Floor == a / k
  {
    var q := a / k;
    var z := a as real / k as real;
    assert z * k as real == a as real;
    assert q * k <= a < q * k + k;
    assert q as real <= z;
    assert z < (q + 1) as real;
  }
}
