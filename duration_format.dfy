/**
 * The `durationformat` template filter: a number of seconds rendered as
 * `h:mm:ss`, or `m:ss` under an hour, and the empty string for no duration.
 */
module DurationFormat {
  import opened Optional
  import opened PyStr

  /** Python's `int(x)` on a float: truncation toward zero. */
  function Trunc(x: real): (n: int)
    ensures x >= 0.0 ==> 0 <= n && n as real <= x < n as real + 1.0
    ensures x < 0.0 ==> n <= 0 && n as real - 1.0 < x <= n as real
  {
    if x >= 0.0 then x.Floor else -((-x).Floor)
  }

  /** `f"{h}:{m:02}:{s:02}"`. */
  function LongClock(h: nat, m: nat, s: nat): string {
    NatStr(h) + ":" + Pad2(m) + ":" + Pad2(s)
  }

  /** `f"{m}:{s:02}"`. */
  function ShortClock(m: nat, s: nat): string {
    NatStr(m) + ":" + Pad2(s)
  }

  /**
   * `durationformat` (main.py:332-346).  The argument is `None` or a number;
   * integer durations (tracks) are embedded as reals.  Python's `//` and `%`
   * by a positive divisor agree with Dafny's, so a negative whole-second
   * count gives a negative hour count and falls into the `m:ss` branch with
   * the minutes and seconds of `seconds % 3600`.
   */
  function Render(value: Option<real>): (r: string)
    ensures r == [] <==> value.None? || value.value == 0.0
  {
    if value.None? || value.value == 0.0 then "" else Clock(Trunc(value.value))
  }

  /** The clock text for a whole-second count (`seconds = int(value)` onwards). */
  function Clock(seconds: int): (r: string)
    ensures r != []
  {
    var h := seconds / 3600;
    var m := (seconds % 3600) / 60;
    var s := seconds % 60;
    if h > 0 then LongClock(h, m, s) else ShortClock(m, s)
  }

  /**
   * Reads a clock string back: two or three colon-separated decimal fields,
   * every field after the first exactly two digits wide.
   */
  function ParseClock(r: string): Option<int> {
    var parts := Split(r, ':');
    if |parts| == 3 && AllDigits(parts[0]) && AllDigits(parts[1]) && AllDigits(parts[2])
       && |parts[1]| == 2 && |parts[2]| == 2
    then Some(DecimalValue(parts[0]) * 3600 + DecimalValue(parts[1]) * 60 + DecimalValue(parts[2]))
    else if |parts| == 2 && AllDigits(parts[0]) && AllDigits(parts[1]) && |parts[1]| == 2
    then Some(DecimalValue(parts[0]) * 60 + DecimalValue(parts[1]))
    else None
  }

  lemma DigitsHaveNoColon(s: string)
    requires AllDigits(s)
    ensures ':' !in s
  {
  }

  lemma {:induction false} LongClockFields(h: nat, m: nat, s: nat)
    requires m < 60 && s < 60
    ensures Split(LongClock(h, m, s), ':') == [NatStr(h), Pad2(m), Pad2(s)]
  {
    var parts := [NatStr(h), Pad2(m), Pad2(s)];
    DigitsHaveNoColon(NatStr(h));
    DigitsHaveNoColon(Pad2(m));
    DigitsHaveNoColon(Pad2(s));
    assert parts[1..] == [Pad2(m), Pad2(s)];
    assert parts[1..][1..] == [Pad2(s)];
    assert Join(parts[1..], ':') == Pad2(m) + [':'] + Pad2(s);
    assert Join(parts, ':') == NatStr(h) + [':'] + (Pad2(m) + [':'] + Pad2(s));
    assert Join(parts, ':') == LongClock(h, m, s);
    SplitJoin(parts, ':');
  }

  lemma {:induction false} ShortClockFields(m: nat, s: nat)
    requires s < 60
    ensures Split(ShortClock(m, s), ':') == [NatStr(m), Pad2(s)]
  {
    var parts := [NatStr(m), Pad2(s)];
    DigitsHaveNoColon(NatStr(m));
    DigitsHaveNoColon(Pad2(s));
    assert parts[1..] == [Pad2(s)];
    assert Join(parts, ':') == ShortClock(m, s);
    SplitJoin(parts, ':');
  }

  /** A long clock reads back as its hours, minutes and seconds, from three fields. */
  lemma LongClockRoundTrip(h: nat, m: nat, s: nat)
    requires m < 60 && s < 60
    ensures ParseClock(LongClock(h, m, s)) == Some(h * 3600 + m * 60 + s)
    ensures |Split(LongClock(h, m, s), ':')| == 3
  {
    LongClockFields(h, m, s);
  }

  /** A short clock reads back as its minutes and seconds, from two fields. */
  lemma ShortClockRoundTrip(m: nat, s: nat)
    requires s < 60
    ensures ParseClock(ShortClock(m, s)) == Some(m * 60 + s)
    ensures |Split(ShortClock(m, s), ':')| == 2
  {
    ShortClockFields(m, s);
  }

  /**
   * Hours, minutes and seconds are a decomposition of the whole-second
   * count: minutes and seconds in range, and the parts sum back to it.
   */
  lemma Decomposition(seconds: int)
    ensures 0 <= (seconds % 3600) / 60 < 60 && 0 <= seconds % 60 < 60
    ensures ((seconds % 3600) / 60) * 60 + seconds % 60 == seconds % 3600
    ensures (seconds / 3600) * 3600 + ((seconds % 3600) / 60) * 60 + seconds % 60 == seconds
  {
    var q := seconds / 3600;
    var r := seconds % 3600;
    assert seconds == q * 3600 + r;
    assert r == (r / 60) * 60 + r % 60;
    assert seconds == (q * 60 + r / 60) * 60 + r % 60;
    ModOfMultiple(q * 60 + r / 60, r % 60);
  }

  lemma ModOfMultiple(a: int, r: int)
    requires 0 <= r < 60
    ensures (a * 60 + r) % 60 == r
  {
  }

  /** The hour count is positive exactly when the whole-second count is at least an hour. */
  lemma HoursPositive(seconds: int)
    ensures seconds / 3600 > 0 <==> seconds >= 3600
    ensures 0 <= seconds < 3600 ==> seconds % 3600 == seconds
  {
  }

  /**
   * The clock text is lossless: reading it back gives the count, or for a
   * negative count its remainder modulo an hour.  Three fields appear
   * exactly when the count is at least an hour.
   */
  lemma ClockRoundTrip(seconds: int)
    ensures ParseClock(Clock(seconds)) == Some(if seconds >= 0 then seconds else seconds % 3600)
    ensures |Split(Clock(seconds), ':')| == (if seconds >= 3600 then 3 else 2)
  {
    HoursPositive(seconds);
    if seconds >= 3600 {
      LongClockOf(seconds);
    } else {
      ShortClockOf(seconds);
    }
  }

  lemma LongClockOf(seconds: int)
    requires seconds >= 3600
    ensures ParseClock(Clock(seconds)) == Some(seconds)
    ensures |Split(Clock(seconds), ':')| == 3
  {
    var h := seconds / 3600;
    var m := (seconds % 3600) / 60;
    var s := seconds % 60;
    Decomposition(seconds);
    HoursPositive(seconds);
    assert Clock(seconds) == LongClock(h, m, s);
    LongClockRoundTrip(h, m, s);
  }

  lemma ShortClockOf(seconds: int)
    requires seconds < 3600
    ensures ParseClock(Clock(seconds)) == Some(if seconds >= 0 then seconds else seconds % 3600)
    ensures |Split(Clock(seconds), ':')| == 2
  {
    var m := (seconds % 3600) / 60;
    var s := seconds % 60;
    Decomposition(seconds);
    HoursPositive(seconds);
    assert Clock(seconds) == ShortClock(m, s);
    ShortClockRoundTrip(m, s);
  }

  /**
   * The rendering of a non-zero value is the clock of its truncated
   * seconds, so it reads back as that count.
   */
  lemma RenderRoundTrip(x: real)
    requires x != 0.0
    ensures var seconds := Trunc(x);
            ParseClock(Render(Some(x))) == Some(if seconds >= 0 then seconds else seconds % 3600)
    ensures |Split(Render(Some(x)), ':')| == (if Trunc(x) >= 3600 then 3 else 2)
  {
    ClockRoundTrip(Trunc(x));
  }
}
