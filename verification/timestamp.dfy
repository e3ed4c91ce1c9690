/** The two clock formats of the subtitle files: `srt_ts` (`HH:MM:SS,mmm`)
    and `vtt_ts` (`HH:MM:SS.mmm`), over exact real second offsets. */
module Timestamp {
  import opened Wrappers
  import opened Text
  import opened Arith

  /** The four printed fields of a clock string. */
  datatype Clock = Clock(h: int, m: int, s: int, ms: int)

  /** Python's `round(x)`: the nearest integer, a tie going to the even one. */
  function RoundHalfEven(x: real): (r: int)
    ensures x - 0.5 <= r as real <= x + 0.5
    ensures (r as real == x - 0.5 || r as real == x + 0.5) ==> r % 2 == 0
  {
    var f := x.Floor;
    var d := x - f as real;
    if d < 0.5 then f
    else if d > 0.5 then f + 1
    else if f % 2 == 0 then f
    else f + 1
  }

  /** The contract of RoundHalfEven pins down its result. */
  lemma RoundHalfEvenUnique(x: real, r: int)
    requires x - 0.5 <= r as real <= x + 0.5
    requires (r as real == x - 0.5 || r as real == x + 0.5) ==> r % 2 == 0
    ensures r == RoundHalfEven(x)
  {
  }

  /** Python's `int(x)` on a number: truncation toward zero. */
  function Trunc(x: real): (r: int)
    ensures 0.0 <= x ==> r as real <= x < r as real + 1.0
    ensures x < 0.0 ==> r as real - 1.0 < x <= r as real
  {
    if x >= 0.0 then x.Floor else -((-x).Floor)
  }

  /** Python's `a // b` for a positive whole divisor `b`: the largest
      integer `q` with `q * b <= a`. For a whole `b` that is the floor of `a`
      divided by `b`, and Dafny's `/` on `int` rounds down. */
  function FloorDiv(a: real, b: nat): (q: int)
    requires b > 0
    ensures q * b <= a.Floor < (q + 1) * b
  {
    a.Floor / b
  }

  /** Python's `a % b` for a positive whole divisor: what `a // b` leaves,
      always in `[0, b)`, with the whole part `a.Floor % b`. */
  function FloorMod(a: real, b: nat): (r: real)
    requires b > 0
    ensures 0.0 <= r < b as real
    ensures r.Floor == a.Floor % b
    ensures a == (FloorDiv(a, b) * b) as real + r
  {
    a - (FloorDiv(a, b) * b) as real
  }

  /** The fields `srt_ts` and `vtt_ts` compute from `t`: the hours, minutes
      and seconds from `//` and `%`, and the milliseconds separately, from the
      part of `t` after its truncation. */
  function Fields(t: real): Clock {
    Clock(FloorDiv(t, 3600),
          FloorDiv(FloorMod(t, 3600), 60),
          Trunc(FloorMod(t, 60)),
          RoundHalfEven((t - Trunc(t) as real) * 1000.0))
  }

  /** The hour, minute and second fields split the whole seconds of `t`
      exactly, with minutes and seconds in `0..59`, whatever the sign of `t`. */
  lemma ClockDecomposition(t: real)
    ensures var c := Fields(t);
      c.h * 3600 + c.m * 60 + c.s == t.Floor && 0 <= c.m < 60 && 0 <= c.s < 60
  {
    var c := Fields(t);
    var w := t.Floor;
    assert c.h == w / 3600;
    assert c.m == (w % 3600) / 60;
    assert c.s == FloorMod(t, 60).Floor == w % 60;
    HourMinuteSecond(w);
  }

  /** The millisecond field, computed apart from the seconds: `0..1000` for a
      non-negative `t`, and exactly 1000 (with the seconds field not carried
      into) when the fraction of `t` is at least 0.9995; `-1000..0` for a
      negative `t`. */
  lemma MillisecondRange(t: real)
    ensures 0.0 <= t ==> 0 <= Fields(t).ms <= 1000
    ensures 0.0 <= t ==> (Fields(t).ms == 1000 <==> t - t.Floor as real >= 0.9995)
    ensures 0.0 <= t ==> Fields(t).s == t.Floor % 60
    ensures t < 0.0 ==> -1000 <= Fields(t).ms <= 0
  {
    ClockDecomposition(t);
    var x := (t - Trunc(t) as real) * 1000.0;
    if 0.0 <= t {
      assert Trunc(t) == t.Floor;
      ScaledFraction(t - t.Floor as real);
    } else {
      assert -1000.0 < x <= 0.0;
    }
  }

  /** A fraction in `[0, 1)` scaled to milliseconds rounds into `0..1000`,
      and to 1000 exactly from 0.9995 on. */
  lemma ScaledFraction(f: real)
    requires 0.0 <= f < 1.0
    ensures var r := RoundHalfEven(f * 1000.0); 0 <= r <= 1000 && (r == 1000 <==> f >= 0.9995)
  {
    var x := f * 1000.0;
    assert 0.0 <= x < 1000.0;
    assert f >= 0.9995 <==> x >= 999.5;
  }

  /** Python's `f"{h:02}:{m:02}:{s:02}{sep}{ms:03}"`. */
  function Render(c: Clock, sep: char): string {
    FormatInt(c.h, 2) + ":" + FormatInt(c.m, 2) + ":" + FormatInt(c.s, 2) + [sep] + FormatInt(c.ms, 3)
  }

  /** `srt_ts`: a missing time counts as 0.0. */
  function SrtTs(t: Option<real>): string {
    Render(Fields(t.GetOr(0.0)), ',')
  }

  /** `vtt_ts`: a missing time counts as 0.0. */
  function VttTs(t: Option<real>): string {
    Render(Fields(t.GetOr(0.0)), '.')
  }

  /** Reads a clock string `HH..:MM:SS<sep>mmm..` (at least two hour digits,
      exactly two minute and second digits, at least three millisecond
      digits) back into its fields; `None` when `s` has another shape. */
  function ParseTs(s: string, sep: char): Option<Clock> {
    var i := IndexOf(s, ':');
    if 2 <= i && i + 10 <= |s| && s[i + 3] == ':' && s[i + 6] == sep
       && AllDigits(s[..i]) && AllDigits(s[i + 1..i + 3])
       && AllDigits(s[i + 4..i + 6]) && AllDigits(s[i + 7..])
    then Some(Clock(DecValue(s[..i]), DecValue(s[i + 1..i + 3]),
                    DecValue(s[i + 4..i + 6]), DecValue(s[i + 7..])))
    else None
  }

  /** A clock with non-negative fields, minutes and seconds below 60, prints
      in the fixed shape ParseTs reads, and reading it gives the clock back. */
  lemma {:induction false} ParseRender(c: Clock, sep: char)
    requires 0 <= c.h && 0 <= c.m < 60 && 0 <= c.s < 60 && 0 <= c.ms
    requires !IsDigit(sep) && sep != ':'
    ensures ParseTs(Render(c, sep), sep) == Some(c)
  {
    var hh, mm, ss, mmm := FormatInt(c.h, 2), FormatInt(c.m, 2), FormatInt(c.s, 2), FormatInt(c.ms, 3);
    FormatIntReadBack(c.h, 2);
    FormatIntReadBack(c.m, 2);
    FormatIntReadBack(c.s, 2);
    FormatIntReadBack(c.ms, 3);
    assert Pow10(2) == 100;
    FormatIntWidth(c.m, 2);
    FormatIntWidth(c.s, 2);
    NumeralExcludes(hh, ':');
    ClockSlices(hh, mm, ss, sep, mmm);
  }

  /** Where the four fields sit in a clock string. */
  lemma ClockSlices(hh: string, mm: string, ss: string, sep: char, mmm: string)
    requires |mm| == 2 && |ss| == 2 && ':' !in hh
    ensures var s := hh + ":" + mm + ":" + ss + [sep] + mmm;
      var i := |hh|;
      IndexOf(s, ':') == i && i + 7 <= |s| && s[i + 3] == ':' && s[i + 6] == sep
      && s[..i] == hh && s[i + 1..i + 3] == mm && s[i + 4..i + 6] == ss && s[i + 7..] == mmm
  {
    var s := hh + ":" + mm + ":" + ss + [sep] + mmm;
    var i := |hh|;
    assert s[..i] == hh;
    IndexOfPrefix(s, hh, ':');
    assert s[i + 1..i + 3] == mm;
    assert s[i + 4..i + 6] == ss;
    assert s[i + 7..] == mmm;
  }

  /** For a non-negative time all fields are non-negative. */
  lemma FieldsNonNegative(t: real)
    requires 0.0 <= t
    ensures var c := Fields(t); 0 <= c.h && 0 <= c.m < 60 && 0 <= c.s < 60 && 0 <= c.ms
  {
    ClockDecomposition(t);
    MillisecondRange(t);
    assert Fields(t).h == t.Floor / 3600;
  }

  /** `srt_ts` output reads back, with `,` before the milliseconds. */
  lemma ParseSrtTs(t: real)
    requires 0.0 <= t
    ensures ParseTs(SrtTs(Some(t)), ',') == Some(Fields(t))
  {
    FieldsNonNegative(t);
    ParseRender(Fields(t), ',');
  }

  /** `vtt_ts` output reads back, with `.` before the milliseconds. */
  lemma ParseVttTs(t: real)
    requires 0.0 <= t
    ensures ParseTs(VttTs(Some(t)), '.') == Some(Fields(t))
  {
    FieldsNonNegative(t);
    ParseRender(Fields(t), '.');
  }

  /** `srt_ts` and `vtt_ts` give the same string except for the one character
      between seconds and milliseconds: the SRT string holds exactly one `,`,
      and the WebVTT string is the SRT string with that `,` turned into `.`. */
  lemma SrtVttDifferInSeparator(t: Option<real>)
    ensures ',' in SrtTs(t) && ',' !in SrtTs(t)[IndexOf(SrtTs(t), ',') + 1..]
    ensures VttTs(t) == ReplaceFirst(SrtTs(t), ',', '.')
  {
    SeparatorOnly(Fields(t.GetOr(0.0)));
  }

  lemma SeparatorOnly(c: Clock)
    ensures var a := Render(c, ',');
      ',' in a && ',' !in a[IndexOf(a, ',') + 1..] && Render(c, '.') == ReplaceFirst(a, ',', '.')
  {
    var front := FormatInt(c.h, 2) + ":" + FormatInt(c.m, 2) + ":" + FormatInt(c.s, 2);
    var ms := FormatInt(c.ms, 3);
    FormatIntReadBack(c.h, 2);
    FormatIntReadBack(c.m, 2);
    FormatIntReadBack(c.s, 2);
    FormatIntReadBack(c.ms, 3);
    NumeralExcludes(FormatInt(c.h, 2), ',');
    NumeralExcludes(FormatInt(c.m, 2), ',');
    NumeralExcludes(FormatInt(c.s, 2), ',');
    NumeralExcludes(ms, ',');
    SwapSeparator(front, ms);
  }

  lemma SwapSeparator(front: string, ms: string)
    requires ',' !in front && ',' !in ms
    ensures var a := front + [','] + ms;
      ',' in a && ',' !in a[IndexOf(a, ',') + 1..] && front + ['.'] + ms == ReplaceFirst(a, ',', '.')
  {
    var a := front + [','] + ms;
    assert a[..|front|] == front;
    IndexOfPrefix(a, front, ',');
    assert a[|front|] == ',';
    assert a[|front| + 1..] == ms;
  }

  /** A missing time prints as zero in both formats. */
  lemma MissingIsZero()
    ensures SrtTs(None) == "00:00:00,000" && VttTs(None) == "00:00:00.000"
  {
    assert Fields(0.0) == Clock(0, 0, 0, 0);
    assert FormatInt(0, 2) == "00";
    assert FormatInt(0, 3) == "000";
  }

  /** One hour, one minute, one and a half seconds. */
  lemma ExampleOneHour()
    ensures SrtTs(Some(3661.5)) == "01:01:01,500"
  {
    assert Fields(3661.5) == Clock(1, 1, 1, 500);
    assert FormatInt(1, 2) == "01";
    assert FormatInt(500, 3) == "500";
  }

  /** A fraction that rounds up to 1000 ms prints `1000` and leaves the
      seconds as they were. */
  lemma ExampleMillisecondOverflow()
    ensures SrtTs(Some(59.9996)) == "00:00:59,1000"
  {
    assert Fields(59.9996) == Clock(0, 0, 59, 1000);
    assert FormatInt(0, 2) == "00";
    assert FormatInt(59, 2) == "59";
    assert FormatInt(1000, 3) == "1000";
  }

  /** The same quirk in the WebVTT format. */
  lemma ExampleMillisecondOverflowVtt()
    ensures VttTs(Some(1.9996)) == "00:00:01.1000"
  {
    assert Fields(1.9996) == Clock(0, 0, 1, 1000);
    assert FormatInt(0, 2) == "00";
    assert FormatInt(1, 2) == "01";
    assert FormatInt(1000, 3) == "1000";
  }

  /** The timestamps of a two-segment run starting at zero. Each lemma
      takes the time as a parameter pinned by its precondition, so that
      callers do not unfold the formatter on a literal argument. */
  lemma ExampleZero(t: real)
    requires t == 0.0
    ensures SrtTs(Some(t)) == "00:00:00,000"
  {
    assert Fields(t) == Clock(0, 0, 0, 0);
    assert FormatInt(0, 2) == "00";
    assert FormatInt(0, 3) == "000";
  }

  lemma ExampleQuarter(t: real)
    requires t == 1.25
    ensures SrtTs(Some(t)) == "00:00:01,250"
  {
    assert Fields(t) == Clock(0, 0, 1, 250);
    assert FormatInt(0, 2) == "00";
    assert FormatInt(1, 2) == "01";
    assert FormatInt(250, 3) == "250";
  }

  lemma ExampleWhole(t: real)
    requires t == 3.0
    ensures SrtTs(Some(t)) == "00:00:03,000"
  {
    assert Fields(t) == Clock(0, 0, 3, 0);
    assert FormatInt(0, 2) == "00";
    assert FormatInt(3, 2) == "03";
    assert FormatInt(0, 3) == "000";
  }

  /** A negative time is not clamped: the hours go negative and the
      milliseconds are at most 0, while the minutes and seconds stay within
      0..59. */
  lemma ExampleNegative(t: real)
    requires t == -0.5
    ensures Fields(t) == Clock(-1, 59, 59, -500)
    ensures SrtTs(Some(t)) == "-1:59:59,-500"
  {
    assert t.Floor == -1;
    assert FloorDiv(t, 3600) == -1;
    assert FloorMod(t, 3600) == 3599.5;
    assert FloorMod(t, 60) == 59.5;
    assert Trunc(t) == 0;
    assert RoundHalfEven(-500.0) == -500 by {
      RoundHalfEvenUnique(-500.0, -500);
    }
    assert FormatInt(-1, 2) == "-1";
    assert FormatInt(59, 2) == "59";
    assert FormatInt(-500, 3) == "-500";
  }

  /** A whole negative time has no milliseconds left over. */
  lemma ExampleNegativeWhole(t: real)
    requires t == -1.0
    ensures Fields(t) == Clock(-1, 59, 59, 0)
    ensures SrtTs(Some(t)) == "-1:59:59,000"
  {
    assert t.Floor == -1;
    assert FloorDiv(t, 3600) == -1;
    assert FloorMod(t, 3600) == 3599.0;
    assert FloorMod(t, 60) == 59.0;
    assert Trunc(t) == -1;
    assert RoundHalfEven(0.0) == 0;
    assert FormatInt(-1, 2) == "-1";
    assert FormatInt(59, 2) == "59";
    assert FormatInt(0, 3) == "000";
  }
}
