/** Time-of-day gating of a webhook rule (`src/time_condition.rs`).
    Configured times are lenient `"H:M"` strings; the current time is reduced
    to its hour and minute, and everything is compared as minute-of-day. */
module TimeCondition {
  import opened Wrappers
  import Fields
  import opened Decimal

  /** A rule's gate, holding the configured time strings unparsed. */
  datatype TimeCondition =
    | TimeRange(start: string, end: string)
    | After(time: string)
    | Before(time: string)

  type Hour = h: nat | h < 24
  type Minute = m: nat | m < 60

  /** The part of the current local time that the gate reads. */
  datatype LocalTime = LocalTime(hour: Hour, minute: Minute)

  const MINUTES_PER_DAY: nat := 24 * 60

  /** The piece at `index`, or `default` when there are fewer pieces. */
  function PieceOr(parts: seq<string>, index: nat, default: string): string {
    if index < |parts| then parts[index] else default
  }

  /** `parse_time`: hour and minute from the first two `:`-separated pieces,
      each 0 when missing or not a `u32`. Nothing is clamped. */
  function ParseTime(s: string): (t: (U32, U32))
    ensures var first := Fields.Split(s, ':')[0];
      t.0 == if IsU32Text(first) then Value(Unsigned(first)) else 0
    ensures var parts := Fields.Split(s, ':');
      t.1 == if |parts| >= 2 && IsU32Text(parts[1]) then Value(Unsigned(parts[1])) else 0
    ensures ':' !in s ==> t.1 == 0
  {
    var parts := Fields.Split(s, ':');
    assert ':' !in s ==> |parts| == 1 by {
      if ':' !in s { Fields.SplitWithoutSeparator(s, ':'); }
    }
    var hour := ParseU32(PieceOr(parts, 0, "00")).GetOr(0);
    assert ParseU32("00").GetOr(0) == 0 by {
      assert "00"[1..] == "0" && "0"[1..] == [];
      assert AllDigits("00") ==> Value("00") == 0;
    }
    var minute := ParseU32(PieceOr(parts, 1, "00")).GetOr(0);
    (hour, minute)
  }

  /** Minute of the day of a configured time string; may exceed a day. */
  function ConfiguredMinutes(s: string): nat {
    var t := ParseTime(s);
    t.0 * 60 + t.1
  }

  function NowMinutes(now: LocalTime): (m: nat)
    ensures m < MINUTES_PER_DAY
  {
    now.hour * 60 + now.minute
  }

  /** `is_time_condition_satisfied`. */
  function IsSatisfied(condition: Option<TimeCondition>, now: LocalTime): (ok: bool)
    ensures condition.None? ==> ok
    ensures condition.Some? && condition.value.TimeRange? ==>
      (ok <==> ConfiguredMinutes(condition.value.start) <= NowMinutes(now) <= ConfiguredMinutes(condition.value.end))
    ensures condition.Some? && condition.value.After? ==>
      (ok <==> NowMinutes(now) >= ConfiguredMinutes(condition.value.time))
    ensures condition.Some? && condition.value.Before? ==>
      (ok <==> NowMinutes(now) < ConfiguredMinutes(condition.value.time))
  {
    var current := NowMinutes(now);
    match condition
    case None => true
    case Some(TimeRange(start, end)) =>
      current >= ConfiguredMinutes(start) && current <= ConfiguredMinutes(end)
    case Some(After(time)) => current >= ConfiguredMinutes(time)
    case Some(Before(time)) => current < ConfiguredMinutes(time)
  }

  // ---------------------------------------------------------------------
  // Parsing configured times

  /** `"H:M"` with `u32` pieces (optionally `+`-signed, leading zeros allowed)
      reads as `(H, M)`; whatever follows a second `:` is ignored. */
  lemma ParseTimeOfPieces(h: string, m: string, tail: string)
    requires IsU32Text(h) && IsU32Text(m)
    requires |tail| == 0 || tail[0] == ':'
    ensures ParseTime(h + ":" + m + tail) == (Value(Unsigned(h)), Value(Unsigned(m)))
  {
    assert ':' !in h by { NoColonInU32Text(h); }
    assert ':' !in m by { NoColonInU32Text(m); }
    var s := h + ":" + m + tail;
    assert s == h + [':'] + (m + tail);
    Fields.SplitFirstPiece(h, ':', m + tail);
    if |tail| == 0 {
      assert m + tail == m;
      Fields.SplitWithoutSeparator(m, ':');
    } else {
      assert m + tail == m + [':'] + tail[1..];
      Fields.SplitFirstPiece(m, ':', tail[1..]);
    }
  }

  lemma NoColonInU32Text(s: string)
    requires IsU32Text(s)
    ensures ':' !in s
  {
    var d := Unsigned(s);
    forall i | 0 <= i < |s| ensures s[i] != ':' {
      if s[0] == '+' {
        if i > 0 { assert s[i] == d[i - 1]; }
      } else {
        assert s[i] == d[i];
      }
    }
  }

  /** A two-digit piece such as `"09"` or `"25"`. */
  lemma TwoDigitPiece(a: char, b: char)
    requires IsDigit(a) && IsDigit(b)
    ensures IsU32Text([a, b])
    ensures Value(Unsigned([a, b])) == DigitValue(a) * 10 + DigitValue(b)
  {
    var s := [a, b];
    assert Unsigned(s) == s;
    assert s[1..] == [b];
    assert s[1..][1..] == [];
    assert AllDigits(s);
    assert Horner(s[1..][1..], DigitValue(a) * 10 + DigitValue(b)) == DigitValue(a) * 10 + DigitValue(b);
    assert Horner(s[1..], DigitValue(a)) == DigitValue(a) * 10 + DigitValue(b);
    assert Value(s) == Horner(s[1..], 0 * 10 + DigitValue(a));
  }

  /** Round trip with the decimal rendering: `"<h>:<m>"` reads as `(h, m)`. */
  lemma ParseRenderedTime(h: U32, m: U32)
    ensures ParseTime(Digits(h) + ":" + Digits(m)) == (h, m)
  {
    ParseDigits(h);
    ParseDigits(m);
    assert Unsigned(Digits(h)) == Digits(h) by { assert IsDigit(Digits(h)[0]); }
    assert Unsigned(Digits(m)) == Digits(m) by { assert IsDigit(Digits(m)[0]); }
    ParseTimeOfPieces(Digits(h), Digits(m), "");
    assert Digits(h) + ":" + Digits(m) + "" == Digits(h) + ":" + Digits(m);
  }

  /** Anything after the minute piece does not matter. */
  lemma ParseTimeIgnoresExtraPieces(h: string, m: string, rest: string)
    requires ':' !in h && ':' !in m
    ensures ParseTime(h + ":" + m + ":" + rest) == ParseTime(h + ":" + m)
  {
    var long := h + ":" + m + ":" + rest;
    var short := h + ":" + m;
    assert long == h + [':'] + (m + [':'] + rest);
    assert short == h + [':'] + m;
    Fields.SplitFirstPiece(h, ':', m + [':'] + rest);
    Fields.SplitFirstPiece(m, ':', rest);
    Fields.SplitFirstPiece(h, ':', m);
    Fields.SplitWithoutSeparator(m, ':');
  }

  /** Fail-open parsing: a first piece that is not a `u32` gives hour 0,
      and a missing minute piece gives minute 0, so `"9"` is 09:00 and
      `"noon"` is 00:00. */
  lemma ParseTimeFailsOpen(s: string)
    requires ':' !in s
    ensures ParseTime(s) == (if IsU32Text(s) then Value(Unsigned(s)) else 0, 0)
  {
    Fields.SplitWithoutSeparator(s, ':');
  }

  /** Fail-open parsing of the minute: a minute piece that is empty or not a
      `u32` gives minute 0, whatever the hour piece is, so `"9:"` and `"9:xx"`
      are 09:00 and `"ab:30"` is 00:30. */
  lemma ParseTimeMinuteFailsOpen(h: string, m: string, tail: string)
    requires ':' !in h && ':' !in m
    requires |tail| == 0 || tail[0] == ':'
    ensures ParseTime(h + ":" + m + tail) ==
      (if IsU32Text(h) then Value(Unsigned(h)) else 0, if IsU32Text(m) then Value(Unsigned(m)) else 0)
  {
    var s := h + ":" + m + tail;
    assert s == h + [':'] + (m + tail);
    Fields.SplitFirstPiece(h, ':', m + tail);
    if |tail| == 0 {
      assert m + tail == m;
      Fields.SplitWithoutSeparator(m, ':');
    } else {
      assert m + tail == m + [':'] + tail[1..];
      Fields.SplitFirstPiece(m, ':', tail[1..]);
    }
  }

  /** `"H:M"` with two-digit pieces. */
  lemma ParseTwoDigitTime(h1: char, h2: char, m1: char, m2: char)
    requires IsDigit(h1) && IsDigit(h2) && IsDigit(m1) && IsDigit(m2)
    ensures ParseTime([h1, h2, ':', m1, m2]) ==
      (DigitValue(h1) * 10 + DigitValue(h2), DigitValue(m1) * 10 + DigitValue(m2))
  {
    TwoDigitPiece(h1, h2);
    TwoDigitPiece(m1, m2);
    ParseTimeOfPieces([h1, h2], [m1, m2], "");
    assert [h1, h2] + ":" + [m1, m2] + "" == [h1, h2, ':', m1, m2];
  }

  /** Example: nothing is clamped, so `"25:99"` is hour 25, minute 99. */
  lemma ParseTimeDoesNotClamp()
    ensures ParseTime("25:99") == (25, 99)
  {
    ParseTwoDigitTime('2', '5', '9', '9');
  }

  /** Example: a bare hour has minute 0, and an empty string is midnight. */
  lemma ParseTimeBareHour()
    ensures ParseTime("9") == (9, 0)
    ensures ParseTime("") == (0, 0)
  {
    ParseTimeFailsOpen("9");
    assert IsU32Text("9") && Value("9") == 9 by {
      assert Unsigned("9") == "9";
      assert "9"[1..] == [];
    }
    ParseTimeFailsOpen("");
  }

  /** Example: an empty or non-numeric piece counts as 0 for its own field. */
  lemma ParseTimeFieldExamples()
    ensures ParseTime("9:") == (9, 0)
    ensures ParseTime("ab:30") == (0, 30)
  {
    assert Unsigned("9") == "9" && "9"[1..] == [];
    assert IsU32Text("9") && Value("9") == 9;
    assert !IsU32Text("") && !IsU32Text("ab");
    ParseTimeMinuteFailsOpen("9", "", "");
    assert "9" + ":" + "" + "" == "9:";
    TwoDigitPiece('3', '0');
    ParseTimeMinuteFailsOpen("ab", "30", "");
    assert "ab" + ":" + "30" + "" == "ab:30";
  }

  // ---------------------------------------------------------------------
  // Properties of the gate

  /** For the same configured time, exactly one of `After` and `Before` holds. */
  lemma AfterBeforeComplementary(t: string, now: LocalTime)
    ensures IsSatisfied(Some(After(t)), now) <==> !IsSatisfied(Some(Before(t)), now)
  {
  }

  /** A range whose start lies after its end (an overnight range) never holds. */
  lemma InvertedRangeNeverHolds(start: string, end: string, now: LocalTime)
    requires ConfiguredMinutes(start) > ConfiguredMinutes(end)
    ensures !IsSatisfied(Some(TimeRange(start, end)), now)
  {
  }

  /** A range is `After(start)` intersected with "`Before(end)` or exactly at `end`". */
  lemma RangeIsAfterStartUpToEnd(start: string, end: string, now: LocalTime)
    ensures IsSatisfied(Some(TimeRange(start, end)), now) <==>
      && IsSatisfied(Some(After(start)), now)
      && (IsSatisfied(Some(Before(end)), now) || NowMinutes(now) == ConfiguredMinutes(end))
  {
  }

  /** A range is convex: holding at two times, it holds at every time between. */
  lemma RangeIsConvex(start: string, end: string, early: LocalTime, middle: LocalTime, late: LocalTime)
    requires NowMinutes(early) <= NowMinutes(middle) <= NowMinutes(late)
    requires IsSatisfied(Some(TimeRange(start, end)), early)
    requires IsSatisfied(Some(TimeRange(start, end)), late)
    ensures IsSatisfied(Some(TimeRange(start, end)), middle)
  {
  }

  /** Configured times past the end of the day (nothing is clamped): `After`
      never holds and `Before` always holds. */
  lemma TimesPastMidnight(t: string, now: LocalTime)
    requires ConfiguredMinutes(t) >= MINUTES_PER_DAY
    ensures !IsSatisfied(Some(After(t)), now)
    ensures IsSatisfied(Some(Before(t)), now)
  {
  }

  /** Example: both ends of a range are inclusive. */
  lemma RangeBoundaryExamples()
    ensures IsSatisfied(Some(TimeRange("09:00", "17:30")), LocalTime(9, 0))
    ensures IsSatisfied(Some(TimeRange("09:00", "17:30")), LocalTime(17, 30))
    ensures !IsSatisfied(Some(TimeRange("09:00", "17:30")), LocalTime(17, 31))
    ensures !IsSatisfied(Some(TimeRange("09:00", "17:30")), LocalTime(8, 59))
  {
    assert "09:00" == ['0', '9', ':', '0', '0'];
    assert "17:30" == ['1', '7', ':', '3', '0'];
    ParseTwoDigitTime('0', '9', '0', '0');
    ParseTwoDigitTime('1', '7', '3', '0');
    assert ConfiguredMinutes("09:00") == 540;
    assert ConfiguredMinutes("17:30") == 1050;
  }

  /** Example: `After` includes its own minute, `Before` excludes it. */
  lemma AfterBeforeBoundaryExamples()
    ensures IsSatisfied(Some(After("22:00")), LocalTime(22, 0))
    ensures !IsSatisfied(Some(After("22:00")), LocalTime(21, 59))
    ensures IsSatisfied(Some(Before("06:00")), LocalTime(5, 59))
    ensures !IsSatisfied(Some(Before("06:00")), LocalTime(6, 0))
  {
    assert "22:00" == ['2', '2', ':', '0', '0'];
    assert "06:00" == ['0', '6', ':', '0', '0'];
    ParseTwoDigitTime('2', '2', '0', '0');
    ParseTwoDigitTime('0', '6', '0', '0');
    assert ConfiguredMinutes("22:00") == 1320;
    assert ConfiguredMinutes("06:00") == 360;
  }
}
