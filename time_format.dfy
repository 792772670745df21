/**
 * `formatTime`: a duration in milliseconds shown as `HH:MM:SS`, and the
 * reading of such a string back into its three fields.
 */
module TimeFormat {
  import opened Wrappers
  import opened Decimal

  /** The three fields of a clock display. */
  datatype Clock = Clock(hours: nat, minutes: nat, seconds: nat)

  function TotalSeconds(c: Clock): nat {
    c.hours * 3600 + c.minutes * 60 + c.seconds
  }

  lemma ClockDecomposition(t: nat)
    ensures (t / 3600) * 3600 + ((t % 3600) / 60) * 60 + t % 60 == t
    ensures (t % 3600) / 60 < 60
  {
    var q, r := t / 3600, t % 3600;
    assert t == q * 3600 + r;
    assert r == (r / 60) * 60 + r % 60;
    assert t % 60 == r % 60 by {
      assert t == (q * 60) * 60 + r;
    }
  }

  /** Whole hours, the minutes left below the hour and the seconds left below the minute. */
  function ClockOf(totalSeconds: nat): (c: Clock)
    ensures c.minutes < 60 && c.seconds < 60
  {
    Clock(totalSeconds / 3600, (totalSeconds % 3600) / 60, totalSeconds % 60)
  }

  /** ClockOf splits its argument exactly, with minutes and seconds below 60. */
  lemma ClockOfSplits(t: nat)
    ensures var c := ClockOf(t); c.minutes < 60 && c.seconds < 60 && TotalSeconds(c) == t
  {
    ClockDecomposition(t);
  }

  /** Splitting the total of a split with minutes and seconds below 60 gives it back. */
  lemma ClockOfTotal(c: Clock)
    requires c.minutes < 60 && c.seconds < 60
    ensures ClockOf(TotalSeconds(c)) == c
  {
    var t, r := TotalSeconds(c), c.minutes * 60 + c.seconds;
    assert t / 3600 == c.hours && t % 3600 == r;
    assert r / 60 == c.minutes && t % 60 == c.seconds;
  }

  /**
   * `formatTime`: whole seconds split into hours, minutes and seconds, each
   * padded to at least two digits and joined by `':'`.
   */
  function FormatTime(ms: nat): (r: string)
    ensures |r| >= 8 && r[|r| - 6] == ':' && r[|r| - 3] == ':'
  {
    var c := ClockOf(ms / 1000);
    PadStart2(c.hours) + ":" + PadStart2(c.minutes) + ":" + PadStart2(c.seconds)
  }

  /** Splits on `':'` and reads three non-empty digit fields; None for anything else. */
  function ParseClock(t: string): Option<Clock> {
    var f := Split(t, ':');
    if |f| == 3 && f[0] != [] && f[1] != [] && f[2] != []
       && IsDigits(f[0]) && IsDigits(f[1]) && IsDigits(f[2])
    then Some(Clock(DigitsValue(f[0]), DigitsValue(f[1]), DigitsValue(f[2])))
    else None
  }

  lemma DigitsHaveNoSeparator(s: string)
    requires IsDigits(s)
    ensures forall i :: 0 <= i < |s| ==> s[i] != ':'
  {
  }

  /** The three pieces between the separators are the padded fields. */
  lemma SplitFormatted(a: string, b: string, c: string)
    requires IsDigits(a) && IsDigits(b) && IsDigits(c)
    ensures Split(a + ":" + b + ":" + c, ':') == [a, b, c]
  {
    DigitsHaveNoSeparator(a);
    DigitsHaveNoSeparator(b);
    DigitsHaveNoSeparator(c);
    assert a + ":" + b + ":" + c == a + [':'] + (b + [':'] + c);
    SplitAtFirstSeparator(a, ':', b + [':'] + c);
    SplitAtFirstSeparator(b, ':', c);
    SplitWithoutSeparator(c, ':');
  }

  /**
   * Reading the output back gives minutes and seconds below 60 and recovers
   * the whole seconds of the input.
   */
  lemma FormatTimeRoundTrip(ms: nat)
    ensures ParseClock(FormatTime(ms)).Some?
    ensures var c := ParseClock(FormatTime(ms)).value;
            c.minutes < 60 && c.seconds < 60 && TotalSeconds(c) == ms / 1000
  {
    var c := ClockOf(ms / 1000);
    ClockOfSplits(ms / 1000);
    SplitFormatted(PadStart2(c.hours), PadStart2(c.minutes), PadStart2(c.seconds));
    assert ParseClock(FormatTime(ms)) == Some(c);
  }

  /** The sub-second remainder has no effect on the display. */
  lemma FormatTimeIgnoresMilliseconds(ms: nat)
    ensures FormatTime(ms) == FormatTime(1000 * (ms / 1000))
  {
    assert (1000 * (ms / 1000)) / 1000 == ms / 1000;
  }

  /** Two durations display alike exactly when they have the same whole seconds. */
  lemma FormatTimeEqualIff(a: nat, b: nat)
    ensures FormatTime(a) == FormatTime(b) <==> a / 1000 == b / 1000
  {
    if FormatTime(a) == FormatTime(b) {
      FormatTimeRoundTrip(a);
      FormatTimeRoundTrip(b);
    }
  }

  lemma JoinedSlices(a: string, b: string, d: string)
    requires |b| == 2 && |d| == 2
    ensures var r := a + ":" + b + ":" + d;
            && |r| == |a| + 6
            && r[..|r| - 6] == a && r[|r| - 6] == ':'
            && r[|r| - 5..|r| - 3] == b && r[|r| - 3] == ':'
            && r[|r| - 2..] == d
  {
    var r := a + ":" + b + ":" + d;
    assert r[..|a|] == a;
    assert r[|a| + 1..|a| + 3] == b;
    assert r[|a| + 4..] == d;
  }

  /**
   * The output is an hours field of two or more digits, `':'`, two digits,
   * `':'` and two digits.
   */
  lemma FormatTimeShape(ms: nat)
    ensures var r := FormatTime(ms);
            && |r| >= 8
            && IsDigits(r[..|r| - 6]) && r[|r| - 6] == ':'
            && IsDigits(r[|r| - 5..|r| - 3]) && r[|r| - 3] == ':'
            && IsDigits(r[|r| - 2..])
  {
    var c := ClockOf(ms / 1000);
    ClockOfSplits(ms / 1000);
    JoinedSlices(PadStart2(c.hours), PadStart2(c.minutes), PadStart2(c.seconds));
  }

  /** The output holds exactly two separators, at fixed places from its end. */
  lemma FormatTimeSeparators(ms: nat)
    ensures var r := FormatTime(ms);
            forall i :: 0 <= i < |r| ==> (r[i] == ':' <==> i == |r| - 6 || i == |r| - 3)
  {
    FormatTimeShape(ms);
    var r := FormatTime(ms);
    var n := |r|;
    forall i | 0 <= i < n
      ensures r[i] == ':' <==> i == n - 6 || i == n - 3
    {
      if i < n - 6 {
        assert r[..n - 6][i] == r[i];
      } else if n - 6 < i < n - 3 {
        assert r[n - 5..n - 3][i - (n - 5)] == r[i];
      } else if n - 3 < i {
        assert r[n - 2..][i - (n - 2)] == r[i];
      }
    }
  }

  /**
   * The hours field is two digits wide below ten hours and otherwise the
   * whole spelling of the hour count: padding is a minimum, never a cut.
   */
  lemma FormatTimeHoursField(ms: nat)
    ensures var r := FormatTime(ms); var h := ClockOf(ms / 1000).hours;
            r[..|r| - 6] == (if h < 10 then ['0', DigitChar(h)] else NatToString(h))
  {
    var c := ClockOf(ms / 1000);
    ClockOfSplits(ms / 1000);
    JoinedSlices(PadStart2(c.hours), PadStart2(c.minutes), PadStart2(c.seconds));
  }

  /** FormatTime from the split of its whole seconds. */
  lemma FormatTimeFromClock(ms: nat, c: Clock)
    requires ClockOf(ms / 1000) == c
    ensures FormatTime(ms) == PadStart2(c.hours) + ":" + PadStart2(c.minutes) + ":" + PadStart2(c.seconds)
  {
  }

  lemma ZeroClockText()
    ensures PadStart2(0) + ":" + PadStart2(0) + ":" + PadStart2(0) == "00:00:00"
  {
    assert PadStart2(0) == "00";
  }

  lemma OneSecondText()
    ensures PadStart2(0) + ":" + PadStart2(0) + ":" + PadStart2(1) == "00:00:01"
  {
    assert PadStart2(0) == "00" && PadStart2(1) == "01";
  }

  lemma OneOfEachText()
    ensures PadStart2(1) + ":" + PadStart2(1) + ":" + PadStart2(1) == "01:01:01"
  {
    assert PadStart2(1) == "01";
  }

  lemma HundredHoursText()
    ensures PadStart2(100) + ":" + PadStart2(0) + ":" + PadStart2(0) == "100:00:00"
  {
    assert NatToString(100) == "100";
    assert PadStart2(100) == "100" && PadStart2(0) == "00";
  }

  /** Anything under a second shows as zero. */
  lemma FormatTimeBelowOneSecond(ms: nat)
    requires ms < 1000
    ensures FormatTime(ms) == "00:00:00"
  {
    FormatTimeFromClock(ms, Clock(0, 0, 0));
    ZeroClockText();
  }

  lemma FormatTimeOneSecond(ms: nat)
    requires 1000 <= ms < 2000
    ensures FormatTime(ms) == "00:00:01"
  {
    FormatTimeFromClock(ms, Clock(0, 0, 1));
    OneSecondText();
  }

  lemma FormatTimeOneOfEach()
    ensures FormatTime(3661000) == "01:01:01"
  {
    FormatTimeFromClock(3661000, Clock(1, 1, 1));
    OneOfEachText();
  }

  lemma FormatTimeHundredHours()
    ensures FormatTime(360000000) == "100:00:00"
  {
    FormatTimeFromClock(360000000, Clock(100, 0, 0));
    HundredHoursText();
  }
}
