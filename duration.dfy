/** Durations as Python's datetime.timedelta holds them, counted here in whole
    microseconds: the text str(timedelta) prints, the whole-second text the app
    shows and stores (everything before the first '.'), and the reading of a
    stored "H:MM:SS" / "M:SS" text back into seconds. */
module Duration {
  import opened Options
  import opened Numeral
  import opened Text

  const MicrosPerSecond := 1_000_000
  const SecondsPerDay := 86400
  const MicrosPerDay := SecondsPerDay * MicrosPerSecond

  /** "%d:%02d:%02d" of a time of day given in seconds. */
  function ClockText(secs: int): string
    requires 0 <= secs < SecondsPerDay
  {
    var mm := secs / 60;
    NatToString(mm / 60) + ":" + TwoDigits(mm % 60) + ":" + TwoDigits(secs % 60)
  }

  /** The day part str(timedelta) puts in front of the clock: "" or "N day, " / "N days, ". */
  function DaysPrefix(days: int): string {
    if days == 0 then ""
    else IntToString(days) + " day" + (if days == 1 || days == -1 then "" else "s") + ", "
  }

  /** str(timedelta(microseconds=us)). A timedelta keeps whole days (any sign),
      seconds in [0, 86400) and microseconds in [0, 10^6); the text is the day
      part, the clock of the seconds, and ".ffffff" when there are microseconds. */
  function TimedeltaText(us: int): string {
    var whole := us / MicrosPerSecond;
    var micros := us % MicrosPerSecond;
    var text := DaysPrefix(whole / SecondsPerDay) + ClockText(whole % SecondsPerDay);
    if micros == 0 then text else text + "." + SixDigits(micros)
  }

  /** str(td).split('.')[0]: the duration text with sub-second precision dropped. */
  function WholeSecondsText(us: int): string {
    Split(TimedeltaText(us), '.')[0]
  }

  lemma NoDotInDigits(s: string)
    requires AllDigits(s)
    ensures '.' !in s && ':' !in s
  {
  }

  lemma NoDotInIntToString(n: int)
    ensures '.' !in IntToString(n) && ':' !in IntToString(n)
  {
    NoDotInDigits(NatToString(if n < 0 then -n else n));
  }

  lemma NoDotInClock(days: int, secs: int)
    requires 0 <= secs < SecondsPerDay
    ensures '.' !in DaysPrefix(days) + ClockText(secs)
  {
    NoDotInDaysPrefix(days);
    NoDotInClockText(secs);
    NoDotInConcat(DaysPrefix(days), ClockText(secs));
  }

  lemma NoDotInDaysPrefix(days: int)
    ensures '.' !in DaysPrefix(days)
  {
    NoDotInIntToString(days);
    if days != 0 {
      var tail := " day" + (if days == 1 || days == -1 then "" else "s") + ", ";
      assert '.' !in tail;
      NoDotInConcat(IntToString(days), tail);
    }
  }

  lemma NoDotInClockText(secs: int)
    requires 0 <= secs < SecondsPerDay
    ensures '.' !in ClockText(secs)
  {
    var mm := secs / 60;
    var h, m, x := NatToString(mm / 60), TwoDigits(mm % 60), TwoDigits(secs % 60);
    NoDotInDigits(h);
    NoDotInDigits(m);
    NoDotInDigits(x);
    NoDotInConcat(h, ":");
    NoDotInConcat(h + ":", m);
    NoDotInConcat(h + ":" + m, ":");
    NoDotInConcat(h + ":" + m + ":", x);
  }

  lemma NoDotInConcat(a: string, b: string)
    requires '.' !in a && '.' !in b
    ensures '.' !in a + b
  {
  }

  /** The shown text is the text of the duration truncated to whole seconds
      (toward the earlier instant, as timedelta normalises). */
  lemma WholeSecondsTextTruncates(us: int)
    ensures WholeSecondsText(us) == TimedeltaText(us / MicrosPerSecond * MicrosPerSecond)
    ensures WholeSecondsText(us) == DaysPrefix(us / MicrosPerSecond / SecondsPerDay) + ClockText(us / MicrosPerSecond % SecondsPerDay)
  {
    var whole := us / MicrosPerSecond;
    var text := DaysPrefix(whole / SecondsPerDay) + ClockText(whole % SecondsPerDay);
    NoDotInClock(whole / SecondsPerDay, whole % SecondsPerDay);
    if us % MicrosPerSecond == 0 {
      SplitNoSep(text, '.');
    } else {
      SplitConcat(text, SixDigits(us % MicrosPerSecond), '.');
      assert text + "." + SixDigits(us % MicrosPerSecond) == text + ['.'] + SixDigits(us % MicrosPerSecond);
      SplitNoSep(text, '.');
    }
    var t := whole * MicrosPerSecond;
    assert t / MicrosPerSecond == whole && t % MicrosPerSecond == 0;
  }

  /** Reads one stored IssueResolutionTotal text as calculate_ytd_downtime does:
      three ':'-separated int() fields are hours, minutes and seconds, two are
      minutes and seconds. None where the value is skipped: an int() that raises
      ValueError, or another number of fields. The result is in seconds. */
  function ParseDowntime(s: string): Option<int> {
    ParseFields(Split(s, ':'))
  }

  function ParseFields(parts: seq<string>): Option<int> {
    if |parts| == 3 then HoursMinutesSeconds(PythonInt(parts[0]), PythonInt(parts[1]), PythonInt(parts[2]))
    else if |parts| == 2 then MinutesSeconds(PythonInt(parts[0]), PythonInt(parts[1]))
    else None
  }

  /** timedelta(hours=h, minutes=m, seconds=s) in seconds, when all three int() calls succeeded. */
  function HoursMinutesSeconds(h: Option<int>, m: Option<int>, x: Option<int>): Option<int> {
    if h.Some? && m.Some? && x.Some? then Some(h.value * 3600 + m.value * 60 + x.value) else None
  }

  /** timedelta(minutes=m, seconds=s) in seconds, when both int() calls succeeded. */
  function MinutesSeconds(m: Option<int>, x: Option<int>): Option<int> {
    if m.Some? && x.Some? then Some(m.value * 60 + x.value) else None
  }

  lemma SplitThree(a: string, b: string, c: string)
    requires ':' !in a && ':' !in b && ':' !in c
    ensures Split(a + ":" + b + ":" + c, ':') == [a, b, c]
  {
    SplitNoSep(c, ':');
    SplitConcat(b, c, ':');
    SplitConcat(a, b + [':'] + c, ':');
    assert a + ":" + b + ":" + c == a + [':'] + (b + [':'] + c);
  }

  lemma ParseThreeFields(a: string, b: string, c: string, h: int, m: int, x: int, v: int)
    requires PythonInt(a) == Some(h) && PythonInt(b) == Some(m) && PythonInt(c) == Some(x)
    requires v == h * 3600 + m * 60 + x
    ensures ParseFields([a, b, c]) == Some(v)
  {
    ParseFieldsOfThree(a, b, c);
    HoursMinutesSecondsOf(h, m, x, v);
  }

  /** An "H:MM:SS" text of three int() fields reads as hours, minutes and
      seconds, v in all. */
  lemma ParseHoursMinutesSecondsText(a: string, b: string, c: string, h: int, m: int, x: int, v: int)
    requires ':' !in a && ':' !in b && ':' !in c
    requires PythonInt(a) == Some(h) && PythonInt(b) == Some(m) && PythonInt(c) == Some(x)
    requires v == h * 3600 + m * 60 + x
    ensures ParseDowntime(a + ":" + b + ":" + c) == Some(v)
  {
    SplitThree(a, b, c);
    ParseThreeFields(a, b, c, h, m, x, v);
  }

  lemma SplitTwo(a: string, b: string)
    requires ':' !in a && ':' !in b
    ensures Split(a + ":" + b, ':') == [a, b]
  {
    SplitNoSep(b, ':');
    SplitConcat(a, b, ':');
    assert a + ":" + b == a + [':'] + b;
  }

  /** An "M:SS" text of two int() fields reads as minutes and seconds, v in
      all. */
  lemma ParseMinutesSecondsText(a: string, b: string, m: int, x: int, v: int)
    requires ':' !in a && ':' !in b
    requires PythonInt(a) == Some(m) && PythonInt(b) == Some(x)
    requires v == m * 60 + x
    ensures ParseDowntime(a + ":" + b) == Some(v)
  {
    SplitTwo(a, b);
    ParseTwoFields(a, b, m, x, v);
  }

  lemma ParseTwoFields(a: string, b: string, m: int, x: int, v: int)
    requires PythonInt(a) == Some(m) && PythonInt(b) == Some(x)
    requires v == m * 60 + x
    ensures ParseFields([a, b]) == Some(v)
  {
    ParseFieldsOfTwo(a, b);
    MinutesSecondsOf(m, x, v);
  }

  lemma ParseFieldsOfTwo(a: string, b: string)
    ensures ParseFields([a, b]) == MinutesSeconds(PythonInt(a), PythonInt(b))
  {
  }

  lemma MinutesSecondsOf(m: int, x: int, v: int)
    requires v == m * 60 + x
    ensures MinutesSeconds(Some(m), Some(x)) == Some(v)
  {
  }

  lemma ParseFieldsOfThree(a: string, b: string, c: string)
    ensures ParseFields([a, b, c]) == HoursMinutesSeconds(PythonInt(a), PythonInt(b), PythonInt(c))
  {
  }

  lemma HoursMinutesSecondsOf(h: int, m: int, x: int, v: int)
    requires v == h * 3600 + m * 60 + x
    ensures HoursMinutesSeconds(Some(h), Some(m), Some(x)) == Some(v)
  {
  }

  lemma ClockArithmetic(secs: int)
    requires 0 <= secs
    ensures (secs / 60 / 60) * 3600 + (secs / 60 % 60) * 60 + secs % 60 == secs
  {
    var mm := secs / 60;
    assert secs == mm * 60 + secs % 60;
    assert mm == (mm / 60) * 60 + mm % 60;
  }

  /** The three ':' fields of a clock text. */
  function ClockFields(secs: int): seq<string>
    requires 0 <= secs < SecondsPerDay
  {
    var mm := secs / 60;
    [NatToString(mm / 60), TwoDigits(mm % 60), TwoDigits(secs % 60)]
  }

  lemma ClockTextSplits(secs: int)
    requires 0 <= secs < SecondsPerDay
    ensures ParseDowntime(ClockText(secs)) == ParseFields(ClockFields(secs))
  {
    var f := ClockFields(secs);
    NoDotInDigits(f[0]);
    NoDotInDigits(f[1]);
    NoDotInDigits(f[2]);
    SplitThree(f[0], f[1], f[2]);
    assert ClockText(secs) == f[0] + ":" + f[1] + ":" + f[2];
  }

  lemma FieldsValue(h: nat, m: nat, x: nat, v: int)
    requires m < 100 && x < 100 && v == h * 3600 + m * 60 + x
    ensures ParseFields([NatToString(h), TwoDigits(m), TwoDigits(x)]) == Some(v)
  {
    PythonIntOfNat(h);
    PythonIntOfTwoDigits(m);
    PythonIntOfTwoDigits(x);
    ParseThreeFields(NatToString(h), TwoDigits(m), TwoDigits(x), h, m, x, v);
  }

  lemma ClockFieldsValue(secs: int)
    requires 0 <= secs < SecondsPerDay
    ensures ParseFields(ClockFields(secs)) == Some(secs)
  {
    var mm := secs / 60;
    ClockArithmetic(secs);
    assert ClockFields(secs) == [NatToString(mm / 60), TwoDigits(mm % 60), TwoDigits(secs % 60)];
    FieldsValue(mm / 60, mm % 60, secs % 60, secs);
  }

  /** A clock text reads back as the seconds it shows. */
  lemma ParseClockText(secs: int)
    requires 0 <= secs < SecondsPerDay
    ensures ParseDowntime(ClockText(secs)) == Some(secs)
  {
    ClockTextSplits(secs);
    ClockFieldsValue(secs);
  }

  /** What the timer stores for a duration under a day is read back by the
      YTD downtime total as its whole seconds. */
  lemma StoredDowntimeRoundTrip(us: int)
    requires 0 <= us < MicrosPerDay
    ensures ParseDowntime(WholeSecondsText(us)) == Some(us / MicrosPerSecond)
  {
    WholeSecondsTextTruncates(us);
    var whole := us / MicrosPerSecond;
    assert 0 <= whole < SecondsPerDay;
    assert whole / SecondsPerDay == 0 && whole % SecondsPerDay == whole;
    assert WholeSecondsText(us) == ClockText(whole);
    ParseClockText(whole);
  }

  /** A day part in front of the hours makes the first field fail int(): the
      blank after the day count is neither a digit nor '_'. */
  lemma DayFieldRejected(days: int, h: string)
    requires days != 0 && h != [] && AllDigits(h)
    ensures PythonInt(DaysPrefix(days) + h) == None
  {
    var ds := IntToString(days);
    var first := DaysPrefix(days) + h;
    assert first[|ds|] == ' ';
    assert first[0] == ds[0];
    assert first[|first| - 1] == h[|h| - 1];
    PythonIntRejects(first, |ds|);
  }

  lemma NoColonInDayField(days: int, h: string)
    requires AllDigits(h)
    ensures ':' !in DaysPrefix(days) + h
  {
    NoDotInIntToString(days);
    NoDotInDigits(h);
  }

  lemma ParseFieldsHoursRejected(a: string, b: string, c: string)
    requires PythonInt(a) == None
    ensures ParseFields([a, b, c]) == None
  {
  }

  /** A stored text adds to the total exactly when it splits into two or
      three fields and int() reads every one of them; any other field count
      or a field int() refuses is skipped. */
  lemma ParseDowntimeAccepts(s: string)
    ensures var p := Split(s, ':');
      ParseDowntime(s).Some? <==> (|p| == 2 || |p| == 3) && forall i | 0 <= i < |p| :: PythonInt(p[i]).Some?
  {
    ParseFieldsAccepts(Split(s, ':'));
  }

  lemma ParseFieldsAccepts(p: seq<string>)
    ensures ParseFields(p).Some? <==> (|p| == 2 || |p| == 3) && forall i | 0 <= i < |p| :: PythonInt(p[i]).Some?
  {
    if |p| == 3 {
      var h, m, x := PythonInt(p[0]), PythonInt(p[1]), PythonInt(p[2]);
      assert ParseFields(p) == HoursMinutesSeconds(h, m, x);
      assert ParseFields(p).Some? <==> h.Some? && m.Some? && x.Some?;
      assert (forall i | 0 <= i < |p| :: PythonInt(p[i]).Some?) <==> h.Some? && m.Some? && x.Some? by {
        if h.Some? && m.Some? && x.Some? {
          forall i | 0 <= i < |p|
            ensures PythonInt(p[i]).Some?
          {
            assert i == 0 || i == 1 || i == 2;
          }
        }
      }
    } else if |p| == 2 {
      var m, x := PythonInt(p[0]), PythonInt(p[1]);
      assert ParseFields(p) == MinutesSeconds(m, x);
      assert ParseFields(p).Some? <==> m.Some? && x.Some?;
      assert (forall i | 0 <= i < |p| :: PythonInt(p[i]).Some?) <==> m.Some? && x.Some? by {
        if m.Some? && x.Some? {
          forall i | 0 <= i < |p|
            ensures PythonInt(p[i]).Some?
          {
            assert i == 0 || i == 1;
          }
        }
      }
    }
  }

  lemma ParseDowntimeRejected(s: string, a: string, b: string, c: string)
    requires Split(s, ':') == [a, b, c] && PythonInt(a) == None
    ensures ParseDowntime(s) == None
  {
    ParseFieldsHoursRejected(a, b, c);
  }

  /** The shown text of a duration of a day or more starts with its day part. */
  lemma DayLongText(us: int)
    ensures var secs := us / MicrosPerSecond % SecondsPerDay;
      WholeSecondsText(us) == (DaysPrefix(us / MicrosPerSecond / SecondsPerDay) + NatToString(secs / 60 / 60))
        + ":" + TwoDigits(secs / 60 % 60) + ":" + TwoDigits(secs % 60)
  {
    WholeSecondsTextTruncates(us);
    var secs := us / MicrosPerSecond % SecondsPerDay;
    PrefixRegroup(DaysPrefix(us / MicrosPerSecond / SecondsPerDay), NatToString(secs / 60 / 60),
      TwoDigits(secs / 60 % 60), TwoDigits(secs % 60));
  }

  lemma PrefixRegroup(p: string, h: string, m: string, x: string)
    ensures p + (h + ":" + m + ":" + x) == (p + h) + ":" + m + ":" + x
  {
  }

  /** A stored duration of a day or more, or a negative one, has its day part
      inside the first ':' field, so int() fails and the YTD total skips it. */
  lemma DayLongDowntimeSkipped(us: int)
    requires us < 0 || MicrosPerDay <= us
    ensures ParseDowntime(WholeSecondsText(us)) == None
  {
    var whole := us / MicrosPerSecond;
    var days := whole / SecondsPerDay;
    var secs := whole % SecondsPerDay;
    assert days != 0;
    var h, m, x := NatToString(secs / 60 / 60), TwoDigits(secs / 60 % 60), TwoDigits(secs % 60);
    var first := DaysPrefix(days) + h;
    DayLongText(us);
    NoColonInDayField(days, h);
    NoDotInDigits(m);
    NoDotInDigits(x);
    SplitThree(first, m, x);
    DayFieldRejected(days, h);
    ParseDowntimeRejected(WholeSecondsText(us), first, m, x);
  }
}
