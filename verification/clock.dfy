/** Clock times as the calendar reads and prints them: `"HH:MM"` on input
    (`parseTime`, `formatTime`), `"h:MM AM"` on output, and the hour-axis label. */
module ClockTime {
  import opened Text

  datatype Option<T> = None | Some(value: T)

  /** A time of day on the 24-hour clock. */
  datatype Clock = Clock(hours: nat, minutes: nat) {
    predicate Valid() {
      hours < 24 && minutes < 60
    }
  }

  /** Index of the first `':'` in `s`, or `|s|` when there is none. */
  function ColonIndex(s: string): (i: nat)
    ensures i <= |s|
    ensures forall k :: 0 <= k < i ==> s[k] != ':'
    ensures i < |s| ==> s[i] == ':'
  {
    if |s| == 0 || s[0] == ':' then 0 else 1 + ColonIndex(s[1..])
  }

  /** `timeStr.split(':').map(Number)` for a well-formed `"H:M"` with one colon,
      both fields non-empty runs of digits, the hour below 24 and the minute below
      60. Every other text is outside the model (`None`). */
  function ParseClock(s: string): (r: Option<Clock>)
    ensures r.Some? ==> r.value.Valid()
  {
    var i := ColonIndex(s);
    if i == |s| then None
    else
      var hs, ms := s[..i], s[i + 1..];
      if |hs| > 0 && |ms| > 0 && AllDigits(hs) && AllDigits(ms)
         && DigitsValue(hs) < 24 && DigitsValue(ms) < 60
      then Some(Clock(DigitsValue(hs), DigitsValue(ms)))
      else None
  }

  /** The two fields of an accepted time: non-empty digit runs, the hour below
      24 and the minute below 60. */
  predicate TimeFields(hs: string, ms: string) {
    |hs| > 0 && |ms| > 0 && AllDigits(hs) && AllDigits(ms)
    && DigitsValue(hs) < 24 && DigitsValue(ms) < 60
  }

  /** A text parses exactly when it is two such fields around one colon, and
      then it reads as the numbers those fields spell. */
  lemma ParseClockAccepts(s: string)
    ensures ParseClock(s).Some? <==> exists hs, ms :: TimeFields(hs, ms) && s == hs + ":" + ms
    ensures ParseClock(s).Some? ==>
              exists hs, ms :: TimeFields(hs, ms) && s == hs + ":" + ms
                               && ParseClock(s).value == Clock(DigitsValue(hs), DigitsValue(ms))
  {
    var i := ColonIndex(s);
    if ParseClock(s).Some? {
      assert s == s[..i] + ":" + s[i + 1..];
      assert TimeFields(s[..i], s[i + 1..]);
    }
    if hs, ms :| TimeFields(hs, ms) && s == hs + ":" + ms {
      ParseFields(hs, ms);
    }
  }

  /** The `"HH:MM"` form the schedule data carries. */
  function ClockText(c: Clock): (s: string)
    requires c.Valid()
    ensures |s| == 5 && s[2] == ':'
  {
    TwoDigits(c.hours) + ":" + TwoDigits(c.minutes)
  }

  /** Every valid clock time survives printing as `"HH:MM"` and reading back. */
  lemma ParseClockText(c: Clock)
    requires c.Valid()
    ensures ParseClock(ClockText(c)) == Some(c)
  {
    ParseFields(TwoDigits(c.hours), TwoDigits(c.minutes));
  }

  /** Two digit fields around one colon parse field by field. */
  lemma ParseFields(hs: string, ms: string)
    requires TimeFields(hs, ms)
    ensures ParseClock(hs + ":" + ms) == Some(Clock(DigitsValue(hs), DigitsValue(ms)))
  {
    var s := hs + ":" + ms;
    assert forall k :: 0 <= k < |hs| ==> s[k] == hs[k];
    assert s[|hs|] == ':';
    assert ColonIndex(s) == |hs|;
    assert s[..|hs|] == hs;
    assert s[|hs| + 1..] == ms;
  }

  /** Minutes past midnight: the integer form of `parseTime`. */
  function Minutes(c: Clock): (m: nat)
    requires c.Valid()
    ensures m < 24 * 60
    ensures m / 60 == c.hours && m % 60 == c.minutes
  {
    60 * c.hours + c.minutes
  }

  /** `hours + minutes / 60`, read as an exact real number. */
  function ParseTimeValue(c: Clock): (v: real)
    requires c.Valid()
    ensures v * 60.0 == Minutes(c) as real
  {
    c.hours as real + c.minutes as real / 60.0
  }

  /** Comparing `parseTime` against whole hours, as the slot filter does, gives
      the same answers as comparing minutes against multiples of sixty. */
  lemma WholeHourComparisons(c: Clock, hour: int)
    requires c.Valid()
    ensures ParseTimeValue(c) < (hour + 1) as real <==> Minutes(c) < 60 * (hour + 1)
    ensures ParseTimeValue(c) > hour as real <==> Minutes(c) > 60 * hour
  {
    var v := ParseTimeValue(c);
    assert v * 60.0 == Minutes(c) as real;
  }

  datatype Meridiem = AM | PM {
    function Text(): string {
      match this
      case AM => "AM"
      case PM => "PM"
    }
  }

  /** `hours >= 12 ? 'PM' : 'AM'`: the hours before noon are AM, noon and later PM. */
  function PeriodOf(hours: nat): (p: Meridiem)
    ensures p == AM <==> hours < 12
  {
    if hours >= 12 then PM else AM
  }

  /** Reading a 12-hour clock: 12 AM is midnight, 12 PM is noon. */
  function FromTwelveHour(h12: nat, p: Meridiem): (h: nat)
    requires 1 <= h12 <= 12
    ensures h < 24 && PeriodOf(h) == p
  {
    match p
    case AM => if h12 == 12 then 0 else h12
    case PM => if h12 == 12 then 12 else h12 + 12
  }

  /** The hour `formatTime` displays: always on the 12-hour dial, and together
      with the period it determines the 24-hour hour. */
  function DisplayHour(hours: nat): (d: nat)
    requires hours < 24
    ensures 1 <= d <= 12
    ensures FromTwelveHour(d, PeriodOf(hours)) == hours
  {
    if hours > 12 then hours - 12 else if hours == 0 then 12 else hours
  }

  /** The 12-hour reading is one-to-one in the other direction too. */
  lemma TwelveHourRoundTrip(h12: nat, p: Meridiem)
    requires 1 <= h12 <= 12
    ensures DisplayHour(FromTwelveHour(h12, p)) == h12
  {
  }

  /** The text `formatTime` builds from a parsed time:
      `"${displayHours}:${minutes.toString().padStart(2, '0')} ${period}"`, that
      is the unpadded 12-hour hour, a colon, the minutes as two digits, a space
      and the period. */
  function FormatClock(c: Clock): (r: string)
    requires c.Valid()
    ensures |r| == |DecimalString(DisplayHour(c.hours))| + 6
    ensures r[..|r| - 6] == DecimalString(DisplayHour(c.hours))
    ensures r[|r| - 6] == ':'
    ensures r[|r| - 5..] == [DigitChar(c.minutes / 10), DigitChar(c.minutes % 10), ' '] + PeriodOf(c.hours).Text()
  {
    var d, mm, p := DecimalString(DisplayHour(c.hours)), TwoDigits(c.minutes), PeriodOf(c.hours).Text();
    ClockFields(d, mm, p);
    d + ":" + mm + " " + p
  }

  /** `d:mm p` taken apart at its fixed positions, counted from the end. */
  lemma ClockFields(d: string, mm: string, p: string)
    requires |mm| == 2 && |p| == 2
    ensures var r := d + ":" + mm + " " + p;
            && |r| == |d| + 6
            && r[..|d|] == d
            && r[|d|] == ':'
            && r[|d| + 1..] == [mm[0], mm[1], ' '] + p
            && r == d + ":" + (mm + " " + p)
  {
    var r := d + ":" + mm + " " + p;
    var t := [mm[0], mm[1], ' '] + p;
    assert |r| == |d| + 6;
    forall k | 0 <= k < |d|
      ensures r[k] == d[k]
    {
    }
    forall k | 0 <= k < 5
      ensures r[|d| + 1 + k] == t[k]
    {
    }
    assert r[|d| + 1..] == t;
    var rhs := d + ":" + (mm + " " + p);
    forall k | 0 <= k < |r|
      ensures r[k] == rhs[k]
    {
    }
  }

  /** Reading the 12-hour text back recovers the time that was printed. */
  lemma FormatClockRoundTrip(c: Clock)
    requires c.Valid()
    ensures ParseTwelveHour(FormatClock(c)) == Some(c)
  {
    var d := DecimalString(DisplayHour(c.hours));
    var mm := TwoDigits(c.minutes);
    var p := PeriodOf(c.hours);
    ClockFields(d, mm, p.Text());
    ParseTwelveFields(d, mm, p);
    assert DigitsValue(d) == DisplayHour(c.hours) && DigitsValue(mm) == c.minutes;
  }

  /** An hour field, a colon, two minute digits, a space and a period parse field by field. */
  lemma ParseTwelveFields(hs: string, mm: string, p: Meridiem)
    requires |hs| > 0 && AllDigits(hs) && 1 <= DigitsValue(hs) <= 12
    requires |mm| == 2 && AllDigits(mm) && DigitsValue(mm) < 60
    ensures ParseTwelveHour(hs + ":" + (mm + " " + p.Text()))
            == Some(Clock(FromTwelveHour(DigitsValue(hs), p), DigitsValue(mm)))
  {
    var tail := mm + " " + p.Text();
    var t := hs + ":" + tail;
    assert forall k :: 0 <= k < |hs| ==> t[k] == hs[k];
    assert t[|hs|] == ':';
    assert ColonIndex(t) == |hs|;
    assert t[..|hs|] == hs;
    assert t[|hs| + 1..] == tail;
    assert tail[..2] == mm;
    assert tail[2] == ' ';
    assert tail[3..] == p.Text();
  }

  /** `formatTime(timeStr)`: the 12-hour rendering of a well-formed `"HH:MM"`;
      reading it back as a 12-hour time gives the time that was parsed. */
  function FormatTime(s: string): (r: string)
    requires ParseClock(s).Some?
    ensures ParseTwelveHour(r) == ParseClock(s)
    ensures 7 <= |r| <= 8
    ensures var c := ParseClock(s).value;
            && r[..|r| - 6] == DecimalString(DisplayHour(c.hours))
            && r[|r| - 6] == ':'
            && r[|r| - 5..] == [DigitChar(c.minutes / 10), DigitChar(c.minutes % 10), ' '] + PeriodOf(c.hours).Text()
  {
    var c := ParseClock(s).value;
    FormatClockRoundTrip(c);
    FormatClock(c)
  }

  /** Reads `"h:MM AM"` / `"h:MM PM"` back: the hour in 1..12 without padding
      requirements, exactly two minute digits, one space, the period. */
  function ParseTwelveHour(t: string): (r: Option<Clock>)
    ensures r.Some? ==> r.value.Valid()
  {
    var i := ColonIndex(t);
    if i == |t| then None
    else
      var hs, rest := t[..i], t[i + 1..];
      if |hs| > 0 && AllDigits(hs) && 1 <= DigitsValue(hs) <= 12
         && |rest| == 5 && AllDigits(rest[..2]) && DigitsValue(rest[..2]) < 60 && rest[2] == ' '
         && (rest[3..] == "AM" || rest[3..] == "PM")
      then
        var p := if rest[3..] == "AM" then AM else PM;
        Some(Clock(FromTwelveHour(DigitsValue(hs), p), DigitsValue(rest[..2])))
      else None
  }

  /** The hour-axis label of row `hour` (0..23): whatever its four cases, it is
      the 12-hour hour, a space and the period. */
  function HourLabel(hour: nat): (r: string)
    requires hour < 24
    ensures r == DecimalString(DisplayHour(hour)) + " " + PeriodOf(hour).Text()
  {
    SpacedPeriod(DecimalString(DisplayHour(hour)), PeriodOf(hour));
    DecimalTwelve();
    if hour == 0 then "12 AM"
    else if hour < 12 then DecimalString(hour) + " AM"
    else if hour == 12 then "12 PM"
    else DecimalString(hour - 12) + " PM"
  }

  /** The hour-axis label is what `formatTime` prints for the top of that hour,
      without the `":00"`. */
  lemma HourLabelMatchesFormatTime(hour: nat)
    requires hour < 24
    ensures |HourLabel(hour)| >= 4
    ensures ParseClock(ClockText(Clock(hour, 0))) == Some(Clock(hour, 0))
    ensures FormatTime(ClockText(Clock(hour, 0))) == InsertMinutes(HourLabel(hour))
  {
    var d, p := DecimalString(DisplayHour(hour)), PeriodOf(hour).Text();
    TopOfHour(hour);
    InsertBeforePeriod(d, p);
  }

  /** `"h AM"` becomes `"h:00 AM"`: the zero minutes go before the space and the period. */
  function InsertMinutes(lbl: string): string
    requires |lbl| >= 3
  {
    lbl[..|lbl| - 3] + ":00" + lbl[|lbl| - 3..]
  }

  lemma InsertBeforePeriod(d: string, p: string)
    requires |d| >= 1 && |p| == 2
    ensures InsertMinutes(d + " " + p) == d + ":00" + " " + p
  {
    var lbl := d + " " + p;
    assert lbl[..|lbl| - 3] == d;
    assert lbl[|lbl| - 3..] == " " + p;
  }

  lemma SpacedPeriod(d: string, p: Meridiem)
    ensures d + " " + p.Text() == d + (if p == AM then " AM" else " PM")
  {
    var lhs, rhs := d + " " + p.Text(), d + (if p == AM then " AM" else " PM");
    assert |lhs| == |rhs|;
    forall k | 0 <= k < |lhs|
      ensures lhs[k] == rhs[k]
    {
    }
  }

  lemma DecimalTwelve()
    ensures DecimalString(12) == "12"
  {
    assert DecimalString(1) == [DigitChar(1)];
    assert DecimalString(12) == DecimalString(1) + [DigitChar(2)];
  }

  lemma TopOfHour(hour: nat)
    requires hour < 24
    ensures ParseClock(ClockText(Clock(hour, 0))) == Some(Clock(hour, 0))
    ensures FormatTime(ClockText(Clock(hour, 0)))
            == DecimalString(DisplayHour(hour)) + ":00" + " " + PeriodOf(hour).Text()
  {
    FormatTimeOfClockText(Clock(hour, 0));
    FormatClockTopOfHour(hour);
  }

  lemma FormatTimeOfClockText(c: Clock)
    requires c.Valid()
    ensures ParseClock(ClockText(c)) == Some(c)
    ensures FormatTime(ClockText(c)) == FormatClock(c)
  {
    ParseClockText(c);
  }

  lemma FormatClockTopOfHour(hour: nat)
    requires hour < 24
    ensures FormatClock(Clock(hour, 0)) == DecimalString(DisplayHour(hour)) + ":00" + " " + PeriodOf(hour).Text()
  {
    assert DigitChar(0) == '0';
    assert TwoDigits(0) == "00";
  }
}
