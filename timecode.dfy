/** Chapter start time codes (StringTimeToTime, StringTimeToMillis): three
    clock layouts tried in a fixed order, the first that parses wins, and the
    parsed clock is folded into milliseconds. */
module TimeCode {
  import opened Common
  import opened Decimal

  /** A parsed time of day, as time.Time's Hour/Minute/Second/Nanosecond. */
  datatype Clock = Clock(hour: nat, minute: nat, second: nat, nanosecond: nat)

  /** The layouts "15:04:05.000", "15:04:05.0" and "15:04:05". */
  datatype Layout = Millis | Tenths | Whole

  function FractionDigits(layout: Layout): nat {
    match layout
    case Millis => 3
    case Tenths => 1
    case Whole => 0
  }

  /** Nanoseconds per unit of the last fraction digit. */
  function FractionScale(layout: Layout): nat {
    match layout
    case Millis => 1_000_000
    case Tenths => 100_000_000
    case Whole => 1
  }

  function LayoutLength(layout: Layout): nat {
    if layout == Whole then 8 else 9 + FractionDigits(layout)
  }

  /** Parses t against one layout: two-digit hour, minute and second separated
      by ':', then for a fractional layout a '.' and exactly its number of
      digits; hour must be below 24, minute and second below 60. */
  function ParseLayout(t: string, layout: Layout): (r: Option<Clock>)
    ensures r.Some? ==> |t| == LayoutLength(layout)
    ensures r.Some? ==> r.value.hour < 24 && r.value.minute < 60 && r.value.second < 60
    ensures r.Some? ==> r.value.nanosecond < 1_000_000_000
  {
    if |t| != LayoutLength(layout) then None
    else if !(AllDigits(t[0..2]) && t[2] == ':' && AllDigits(t[3..5]) && t[5] == ':' && AllDigits(t[6..8])) then None
    else if layout != Whole && !(t[8] == '.' && AllDigits(t[9..])) then None
    else
      var hour, minute, second := ValueOf(t[0..2]), ValueOf(t[3..5]), ValueOf(t[6..8]);
      if 24 <= hour || 60 <= minute || 60 <= second then None
      else Some(Clock(hour, minute, second, if layout == Whole then 0 else ValueOf(t[9..]) * FractionScale(layout)))
  }

  /** StringTimeToTime: the three layouts in order, ErrBadChapterStartTime if none parses. */
  function StringTimeToTime(t: string): (r: Result<Clock, Error>)
    ensures r.Err? ==> r.error == BadChapterStartTime
    ensures r.Ok? <==> ParseLayout(t, Millis).Some? || ParseLayout(t, Tenths).Some? || ParseLayout(t, Whole).Some?
  {
    match ParseLayout(t, Millis)
    case Some(d) => Ok(d)
    case None =>
      match ParseLayout(t, Tenths)
      case Some(d) => Ok(d)
      case None =>
        match ParseLayout(t, Whole)
        case Some(d) => Ok(d)
        case None => Err(BadChapterStartTime)
  }

  /** The clock as a time.Duration (nanoseconds) divided by time.Millisecond. */
  function ClockMillis(d: Clock): nat {
    (d.hour * 3_600_000_000_000 + d.minute * 60_000_000_000 + d.second * 1_000_000_000 + d.nanosecond) / 1_000_000
  }

  /** StringTimeToMillis: 0 and the parse error, or the start in milliseconds;
      a time of day is below 24 h, so the uint32 conversion never wraps. */
  function StringTimeToMillis(t: string): (r: Result<uint32, Error>)
    ensures r.Err? ==> r.error == BadChapterStartTime
    ensures r.Ok? ==> r.value < 86_400_000
  {
    match StringTimeToTime(t)
    case Err(e) => Err(e)
    case Ok(d) => Ok(ToUint32(ClockMillis(d)))
  }

  /** What a fraction written in a layout contributes, in milliseconds. */
  function FractionMillis(layout: Layout, fraction: nat): nat {
    match layout
    case Millis => fraction
    case Tenths => fraction * 100
    case Whole => 0
  }

  /** Writes a clock in one of the layouts. */
  function FormatClock(hour: nat, minute: nat, second: nat, fraction: nat, layout: Layout): string {
    DigitsOf(hour, 2) + ":" + DigitsOf(minute, 2) + ":" + DigitsOf(second, 2) + FractionText(fraction, layout)
  }

  /** The fraction as written after the seconds: nothing, or '.' and its digits. */
  function FractionText(fraction: nat, layout: Layout): string {
    if layout == Whole then "" else "." + DigitsOf(fraction, FractionDigits(layout))
  }

  /** A string that fits one layout is rejected by the other two (their lengths
      differ), so the order in which the layouts are tried never changes the
      result, and the milliseconds are h*3600000 + m*60000 + s*1000 + ns/1000000. */
  lemma MillisOfLayout(t: string, layout: Layout)
    requires ParseLayout(t, layout).Some?
    ensures var d := ParseLayout(t, layout).value;
      StringTimeToTime(t) == Ok(d)
      && StringTimeToMillis(t) == Ok(d.hour * 3_600_000 + d.minute * 60_000 + d.second * 1000 + d.nanosecond / 1_000_000)
  {
  }

  /** Writing a valid clock in a layout and parsing it gives the clock back. */
  lemma FormatThenParse(hour: nat, minute: nat, second: nat, fraction: nat, layout: Layout)
    requires hour < 24 && minute < 60 && second < 60 && fraction < Pow10(FractionDigits(layout))
    ensures ParseLayout(FormatClock(hour, minute, second, fraction, layout), layout)
      == Some(Clock(hour, minute, second, fraction * FractionScale(layout)))
    ensures StringTimeToMillis(FormatClock(hour, minute, second, fraction, layout))
      == Ok(hour * 3_600_000 + minute * 60_000 + second * 1000 + FractionMillis(layout, fraction))
  {
    var t := FormatClock(hour, minute, second, fraction, layout);
    ParseFormatted(hour, minute, second, fraction, layout);
    ClockOfLayout(t, layout, Clock(hour, minute, second, fraction * FractionScale(layout)));
    FractionToMillis(fraction, layout);
  }

  lemma ClockOfLayout(t: string, layout: Layout, d: Clock)
    requires ParseLayout(t, layout) == Some(d)
    ensures StringTimeToMillis(t) == Ok(d.hour * 3_600_000 + d.minute * 60_000 + d.second * 1000 + d.nanosecond / 1_000_000)
  {
    MillisOfLayout(t, layout);
  }

  lemma FractionToMillis(fraction: nat, layout: Layout)
    requires fraction < Pow10(FractionDigits(layout))
    ensures fraction * FractionScale(layout) / 1_000_000 == FractionMillis(layout, fraction)
  {
    match layout
    case Millis =>
      assert fraction * 1_000_000 / 1_000_000 == fraction;
    case Tenths =>
      assert fraction * 100_000_000 == (fraction * 100) * 1_000_000;
    case Whole =>
      assert Pow10(0) == 1;
  }

  lemma ParseFormatted(hour: nat, minute: nat, second: nat, fraction: nat, layout: Layout)
    requires hour < 24 && minute < 60 && second < 60 && fraction < Pow10(FractionDigits(layout))
    ensures ParseLayout(FormatClock(hour, minute, second, fraction, layout), layout)
      == Some(Clock(hour, minute, second, fraction * FractionScale(layout)))
  {
    ValueOfDigitsOf(hour, 2);
    ValueOfDigitsOf(minute, 2);
    ValueOfDigitsOf(second, 2);
    FractionTextValue(fraction, layout);
    ParseClockText(DigitsOf(hour, 2), DigitsOf(minute, 2), DigitsOf(second, 2), FractionText(fraction, layout), layout,
                   Clock(hour, minute, second, fraction * FractionScale(layout)));
  }

  /** The text after the seconds is what the layout expects and holds ns nanoseconds. */
  predicate FractionFits(tail: string, layout: Layout, ns: nat) {
    if layout == Whole then tail == [] && ns == 0
    else
      |tail| == 1 + FractionDigits(layout) && tail[0] == '.' && AllDigits(tail[1..])
      && ns == ValueOf(tail[1..]) * FractionScale(layout)
  }

  /** The written fraction reads back as the fraction. */
  lemma FractionTextValue(fraction: nat, layout: Layout)
    requires fraction < Pow10(FractionDigits(layout))
    ensures FractionFits(FractionText(fraction, layout), layout, fraction * FractionScale(layout))
  {
    var tail := FractionText(fraction, layout);
    if layout == Whole {
      assert Pow10(0) == 1;
    } else {
      assert tail[1..] == DigitsOf(fraction, FractionDigits(layout));
      ValueOfDigitsOf(fraction, FractionDigits(layout));
    }
  }

  /** The layout check on a string already split into its fields. */
  lemma ParseClockText(hh: string, mm: string, ss: string, tail: string, layout: Layout, d: Clock)
    requires |hh| == 2 && |mm| == 2 && |ss| == 2 && AllDigits(hh) && AllDigits(mm) && AllDigits(ss)
    requires ValueOf(hh) == d.hour < 24 && ValueOf(mm) == d.minute < 60 && ValueOf(ss) == d.second < 60
    requires FractionFits(tail, layout, d.nanosecond)
    ensures ParseLayout(hh + ":" + mm + ":" + ss + tail, layout) == Some(d)
  {
    ClockFieldsAt(hh, mm, ss, tail);
  }

  lemma ClockFieldsAt(hh: string, mm: string, ss: string, tail: string)
    requires |hh| == 2 && |mm| == 2 && |ss| == 2
    ensures var t := hh + ":" + mm + ":" + ss + tail;
      |t| == 8 + |tail| && t[0..2] == hh && t[2] == ':' && t[3..5] == mm && t[5] == ':' && t[6..8] == ss
      && t[8..] == tail
  {
    var t := hh + ":" + mm + ":" + ss + tail;
    assert t[0..2] == hh && t[3..5] == mm && t[6..8] == ss && t[8..] == tail;
  }

  /** Conversely, a string a layout accepts is exactly the formatting of what it parsed to. */
  lemma ParseThenFormat(t: string, layout: Layout)
    requires ParseLayout(t, layout).Some?
    ensures var d := ParseLayout(t, layout).value;
      d.nanosecond % FractionScale(layout) == 0
      && t == FormatClock(d.hour, d.minute, d.second, d.nanosecond / FractionScale(layout), layout)
  {
    var d := ParseLayout(t, layout).value;
    ParsedFields(t, layout);
    ClockFieldsFormatted(t);
    var hms := DigitsOf(d.hour, 2) + ":" + DigitsOf(d.minute, 2) + ":" + DigitsOf(d.second, 2);
    assert t[..8] == hms;
    if layout == Whole {
      assert t == hms;
      assert FormatClock(d.hour, d.minute, d.second, d.nanosecond / FractionScale(layout), layout) == hms + "";
    } else {
      var f := ValueOf(t[9..]);
      ScaledFraction(f, layout);
      assert d.nanosecond / FractionScale(layout) == f;
      DigitsOfValueOf(t[9..]);
      assert t == hms + ("." + DigitsOf(f, FractionDigits(layout)));
    }
  }

  /** What ParseLayout read from each field of an accepted string. */
  lemma ParsedFields(t: string, layout: Layout)
    requires ParseLayout(t, layout).Some?
    ensures var d := ParseLayout(t, layout).value;
      |t| == LayoutLength(layout)
      && AllDigits(t[0..2]) && t[2] == ':' && AllDigits(t[3..5]) && t[5] == ':' && AllDigits(t[6..8])
      && (layout != Whole ==> t[8] == '.' && AllDigits(t[9..]))
      && d.hour == ValueOf(t[0..2]) && d.minute == ValueOf(t[3..5]) && d.second == ValueOf(t[6..8])
      && d.nanosecond == (if layout == Whole then 0 else ValueOf(t[9..]) * FractionScale(layout))
  {
  }

  /** The first eight characters of an accepted string are the formatted hour, minute and second. */
  lemma ClockFieldsFormatted(t: string)
    requires |t| >= 8 && AllDigits(t[0..2]) && t[2] == ':' && AllDigits(t[3..5]) && t[5] == ':' && AllDigits(t[6..8])
    ensures t[..8] == DigitsOf(ValueOf(t[0..2]), 2) + ":" + DigitsOf(ValueOf(t[3..5]), 2) + ":" + DigitsOf(ValueOf(t[6..8]), 2)
  {
    DigitsOfValueOf(t[0..2]);
    DigitsOfValueOf(t[3..5]);
    DigitsOfValueOf(t[6..8]);
    assert t[..8] == t[0..2] + ":" + t[3..5] + ":" + t[6..8];
  }

  lemma ScaledFraction(f: nat, layout: Layout)
    ensures (f * FractionScale(layout)) % FractionScale(layout) == 0
    ensures (f * FractionScale(layout)) / FractionScale(layout) == f
  {
  }

  /** The start times of the package's test chapters. */
  lemma ExampleStartMillis()
    ensures StringTimeToMillis("00:00:00.000") == Ok(0)
  {
    MillisExampleText();
    FormatThenParse(0, 0, 0, 0, Millis);
  }

  lemma ExampleStartWhole()
    ensures StringTimeToMillis("00:00:10") == Ok(10_000)
  {
    WholeExampleText();
    FormatThenParse(0, 0, 10, 0, Whole);
  }

  lemma ExampleStartTenths()
    ensures StringTimeToMillis("00:00:20.5") == Ok(20_500)
  {
    TenthsExampleText();
    assert Pow10(1) == 10;
    FormatThenParse(0, 0, 20, 5, Tenths);
  }

  lemma MillisExampleText()
    ensures FormatClock(0, 0, 0, 0, Millis) == "00:00:00.000"
  {
    TwoDigits(0);
    assert DigitsOf(0, 3) == DigitsOf(0, 2) + "0";
  }

  lemma WholeExampleText()
    ensures FormatClock(0, 0, 10, 0, Whole) == "00:00:10"
  {
    TwoDigits(0);
    TwoDigits(10);
  }

  lemma TenthsExampleText()
    ensures FormatClock(0, 0, 20, 5, Tenths) == "00:00:20.5"
  {
    TwoDigits(0);
    TwoDigits(20);
    assert DigitsOf(5, 1) == "5";
  }

  lemma TwoDigits(n: nat)
    requires n < 100
    ensures DigitsOf(n, 2) == [DigitChar(n / 10), DigitChar(n % 10)]
  {
    var hi := n / 10;
    assert hi < 10;
    assert DigitsOf(hi, 1) == DigitsOf(hi / 10, 0) + [DigitChar(hi % 10)];
    assert hi % 10 == hi;
  }

  /** "10:99" lacks the seconds field, so no layout accepts it. */
  lemma ExampleMalformedStart()
    ensures StringTimeToMillis("10:99") == Err(BadChapterStartTime)
  {
    var bad := "10:99";
    assert |bad| == 5;
    assert ParseLayout(bad, Millis) == None && ParseLayout(bad, Tenths) == None && ParseLayout(bad, Whole) == None;
  }
}
