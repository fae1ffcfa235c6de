/** The chapter boundaries shared by AddCHAPAndCTOC and GetFFmpegChaptersTXT:
    every start is parsed first, chapter i runs from its start to the next
    chapter's start (the last one to the total duration), and its element ID
    is the decimal text of i + 1. */
module Chapters {
  import opened Common
  import opened Decimal
  import opened TimeCode

  /** A chapter as the caller supplies it: a title and an unparsed start time code. */
  datatype Chapter = Chapter(title: string, start: string)

  /** One chapter's boundaries in milliseconds and its element ID. */
  datatype Interval = Interval(elementId: string, startMillis: uint32, endMillis: uint32, title: string)

  /** `uint32(duration / time.Millisecond)` for a time.Duration in nanoseconds. */
  function DurationMillis(duration: int64): (ms: uint32)
    ensures 0 <= duration < 0x1_0000_0000 * 1_000_000 ==> ms == duration / 1_000_000
  {
    ToUint32(QuoMillisecond(duration))
  }

  /** The first loop of both builders: every start parsed, in order, or the parse error. */
  function ParseStarts(chapters: seq<Chapter>): (r: Result<seq<uint32>, Error>)
    ensures r.Ok? <==> forall i {:trigger StringTimeToMillis(chapters[i].start)} ::
      0 <= i < |chapters| ==> StringTimeToMillis(chapters[i].start).Ok?
    ensures r.Ok? ==> |r.value| == |chapters|
    ensures r.Ok? ==> forall i {:trigger StringTimeToMillis(chapters[i].start)} ::
      0 <= i < |chapters| ==> StringTimeToMillis(chapters[i].start) == Ok(r.value[i])
    ensures r.Err? ==> r.error == BadChapterStartTime
  {
    var parsed := seq(|chapters|, i requires 0 <= i < |chapters| => StringTimeToMillis(chapters[i].start));
    assert forall i :: 0 <= i < |chapters| ==> parsed[i] == StringTimeToMillis(chapters[i].start);
    Collect(parsed)
  }

  /** The first loop of both builders, over the starts slice: fills it with
      every parsed start, or stops at the first start that does not parse. */
  method ParseStartTimes(chapters: seq<Chapter>, starts: array<uint32>) returns (err: Option<Error>)
    requires starts.Length == |chapters|
    modifies starts
    ensures err == None <==> ParseStarts(chapters).Ok?
    ensures err == None ==> ParseStarts(chapters).value == starts[..]
    ensures err != None ==> err == Some(ParseStarts(chapters).error)
  {
    for i := 0 to |chapters|
      invariant forall k :: 0 <= k < i ==> StringTimeToMillis(chapters[k].start) == Ok(starts[k])
    {
      var m := StringTimeToMillis(chapters[i].start);
      if m.Err? {
        assert !ParseStarts(chapters).Ok?;
        return Some(m.error);
      }
      starts[i] := m.value;
    }
    ParseStartsOf(chapters, starts[..]);
    return None;
  }

  /** The values of a list of results in order, or the first error among them. */
  function Collect<T>(rs: seq<Result<T, Error>>): (r: Result<seq<T>, Error>)
    ensures r.Ok? <==> forall i :: 0 <= i < |rs| ==> rs[i].Ok?
    ensures r.Ok? ==> |r.value| == |rs| && forall i :: 0 <= i < |rs| ==> rs[i] == Ok(r.value[i])
    ensures r.Err? ==> exists i :: 0 <= i < |rs| && rs[i] == Err(r.error) && forall j :: 0 <= j < i ==> rs[j].Ok?
    decreases |rs|
  {
    if rs == [] then Ok([])
    else
      match rs[0]
      case Err(e) => Err(e)
      case Ok(v) =>
        var rest := Collect(rs[1..]);
        assert forall i :: 1 <= i < |rs| ==> rs[i] == rs[1..][i - 1];
        match rest
        case Err(e) =>
          var k :| 0 <= k < |rs[1..]| && rs[1..][k] == Err(e) && forall j :: 0 <= j < k ==> rs[1..][j].Ok?;
          assert rs[k + 1] == Err(e);
          Err(e)
        case Ok(vs) => Ok([v] + vs)
  }

  /** The interval of chapter i given all parsed starts. */
  function IntervalAt(chapters: seq<Chapter>, starts: seq<uint32>, millis: uint32, i: nat): Interval
    requires |starts| == |chapters| && i < |chapters|
  {
    Interval(Itoa(i + 1), starts[i], if i < |chapters| - 1 then starts[i + 1] else millis, chapters[i].title)
  }

  /** Every chapter's interval given all parsed starts and the duration in milliseconds. */
  function IntervalsFrom(chapters: seq<Chapter>, starts: seq<uint32>, millis: uint32): (ivs: seq<Interval>)
    requires |starts| == |chapters|
    ensures |ivs| == |chapters|
  {
    seq(|chapters|, i requires 0 <= i < |chapters| => IntervalAt(chapters, starts, millis, i))
  }

  /** The intervals both builders emit, or the error they return first. An
      empty chapter list yields nothing without looking at the duration. */
  function BuildIntervals(chapters: seq<Chapter>, duration: int64): Result<seq<Interval>, Error>
  {
    if |chapters| == 0 then Ok([])
    else if duration == 0 then Err(ZeroDuration)
    else
      match ParseStarts(chapters)
      case Err(e) => Err(e)
      case Ok(starts) =>
        Ok(IntervalsFrom(chapters, starts, DurationMillis(duration)))
  }

  /** The guards: which inputs succeed and which error each failing input gets. */
  lemma BuildIntervalsOutcome(chapters: seq<Chapter>, duration: int64)
    ensures |chapters| == 0 ==> BuildIntervals(chapters, duration) == Ok([])
    ensures |chapters| > 0 && duration == 0 ==> BuildIntervals(chapters, duration) == Err(ZeroDuration)
    ensures |chapters| > 0 && duration != 0 ==>
      (BuildIntervals(chapters, duration).Ok?
       <==> forall i :: 0 <= i < |chapters| ==> StringTimeToMillis(chapters[i].start).Ok?)
    ensures BuildIntervals(chapters, duration).Err? && duration != 0 ==>
      BuildIntervals(chapters, duration).error == BadChapterStartTime
  {
  }

  /** Chapter i starts at its parsed start, ends where chapter i + 1 starts (the
      last one at the duration in whole milliseconds), keeps its title and is
      named Itoa(i + 1). Nothing orders the starts, so an end may precede its start. */
  lemma IntervalBounds(chapters: seq<Chapter>, duration: int64, i: nat)
    requires BuildIntervals(chapters, duration).Ok? && i < |chapters|
    ensures var ivs := BuildIntervals(chapters, duration).value;
      |ivs| == |chapters|
      && StringTimeToMillis(chapters[i].start) == Ok(ivs[i].startMillis)
      && (i + 1 < |chapters| ==> ivs[i].endMillis == ivs[i + 1].startMillis)
      && (i + 1 == |chapters| ==> ivs[i].endMillis == DurationMillis(duration))
  {
    var starts := ParseStarts(chapters).value;
    assert StringTimeToMillis(chapters[i].start) == Ok(starts[i]);
    var ivs := IntervalsFrom(chapters, starts, DurationMillis(duration));
    assert ivs[i] == IntervalAt(chapters, starts, DurationMillis(duration), i);
    if i + 1 < |chapters| {
      assert ivs[i + 1] == IntervalAt(chapters, starts, DurationMillis(duration), i + 1);
    }
  }

  /** Chapter i keeps its title and is named Itoa(i + 1). */
  lemma IntervalNames(chapters: seq<Chapter>, duration: int64, i: nat)
    requires BuildIntervals(chapters, duration).Ok? && i < |chapters|
    ensures var ivs := BuildIntervals(chapters, duration).value;
      |ivs| == |chapters| && ivs[i].elementId == Itoa(i + 1) && ivs[i].title == chapters[i].title
  {
  }

  /** Element IDs are unique within one call. */
  lemma ElementIdsDistinct(chapters: seq<Chapter>, duration: int64, i: nat, j: nat)
    requires BuildIntervals(chapters, duration).Ok? && i < j < |chapters|
    ensures BuildIntervals(chapters, duration).value[i].elementId
      != BuildIntervals(chapters, duration).value[j].elementId
  {
    IntervalNames(chapters, duration, i);
    IntervalNames(chapters, duration, j);
    ItoaInjective(i + 1, j + 1);
  }

  /** A duration below one millisecond passes the zero check but ends the last chapter at 0. */
  lemma SubMillisecondDuration(chapters: seq<Chapter>, duration: int64)
    requires 0 < duration < 1_000_000
    requires BuildIntervals(chapters, duration).Ok? && |chapters| > 0
    ensures BuildIntervals(chapters, duration).value[|chapters| - 1].endMillis == 0
  {
  }

  lemma SmallItoa()
    ensures Itoa(1) == "1" && Itoa(2) == "2" && Itoa(3) == "3"
  {
    assert NumDigits(1) == 1 && NumDigits(2) == 1 && NumDigits(3) == 1;
    assert DigitsOf(1, 1) == "1" && DigitsOf(2, 1) == "2" && DigitsOf(3, 1) == "3";
  }

  /** ParseStarts succeeds with exactly the starts every chapter parses to. */
  lemma ParseStartsOf(chapters: seq<Chapter>, starts: seq<uint32>)
    requires |starts| == |chapters|
    requires forall i :: 0 <= i < |chapters| ==> StringTimeToMillis(chapters[i].start) == Ok(starts[i])
    ensures ParseStarts(chapters) == Ok(starts)
  {
    var r := ParseStarts(chapters);
    assert r.Ok?;
    forall i | 0 <= i < |chapters|
      ensures r.value[i] == starts[i]
    {
      assert StringTimeToMillis(chapters[i].start) == Ok(starts[i]);
    }
    assert r.value == starts;
  }

  /** Two chapters whose starts parse to a and b, for a duration of 30 s. */
  lemma TwoChapters(chapters: seq<Chapter>, a: uint32, b: uint32)
    requires |chapters| == 2
    requires StringTimeToMillis(chapters[0].start) == Ok(a) && StringTimeToMillis(chapters[1].start) == Ok(b)
    ensures BuildIntervals(chapters, 30_000_000_000)
      == Ok([Interval("1", a, b, chapters[0].title), Interval("2", b, 30_000, chapters[1].title)])
  {
    var starts := [a, b];
    forall i | 0 <= i < 2
      ensures StringTimeToMillis(chapters[i].start) == Ok(starts[i])
    {
      if i == 0 { } else { }
    }
    ParseStartsOf(chapters, starts);
    assert DurationMillis(30_000_000_000) == 30_000;
    assert BuildIntervals(chapters, 30_000_000_000) == Ok(IntervalsFrom(chapters, starts, 30_000));
    TwoIntervals(chapters, a, b);
  }

  lemma TwoIntervals(chapters: seq<Chapter>, a: uint32, b: uint32)
    requires |chapters| == 2
    ensures IntervalsFrom(chapters, [a, b], 30_000)
      == [Interval("1", a, b, chapters[0].title), Interval("2", b, 30_000, chapters[1].title)]
  {
    var starts := [a, b];
    var ivs := IntervalsFrom(chapters, starts, 30_000);
    SmallItoa();
    assert ivs[0] == IntervalAt(chapters, starts, 30_000, 0) == Interval("1", a, b, chapters[0].title);
    assert ivs[1] == IntervalAt(chapters, starts, 30_000, 1) == Interval("2", b, 30_000, chapters[1].title);
  }

  /** Three chapters whose starts parse to a, b and c, for a duration of 30 s. */
  lemma ThreeChapters(chapters: seq<Chapter>, a: uint32, b: uint32, c: uint32)
    requires |chapters| == 3
    requires StringTimeToMillis(chapters[0].start) == Ok(a) && StringTimeToMillis(chapters[1].start) == Ok(b)
    requires StringTimeToMillis(chapters[2].start) == Ok(c)
    ensures BuildIntervals(chapters, 30_000_000_000)
      == Ok([Interval("1", a, b, chapters[0].title), Interval("2", b, c, chapters[1].title),
             Interval("3", c, 30_000, chapters[2].title)])
  {
    var starts := [a, b, c];
    forall i | 0 <= i < 3
      ensures StringTimeToMillis(chapters[i].start) == Ok(starts[i])
    {
      if i == 0 { } else if i == 1 { } else { }
    }
    ParseStartsOf(chapters, starts);
    assert DurationMillis(30_000_000_000) == 30_000;
    assert BuildIntervals(chapters, 30_000_000_000) == Ok(IntervalsFrom(chapters, starts, 30_000));
    ThreeIntervals(chapters, a, b, c);
  }

  lemma ThreeIntervals(chapters: seq<Chapter>, a: uint32, b: uint32, c: uint32)
    requires |chapters| == 3
    ensures IntervalsFrom(chapters, [a, b, c], 30_000)
      == [Interval("1", a, b, chapters[0].title), Interval("2", b, c, chapters[1].title),
          Interval("3", c, 30_000, chapters[2].title)]
  {
    var starts := [a, b, c];
    var ivs := IntervalsFrom(chapters, starts, 30_000);
    SmallItoa();
    assert ivs[0] == IntervalAt(chapters, starts, 30_000, 0) == Interval("1", a, b, chapters[0].title);
    assert ivs[1] == IntervalAt(chapters, starts, 30_000, 1) == Interval("2", b, c, chapters[1].title);
    assert ivs[2] == IntervalAt(chapters, starts, 30_000, 2) == Interval("3", c, 30_000, chapters[2].title);
  }

  /** Out-of-order starts are not rejected: the first chapter then ends before it starts. */
  lemma OutOfOrderStarts()
    ensures BuildIntervals([Chapter("A", "00:00:10"), Chapter("B", "00:00:00.000")], 30_000_000_000)
      == Ok([Interval("1", 10_000, 0, "A"), Interval("2", 0, 30_000, "B")])
  {
    ExampleStartWhole();
    ExampleStartMillis();
    TwoChapters([Chapter("A", "00:00:10"), Chapter("B", "00:00:00.000")], 10_000, 0);
  }

  /** The package's test chapters, to be used with a 30 s duration. */
  function TestChapters(): seq<Chapter> {
    [Chapter("Chapter 1", "00:00:00.000"), Chapter("Chapter 2", "00:00:10"), Chapter("Chapter 3", "00:00:20.5")]
  }

  lemma TestScenarioIntervals()
    ensures BuildIntervals(TestChapters(), 30_000_000_000)
      == Ok([Interval("1", 0, 10_000, "Chapter 1"), Interval("2", 10_000, 20_500, "Chapter 2"),
             Interval("3", 20_500, 30_000, "Chapter 3")])
  {
    ExampleStartMillis();
    ExampleStartWhole();
    ExampleStartTenths();
    ThreeChapters(TestChapters(), 0, 10_000, 20_500);
  }
}
