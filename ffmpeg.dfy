/** GetFFmpegChaptersTXT: the FFmpeg metadata text of the chapters, the
    ";FFMETADATA1" marker line followed by one [CHAPTER] block per chapter with
    the same boundaries as the CHAP frames. */
module FFmpeg {
  import opened Common
  import opened Decimal
  import opened Sequences
  import opened TimeCode
  import opened Chapters

  /** The first line of every FFmpeg metadata file. */
  function Marker(): string {
    ";FFMETADATA1\n"
  }

  /** One chapter block: an empty line, the section header, the time base in
      milliseconds, the start and end, and the title as given. */
  function ChapterBlock(iv: Interval): string
  {
    "\n[CHAPTER]\nTIMEBASE=1/1000\nSTART=" + Itoa(iv.startMillis) + "\nEND=" + Itoa(iv.endMillis)
    + "\ntitle=" + iv.title + "\n"
  }

  /** The blocks of the intervals, in order. */
  function Blocks(ivs: seq<Interval>): string
  {
    if ivs == [] then "" else Blocks(ivs[..|ivs| - 1]) + ChapterBlock(ivs[|ivs| - 1])
  }

  /** What GetFFmpegChaptersTXT returns: no text and no error for an empty
      list, the error of the interval builder, or the marker and the blocks. */
  function ChaptersText(duration: int64, chapters: seq<Chapter>): Result<Option<string>, Error>
  {
    if |chapters| == 0 then Ok(None)
    else
      match BuildIntervals(chapters, duration)
      case Err(e) => Err(e)
      case Ok(ivs) => Ok(Some(Marker() + Blocks(ivs)))
  }

  /** GetFFmpegChaptersTXT: the parse loop over the starts, then the loop that
      appends one formatted block per chapter. */
  method GetFFmpegChaptersTXT(duration: int64, chapters: seq<Chapter>) returns (output: Option<string>, err: Option<Error>)
    ensures ChaptersText(duration, chapters).Ok? ==> output == ChaptersText(duration, chapters).value && err == None
    ensures ChaptersText(duration, chapters).Err? ==> output == None && err == Some(ChaptersText(duration, chapters).error)
  {
    var text := Marker();
    if |chapters| == 0 {
      return None, None;
    }
    if duration == 0 {
      return None, Some(ZeroDuration);
    }
    var millis := DurationMillis(duration);
    var starts := new uint32[|chapters|];
    TextOfParse(chapters, duration);
    var parseErr := ParseStartTimes(chapters, starts);
    if parseErr != None {
      return None, parseErr;
    }
    var parsed := starts[..];
    var blocks := AppendBlocks(chapters, parsed, millis);
    text := text + blocks;
    return Some(text), None;
  }

  /** With chapters and a non-zero duration, the outcome is decided by the parse of the starts. */
  lemma TextOfParse(chapters: seq<Chapter>, duration: int64)
    requires |chapters| > 0 && duration != 0
    ensures ParseStarts(chapters).Err? ==> ChaptersText(duration, chapters) == Err(ParseStarts(chapters).error)
    ensures ParseStarts(chapters).Ok? ==>
      ChaptersText(duration, chapters) == Ok(Some(Marker() + Blocks(IntervalsFrom(chapters, ParseStarts(chapters).value, DurationMillis(duration)))))
  {
  }

  /** The block loop of GetFFmpegChaptersTXT: one formatted block per chapter, in order. */
  method AppendBlocks(chapters: seq<Chapter>, starts: seq<uint32>, millis: uint32) returns (blocks: string)
    requires |starts| == |chapters|
    ensures blocks == Blocks(IntervalsFrom(chapters, starts, millis))
  {
    ghost var ivs := IntervalsFrom(chapters, starts, millis);
    blocks := "";
    for i := 0 to |chapters|
      invariant blocks == Blocks(ivs[..i])
    {
      var start := starts[i];
      var end: uint32;
      if i < |chapters| - 1 {
        end := starts[i + 1];
      } else {
        end := millis;
      }
      assert ivs[i] == Interval(Itoa(i + 1), start, end, chapters[i].title);
      var block := "\n[CHAPTER]\nTIMEBASE=1/1000\nSTART=" + Itoa(start) + "\nEND=" + Itoa(end)
                   + "\ntitle=" + chapters[i].title + "\n";
      assert block == ChapterBlock(ivs[i]);
      BlocksOfPrefix(ivs, i);
      blocks := blocks + block;
    }
    assert ivs[..|chapters|] == ivs;
  }

  /** One turn of the block loop extends the text by chapter i's block. */
  lemma BlocksOfPrefix(ivs: seq<Interval>, i: nat)
    requires i < |ivs|
    ensures Blocks(ivs[..i + 1]) == Blocks(ivs[..i]) + ChapterBlock(ivs[i])
  {
    assert ivs[..i + 1][..i] == ivs[..i];
  }

  /** The guards, shared with AddCHAPAndCTOC: no text for an empty list even at
      zero duration, ErrZeroDuration otherwise at zero duration, and text
      exactly when every start parses. */
  lemma ChaptersTextGuards(duration: int64, chapters: seq<Chapter>)
    ensures |chapters| == 0 ==> ChaptersText(duration, chapters) == Ok(None)
    ensures |chapters| > 0 && duration == 0 ==> ChaptersText(duration, chapters) == Err(ZeroDuration)
    ensures |chapters| > 0 && duration != 0 ==>
      (ChaptersText(duration, chapters).Ok?
       <==> forall i :: 0 <= i < |chapters| ==> StringTimeToMillis(chapters[i].start).Ok?)
    ensures ChaptersText(duration, chapters).Ok? && |chapters| > 0 ==> ChaptersText(duration, chapters).value.Some?
    ensures |chapters| > 0 && duration != 0 && ChaptersText(duration, chapters).Err? ==>
      ChaptersText(duration, chapters).error == BadChapterStartTime
  {
    BuildIntervalsOutcome(chapters, duration);
  }

  /** The lines of one block, without their terminating newlines. */
  function BlockLines(iv: Interval): (lines: seq<string>)
    ensures |lines| == 6
  {
    ["", "[CHAPTER]", "TIMEBASE=1/1000", "START=" + Itoa(iv.startMillis), "END=" + Itoa(iv.endMillis), "title=" + iv.title]
  }

  function AllBlockLines(ivs: seq<Interval>): (lines: seq<string>)
    ensures |lines| == 6 * |ivs|
  {
    if ivs == [] then [] else AllBlockLines(ivs[..|ivs| - 1]) + BlockLines(ivs[|ivs| - 1])
  }

  /** Six terminated lines, written out right-nested. */
  lemma TerminatedSix<T>(l: seq<seq<T>>, sep: T)
    requires |l| == 6
    ensures Terminated(l, sep)
      == l[0] + [sep] + (l[1] + [sep] + (l[2] + [sep] + (l[3] + [sep] + (l[4] + [sep] + (l[5] + [sep] + [])))))
  {
    assert Terminated(l[6..], sep) == [] by { assert l[6..] == []; }
    TerminatedUnfold(l, 5, sep);
    TerminatedUnfold(l, 4, sep);
    TerminatedUnfold(l, 3, sep);
    TerminatedUnfold(l, 2, sep);
    TerminatedUnfold(l, 1, sep);
    TerminatedUnfold(l, 0, sep);
    assert l[0..] == l;
  }

  lemma HeadLines(rest: string)
    ensures "" + "\n" + ("[CHAPTER]" + "\n" + ("TIMEBASE=1/1000" + "\n" + rest))
      == "\n[CHAPTER]\nTIMEBASE=1/1000\n" + rest
  {
    ConcatAssoc("[CHAPTER]" + "\n", "TIMEBASE=1/1000" + "\n", rest);
    ConcatAssoc("" + "\n", "[CHAPTER]" + "\n" + ("TIMEBASE=1/1000" + "\n"), rest);
    assert "" + "\n" + ("[CHAPTER]" + "\n" + ("TIMEBASE=1/1000" + "\n")) == "\n[CHAPTER]\nTIMEBASE=1/1000\n";
  }

  lemma FieldLines(x: string, s: string, e: string, t: string)
    ensures x + "START=" + s + "\nEND=" + e + "\ntitle=" + t + "\n"
      == x + ("START=" + s + "\n" + ("END=" + e + "\n" + ("title=" + t + "\n" + [])))
  {
    var n := "\n";
    var t5 := "title=" + t + n + [];
    var t4 := "END=" + e + n + t5;
    assert x + "START=" + s + "\nEND=" + e + "\ntitle=" + t + "\n" == x + "START=" + s + "\nEND=" + e + n + t5 by {
      assert "\ntitle=" == n + "title=";
      Regroup(x + "START=" + s + "\nEND=" + e, n, "title=", t, n + []);
    }
    assert x + "START=" + s + "\nEND=" + e + n + t5 == x + "START=" + s + n + t4 by {
      assert "\nEND=" == n + "END=";
      Regroup(x + "START=" + s, n, "END=", e, n + t5);
    }
    Regroup(x, [], "START=", s, n + t4);
  }

  /** The formatted block text is its six lines, each ended by a newline. */
  lemma BlockText(s: string, e: string, t: string)
    ensures "\n[CHAPTER]\nTIMEBASE=1/1000\nSTART=" + s + "\nEND=" + e + "\ntitle=" + t + "\n"
      == Terminated(["", "[CHAPTER]", "TIMEBASE=1/1000", "START=" + s, "END=" + e, "title=" + t], '\n')
  {
    var l := ["", "[CHAPTER]", "TIMEBASE=1/1000", "START=" + s, "END=" + e, "title=" + t];
    var x := "\n[CHAPTER]\nTIMEBASE=1/1000\n";
    var t3 := "START=" + s + "\n" + ("END=" + e + "\n" + ("title=" + t + "\n" + []));
    TerminatedSix(l, '\n');
    HeadLines(t3);
    FieldLines(x, s, e, t);
    assert "\n[CHAPTER]\nTIMEBASE=1/1000\nSTART=" == x + "START=";
  }

  /** A block is its six lines, each ended by a newline. */
  lemma BlockIsLines(iv: Interval)
    ensures ChapterBlock(iv) == Terminated(BlockLines(iv), '\n')
  {
    BlockText(Itoa(iv.startMillis), Itoa(iv.endMillis), iv.title);
  }

  lemma {:induction false} BlocksAreLines(ivs: seq<Interval>)
    ensures Blocks(ivs) == Terminated(AllBlockLines(ivs), '\n')
  {
    if ivs != [] {
      var p := ivs[..|ivs| - 1];
      BlocksAreLines(p);
      BlockIsLines(ivs[|ivs| - 1]);
      TerminatedAppend(AllBlockLines(p), BlockLines(ivs[|ivs| - 1]), '\n');
    }
  }

  /** Block i occupies lines 6i .. 6i + 5 of the chapter lines. */
  lemma {:induction false} AllBlockLinesAt(ivs: seq<Interval>, i: nat)
    requires i < |ivs|
    ensures AllBlockLines(ivs)[6 * i..6 * i + 6] == BlockLines(ivs[i])
  {
    var p := ivs[..|ivs| - 1];
    if i < |ivs| - 1 {
      AllBlockLinesAt(p, i);
      assert AllBlockLines(ivs)[..6 * |p|] == AllBlockLines(p);
    } else {
      assert AllBlockLines(ivs)[6 * i..] == BlockLines(ivs[i]);
    }
  }

  /** Splitting the text at its newlines gives the marker line and then six
      lines per chapter, provided no title holds a newline of its own. */
  lemma ChaptersTextLines(duration: int64, chapters: seq<Chapter>)
    requires ChaptersText(duration, chapters).Ok? && |chapters| > 0
    requires forall i :: 0 <= i < |chapters| ==> '\n' !in chapters[i].title
    ensures BuildIntervals(chapters, duration).Ok?
    ensures var ivs := BuildIntervals(chapters, duration).value;
      SplitTerminated(ChaptersText(duration, chapters).value.value, '\n') == [";FFMETADATA1"] + AllBlockLines(ivs)
  {
    var ivs := BuildIntervals(chapters, duration).value;
    assert ChaptersText(duration, chapters).value.value == Marker() + Blocks(ivs);
    forall i | 0 <= i < |ivs|
      ensures '\n' !in ivs[i].title
    {
      IntervalNames(chapters, duration, i);
    }
    MarkedBlockLines(ivs);
  }

  /** The marker and the blocks split into the marker line and six lines per block. */
  lemma MarkedBlockLines(ivs: seq<Interval>)
    requires forall i :: 0 <= i < |ivs| ==> '\n' !in ivs[i].title
    ensures SplitTerminated(Marker() + Blocks(ivs), '\n') == [";FFMETADATA1"] + AllBlockLines(ivs)
  {
    var lines := [";FFMETADATA1"] + AllBlockLines(ivs);
    MarkedText(ivs);
    MarkedLinesFree(ivs);
    SplitTerminatedInverse(lines, '\n');
  }

  lemma MarkedText(ivs: seq<Interval>)
    ensures Marker() + Blocks(ivs) == Terminated([";FFMETADATA1"] + AllBlockLines(ivs), '\n')
  {
    BlocksAreLines(ivs);
    assert Marker() == Terminated([";FFMETADATA1"], '\n');
    TerminatedAppend([";FFMETADATA1"], AllBlockLines(ivs), '\n');
  }

  lemma MarkedLinesFree(ivs: seq<Interval>)
    requires forall i :: 0 <= i < |ivs| ==> '\n' !in ivs[i].title
    ensures var lines := [";FFMETADATA1"] + AllBlockLines(ivs);
      forall j :: 0 <= j < |lines| ==> '\n' !in lines[j]
  {
    var lines := [";FFMETADATA1"] + AllBlockLines(ivs);
    NoNewlineInLines(ivs);
    forall j | 0 <= j < |lines|
      ensures '\n' !in lines[j]
    {
      if j > 0 {
        assert lines[j] == AllBlockLines(ivs)[j - 1];
      } else {
        var head := ";FFMETADATA1";
        assert lines[0] == head;
        assert forall k :: 0 <= k < |head| ==> head[k] != '\n';
      }
    }
  }

  /** No line of the blocks holds a newline when no title does. */
  lemma {:induction false} NoNewlineInLines(ivs: seq<Interval>)
    requires forall i :: 0 <= i < |ivs| ==> '\n' !in ivs[i].title
    ensures forall j :: 0 <= j < |AllBlockLines(ivs)| ==> '\n' !in AllBlockLines(ivs)[j]
  {
    if ivs != [] {
      var p, last := ivs[..|ivs| - 1], ivs[|ivs| - 1];
      assert forall i :: 0 <= i < |p| ==> p[i] == ivs[i];
      NoNewlineInLines(p);
      NoNewlineInBlock(last);
      assert AllBlockLines(ivs) == AllBlockLines(p) + BlockLines(last);
    }
  }

  lemma NoNewlineInBlock(iv: Interval)
    requires '\n' !in iv.title
    ensures forall k :: 0 <= k < 6 ==> '\n' !in BlockLines(iv)[k]
  {
    var s, e := Itoa(iv.startMillis), Itoa(iv.endMillis);
    assert forall k :: 0 <= k < |s| ==> IsDigit(s[k]);
    assert forall k :: 0 <= k < |e| ==> IsDigit(e[k]);
  }

  /** Block i of the text carries chapter i's parsed start, and the next
      chapter's start (or the duration in milliseconds) as its end. */
  lemma BlockTimes(duration: int64, chapters: seq<Chapter>, i: nat)
    requires ChaptersText(duration, chapters).Ok? && i < |chapters|
    ensures BuildIntervals(chapters, duration).Ok?
    ensures var lines := BlockLines(BuildIntervals(chapters, duration).value[i]);
      (exists s :: StringTimeToMillis(chapters[i].start) == Ok(s) && lines[3] == "START=" + Itoa(s))
      && (i + 1 == |chapters| ==> lines[4] == "END=" + Itoa(DurationMillis(duration)))
      && (i + 1 < |chapters| ==> exists e :: StringTimeToMillis(chapters[i + 1].start) == Ok(e) && lines[4] == "END=" + Itoa(e))
      && lines[5] == "title=" + chapters[i].title
  {
    var ivs := BuildIntervals(chapters, duration).value;
    IntervalBounds(chapters, duration, i);
    IntervalNames(chapters, duration, i);
    if i + 1 < |chapters| {
      IntervalBounds(chapters, duration, i + 1);
    }
  }

  /** The text for the package's test chapters and a 30 s duration: the
      marker line and three blocks, each with its boundaries written out. */
  lemma TestScenarioText()
    ensures ChaptersText(30_000_000_000, TestChapters()) == Ok(Some(
      ";FFMETADATA1\n"
      + ("\n[CHAPTER]\nTIMEBASE=1/1000\nSTART=" + "0" + "\nEND=" + "10000" + "\ntitle=" + "Chapter 1" + "\n")
      + ("\n[CHAPTER]\nTIMEBASE=1/1000\nSTART=" + "10000" + "\nEND=" + "20500" + "\ntitle=" + "Chapter 2" + "\n")
      + ("\n[CHAPTER]\nTIMEBASE=1/1000\nSTART=" + "20500" + "\nEND=" + "30000" + "\ntitle=" + "Chapter 3" + "\n")))
  {
    var a, b, c := Interval("1", 0, 10_000, "Chapter 1"), Interval("2", 10_000, 20_500, "Chapter 2"),
                   Interval("3", 20_500, 30_000, "Chapter 3");
    TestScenarioBlocks();
    ThreeBlocks(a, b, c);
    TestBoundaries();
    JoinText(Marker(), ChapterBlock(a), ChapterBlock(b), ChapterBlock(c));
  }

  lemma TestScenarioBlocks()
    ensures ChaptersText(30_000_000_000, TestChapters()) == Ok(Some(Marker() + Blocks(
      [Interval("1", 0, 10_000, "Chapter 1"), Interval("2", 10_000, 20_500, "Chapter 2"), Interval("3", 20_500, 30_000, "Chapter 3")])))
  {
    TestScenarioIntervals();
  }

  lemma JoinText(m: string, x: string, y: string, z: string)
    ensures m + (x + y + z) == m + x + y + z
  {
  }

  lemma ThreeBlocks(a: Interval, b: Interval, c: Interval)
    ensures Blocks([a, b, c]) == ChapterBlock(a) + ChapterBlock(b) + ChapterBlock(c)
  {
    assert [a, b, c][..2] == [a, b] && [a, b, c][2] == c;
    assert [a, b][..1] == [a] && [a, b][1] == b;
    assert [a][..0] == [] && [a][0] == a;
    assert Blocks([a]) == "" + ChapterBlock(a) == ChapterBlock(a);
  }

  /** The decimal text of the test's chapter boundaries, digit by digit. */
  lemma TestBoundaries()
    ensures Itoa(10_000) == "10000" && Itoa(20_500) == "20500" && Itoa(30_000) == "30000"
  {
    FiveDigitItoa(10_000, "10000");
    FiveDigitItoa(20_500, "20500");
    FiveDigitItoa(30_000, "30000");
  }

  /** A five-digit number is written as its five digits, most significant first. */
  lemma FiveDigitItoa(n: nat, t: string)
    requires 10_000 <= n < 100_000 && |t| == 5
    requires t[0] as int == '0' as int + n / 10_000 && t[1] as int == '0' as int + n / 1000 % 10
    requires t[2] as int == '0' as int + n / 100 % 10 && t[3] as int == '0' as int + n / 10 % 10
    requires t[4] as int == '0' as int + n % 10
    ensures Itoa(n) == t
  {
    var a, b, c, d := n / 10, n / 100, n / 1000, n / 10_000;
    assert a / 10 == b && b / 10 == c && c / 10 == d && d / 10 == 0 && d % 10 == d;
    FiveDigitsWide(n);
    DigitStep(d, 1, "", t[0]);
    DigitStep(c, 2, t[..1], t[1]);
    DigitStep(b, 3, t[..2], t[2]);
    DigitStep(a, 4, t[..3], t[3]);
    DigitStep(n, 5, t[..4], t[4]);
    assert t[..1] + [t[1]] == t[..2] && t[..2] + [t[2]] == t[..3] && t[..3] + [t[3]] == t[..4] && t[..4] + [t[4]] == t;
  }

  lemma FiveDigitsWide(n: nat)
    requires 10_000 <= n < 100_000
    ensures NumDigits(n) == 5
  {
    var a, b, c := n / 10, n / 100, n / 1000;
    assert a / 10 == b && b / 10 == c && 1 <= c / 10 < 10;
    assert NumDigits(c) == 2;
    assert NumDigits(b) == 3;
    assert NumDigits(a) == 4;
  }

  /** One more digit on the right: the last digit of n after the digits of n / 10. */
  lemma DigitStep(n: nat, width: nat, high: string, c: char)
    requires width > 0 && DigitsOf(n / 10, width - 1) == high
    requires c as int == '0' as int + n % 10
    ensures DigitsOf(n, width) == high + [c]
  {
  }
}
