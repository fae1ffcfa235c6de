/** AddCHAPAndCTOC: one CHAP frame per chapter, in order, then one CTOC frame
    listing them, added to an ID3v2 tag; nothing is added unless every start
    parses. */
module Tagging {
  import opened Common
  import opened Decimal
  import opened Sequences
  import opened Binary
  import opened TimeCode
  import opened Chapters
  import opened Id3Frames

  /** A frame as handed to the tag: its four-letter ID and its raw body. */
  datatype Frame = Frame(id: string, body: seq<byte>)

  /** The part of an id3v2.Tag this package drives: the frames added, in order. */
  class Tag {
    var frames: seq<Frame>

    constructor()
      ensures frames == []
    {
      frames := [];
    }

    method AddFrame(id: string, body: seq<byte>)
      modifies this
      ensures frames == old(frames) + [Frame(id, body)]
    {
      frames := frames + [Frame(id, body)];
    }
  }

  /** The CHAP frame of one interval. */
  function ChapFrame(iv: Interval): Frame
  {
    Frame("CHAP", ChapBody(AsciiBytes(iv.elementId), iv.startMillis, iv.endMillis, iv.title))
  }

  /** The CHAP frames of the intervals, in order. */
  function ChapFrames(ivs: seq<Interval>): (fs: seq<Frame>)
    ensures |fs| == |ivs|
  {
    if ivs == [] then [] else ChapFrames(ivs[..|ivs| - 1]) + [ChapFrame(ivs[|ivs| - 1])]
  }

  /** The bytes of each element ID, in order. */
  function IdBytes(ids: seq<string>): (r: seq<seq<byte>>)
    ensures |r| == |ids|
  {
    seq(|ids|, i requires 0 <= i < |ids| => AsciiBytes(ids[i]))
  }

  function ElementIds(ivs: seq<Interval>): (r: seq<string>)
    ensures |r| == |ivs|
  {
    seq(|ivs|, i requires 0 <= i < |ivs| => ivs[i].elementId)
  }

  /** The frames AddCHAPAndCTOC adds, or the error it returns. */
  function ChapterFrames(chapters: seq<Chapter>, duration: int64): Result<seq<Frame>, Error>
  {
    match BuildIntervals(chapters, duration)
    case Err(e) => Err(e)
    case Ok(ivs) =>
      if ivs == [] then Ok([])
      else Ok(ChapFrames(ivs) + [Frame("CTOC", CtocBody(IdBytes(ElementIds(ivs))))])
  }

  /** AddCHAPAndCTOC: either every frame is added and no error is returned, or
      the error is returned and the tag is as it was. */
  method AddCHAPAndCTOC(duration: int64, tag: Tag, chapters: seq<Chapter>) returns (err: Option<Error>)
    modifies tag
    ensures ChapterFrames(chapters, duration).Ok? ==>
      err == None && tag.frames == old(tag.frames) + ChapterFrames(chapters, duration).value
    ensures ChapterFrames(chapters, duration).Err? ==>
      err == Some(ChapterFrames(chapters, duration).error) && tag.frames == old(tag.frames)
  {
    if |chapters| == 0 {
      return None;
    }
    if duration == 0 {
      return Some(ZeroDuration);
    }
    var millis := DurationMillis(duration);
    var starts := new uint32[|chapters|];
    var chapterIDs: seq<string> := [];

    FramesOfParse(chapters, duration);
    var parseErr := ParseStartTimes(chapters, starts);
    if parseErr != None {
      return parseErr;
    }
    var parsed := starts[..];
    ghost var ivs := IntervalsFrom(chapters, parsed, millis);
    ghost var before := tag.frames;
    chapterIDs := AddChapFrames(tag, chapters, parsed, millis);
    IdsAreDigits(chapters, parsed, millis);
    var ctocBody := CtocBodyOf(chapterIDs);
    tag.AddFrame("CTOC", ctocBody);
    assert tag.frames == before + (ChapFrames(ivs) + [Frame("CTOC", CtocBody(IdBytes(ElementIds(ivs))))]);
    return None;
  }

  /** With chapters and a non-zero duration, the outcome is decided by the parse of the starts. */
  lemma FramesOfParse(chapters: seq<Chapter>, duration: int64)
    requires |chapters| > 0 && duration != 0
    ensures ParseStarts(chapters).Err? ==> ChapterFrames(chapters, duration) == Err(ParseStarts(chapters).error)
    ensures ParseStarts(chapters).Ok? ==>
      var ivs := IntervalsFrom(chapters, ParseStarts(chapters).value, DurationMillis(duration));
      ChapterFrames(chapters, duration) == Ok(ChapFrames(ivs) + [Frame("CTOC", CtocBody(IdBytes(ElementIds(ivs))))])
  {
  }

  /** Every element ID is a digit string. */
  lemma IdsAreDigits(chapters: seq<Chapter>, starts: seq<uint32>, millis: uint32)
    requires |starts| == |chapters|
    ensures var ids := ElementIds(IntervalsFrom(chapters, starts, millis));
      forall k :: 0 <= k < |ids| ==> AllDigits(ids[k])
  {
    var ivs := IntervalsFrom(chapters, starts, millis);
    forall k | 0 <= k < |ivs|
      ensures AllDigits(ElementIds(ivs)[k])
    {
      assert ElementIds(ivs)[k] == IntervalAt(chapters, starts, millis, k).elementId == Itoa(k + 1);
    }
  }

  /** The CHAP encoding loop: chapter i's frame, ending where chapter i + 1
      starts or at millis, is added in order, and the IDs are collected. */
  method AddChapFrames(tag: Tag, chapters: seq<Chapter>, starts: seq<uint32>, millis: uint32)
    returns (chapterIDs: seq<string>)
    requires |starts| == |chapters|
    modifies tag
    ensures tag.frames == old(tag.frames) + ChapFrames(IntervalsFrom(chapters, starts, millis))
    ensures chapterIDs == ElementIds(IntervalsFrom(chapters, starts, millis))
  {
    ghost var ivs := IntervalsFrom(chapters, starts, millis);
    ghost var base := tag.frames;
    chapterIDs := [];
    assert ChapFrames(ivs[..0]) == [] && ElementIds(ivs[..0]) == [];
    for i := 0 to |chapters|
      invariant tag.frames == base + ChapFrames(ivs[..i])
      invariant chapterIDs == ElementIds(ivs[..i])
    {
      var start := starts[i];
      var end: uint32;
      if i < |chapters| - 1 {
        end := starts[i + 1];
      } else {
        end := millis;
      }
      var chapterID := Itoa(i + 1);
      assert ivs[i] == Interval(chapterID, start, end, chapters[i].title);
      var body := ChapBodyOf(chapterID, start, end, chapters[i].title);
      assert ChapFrame(ivs[i]) == Frame("CHAP", body);
      ghost var before := tag.frames;
      tag.AddFrame("CHAP", body);
      FramesOfPrefix(base, before, tag.frames, ivs, i);
      chapterIDs := chapterIDs + [chapterID];
    }
    assert ivs[..|chapters|] == ivs;
  }

  /** One turn of the CHAP loop extends the frames and the IDs by chapter i's. */
  lemma FramesOfPrefix(base: seq<Frame>, before: seq<Frame>, after: seq<Frame>, ivs: seq<Interval>, i: nat)
    requires i < |ivs|
    requires before == base + ChapFrames(ivs[..i]) && after == before + [ChapFrame(ivs[i])]
    ensures after == base + ChapFrames(ivs[..i + 1])
    ensures ElementIds(ivs[..i + 1]) == ElementIds(ivs[..i]) + [ivs[i].elementId]
  {
    assert ivs[..i + 1][..i] == ivs[..i];
  }

  /** The body-building steps of the CHAP loop. */
  method ChapBodyOf(chapterID: string, start: uint32, end: uint32, title: string) returns (body: seq<byte>)
    requires AllDigits(chapterID)
    ensures body == ChapBody(AsciiBytes(chapterID), start, end, title)
  {
    DigitBytes(chapterID);
    body := [];
    body := body + Utf8(chapterID);
    body := body + [0x00];
    body := body + BE32(start);
    body := body + BE32(end);
    body := body + [0xFF, 0xFF, 0xFF, 0xFF]; // start offset
    body := body + [0xFF, 0xFF, 0xFF, 0xFF]; // end offset

    var titleFrame := TextFrame(title);
    var titleHeader: seq<byte> := [0x54, 0x49, 0x54, 0x32];
    titleHeader := titleHeader + BE32(ToUint32(|titleFrame|));
    titleHeader := titleHeader + [0x00, 0x00];
    body := body + titleHeader;
    body := body + titleFrame;
  }

  /** The CTOC-building steps: header, count byte, then each ID NUL-terminated. */
  method CtocBodyOf(chapterIDs: seq<string>) returns (ctocBody: seq<byte>)
    requires forall k :: 0 <= k < |chapterIDs| ==> AllDigits(chapterIDs[k])
    ensures ctocBody == CtocBody(IdBytes(chapterIDs))
  {
    ctocBody := [0x74, 0x6F, 0x63, 0x00];
    ctocBody := ctocBody + [0x01, 0x00];
    ctocBody := ctocBody + [|chapterIDs| % 0x100];
    for k := 0 to |chapterIDs|
      invariant ctocBody == TocId() + [0x01, 0x00] + [|chapterIDs| % 0x100] + Terminated(IdBytes(chapterIDs[..k]), 0)
    {
      TerminatedAppend(IdBytes(chapterIDs[..k]), [AsciiBytes(chapterIDs[k])], 0);
      assert IdBytes(chapterIDs[..k + 1]) == IdBytes(chapterIDs[..k]) + [AsciiBytes(chapterIDs[k])];
      DigitBytes(chapterIDs[k]);
      ctocBody := ctocBody + Utf8(chapterIDs[k]);
      ctocBody := ctocBody + [0x00];
    }
    assert chapterIDs[..|chapterIDs|] == chapterIDs;
  }

  /** The guards: an empty list adds nothing whatever the duration; a zero
      duration is refused; otherwise the frames exist exactly when every start parses. */
  lemma ChapterFramesGuards(chapters: seq<Chapter>, duration: int64)
    ensures |chapters| == 0 ==> ChapterFrames(chapters, duration) == Ok([])
    ensures |chapters| > 0 && duration == 0 ==> ChapterFrames(chapters, duration) == Err(ZeroDuration)
    ensures |chapters| > 0 && duration != 0 ==>
      (ChapterFrames(chapters, duration).Ok?
       <==> forall i :: 0 <= i < |chapters| ==> StringTimeToMillis(chapters[i].start).Ok?)
    ensures |chapters| > 0 && duration != 0 && ChapterFrames(chapters, duration).Err? ==>
      ChapterFrames(chapters, duration).error == BadChapterStartTime
  {
    BuildIntervalsOutcome(chapters, duration);
  }

  lemma {:induction false} ChapFramesAt(ivs: seq<Interval>, i: nat)
    requires i < |ivs|
    ensures ChapFrames(ivs)[i] == ChapFrame(ivs[i])
  {
    if i < |ivs| - 1 {
      ChapFramesAt(ivs[..|ivs| - 1], i);
    }
  }

  /** N CHAP frames then one CTOC: frame i < N is a CHAP frame. */
  lemma FrameOrder(chapters: seq<Chapter>, duration: int64)
    requires ChapterFrames(chapters, duration).Ok? && |chapters| > 0
    ensures var fs := ChapterFrames(chapters, duration).value;
      |fs| == |chapters| + 1 && fs[|chapters|].id == "CTOC"
      && forall i :: 0 <= i < |chapters| ==> fs[i].id == "CHAP"
  {
    var ivs := BuildIntervals(chapters, duration).value;
    forall i | 0 <= i < |chapters|
      ensures ChapFrames(ivs)[i].id == "CHAP"
    {
      ChapFramesAt(ivs, i);
    }
  }

  /** A successful call adds the CHAP frames of the intervals, then the CTOC frame of their IDs. */
  lemma FramesOfIntervals(chapters: seq<Chapter>, duration: int64)
    requires ChapterFrames(chapters, duration).Ok? && |chapters| > 0
    ensures BuildIntervals(chapters, duration).Ok?
    ensures var ivs := BuildIntervals(chapters, duration).value;
      |ivs| == |chapters|
      && ChapterFrames(chapters, duration).value == ChapFrames(ivs) + [Frame("CTOC", CtocBody(IdBytes(ElementIds(ivs))))]
  {
  }

  /** Frame i is the CHAP frame of chapter i's interval, which is named Itoa(i + 1). */
  lemma ChapterFrameIs(chapters: seq<Chapter>, duration: int64, i: nat)
    requires ChapterFrames(chapters, duration).Ok? && i < |chapters|
    ensures BuildIntervals(chapters, duration).Ok?
    ensures var fs := ChapterFrames(chapters, duration).value;
      var ivs := BuildIntervals(chapters, duration).value;
      |fs| == |chapters| + 1 && |ivs| == |chapters|
      && fs[i] == ChapFrame(ivs[i]) && ivs[i].elementId == Itoa(i + 1) && ivs[i].title == chapters[i].title
  {
    FramesOfIntervals(chapters, duration);
    var ivs := BuildIntervals(chapters, duration).value;
    ChapFramesAt(ivs, i);
    IntervalNames(chapters, duration, i);
  }

  /** Frame i reads back as chapter i's interval: ID Itoa(i + 1), its start
      and end, unused offsets, and a TIT2 sub-frame holding its title frame. */
  lemma ChapFrameReadBack(chapters: seq<Chapter>, duration: int64, i: nat)
    requires ChapterFrames(chapters, duration).Ok? && i < |chapters|
    ensures BuildIntervals(chapters, duration).Ok?
    ensures var fs := ChapterFrames(chapters, duration).value;
      var iv := BuildIntervals(chapters, duration).value[i];
      |fs| == |chapters| + 1
      && ParseChapBody(fs[i].body)
         == Some(ChapFields(AsciiBytes(Itoa(i + 1)), iv.startMillis, iv.endMillis, 0xFFFF_FFFF, 0xFFFF_FFFF,
                            Tit2Id(), ToUint32(3 + 2 * |chapters[i].title|), [0x00, 0x00], EncodedTitle(chapters[i].title)))
  {
    ChapterFrameIs(chapters, duration, i);
    var fs := ChapterFrames(chapters, duration).value;
    var iv := BuildIntervals(chapters, duration).value[i];
    NamedChapFrame(fs[i], iv, i + 1, chapters[i].title);
  }

  /** The CHAP frame of an interval named Itoa(n) reads back with that name. */
  lemma NamedChapFrame(f: Frame, iv: Interval, n: nat, title: string)
    requires f == ChapFrame(iv) && iv.elementId == Itoa(n) && iv.title == title
    ensures ParseChapBody(f.body)
      == Some(ChapFields(AsciiBytes(Itoa(n)), iv.startMillis, iv.endMillis, 0xFFFF_FFFF, 0xFFFF_FFFF,
                         Tit2Id(), ToUint32(3 + 2 * |title|), [0x00, 0x00], EncodedTitle(title)))
  {
    var id := AsciiBytes(Itoa(n));
    ItoaBytes(n);
    assert f.body == ChapBody(id, iv.startMillis, iv.endMillis, title);
    ChapBodyRoundTrip(id, iv.startMillis, iv.endMillis, title);
  }

  /** The times frame i carries: chapter i's parsed start, and the next
      chapter's parsed start (or the duration in milliseconds for the last) as its end. */
  lemma ChapFrameTimes(chapters: seq<Chapter>, duration: int64, i: nat)
    requires ChapterFrames(chapters, duration).Ok? && i < |chapters|
    ensures var fs := ChapterFrames(chapters, duration).value;
      |fs| == |chapters| + 1 && ParseChapBody(fs[i].body).Some?
    ensures var f := ParseChapBody(ChapterFrames(chapters, duration).value[i].body).value;
      StringTimeToMillis(chapters[i].start) == Ok(f.startMillis)
      && (i + 1 < |chapters| ==> StringTimeToMillis(chapters[i + 1].start) == Ok(f.endMillis))
      && (i + 1 == |chapters| ==> f.endMillis == DurationMillis(duration))
  {
    ChapFrameReadBack(chapters, duration, i);
    IntervalBounds(chapters, duration, i);
    if i + 1 < |chapters| {
      IntervalBounds(chapters, duration, i + 1);
    }
  }

  /** The CTOC frame reads back as "toc", flags 01 00, N modulo 256, and the
      child IDs "1" .. "N" in order. */
  lemma CtocFrameReadBack(chapters: seq<Chapter>, duration: int64)
    requires ChapterFrames(chapters, duration).Ok? && |chapters| > 0
    ensures var fs := ChapterFrames(chapters, duration).value;
      |fs| == |chapters| + 1
      && ParseCtocBody(fs[|chapters|].body)
         == Some(CtocFields([0x74, 0x6F, 0x63], [0x01, 0x00], |chapters| % 0x100, ChildIds(|chapters|)))
  {
    FramesOfIntervals(chapters, duration);
    var ivs := BuildIntervals(chapters, duration).value;
    forall k | 0 <= k < |ivs|
      ensures ivs[k].elementId == Itoa(k + 1)
    {
      IntervalNames(chapters, duration, k);
    }
    NumberedCtoc(ivs);
    assert ChapterFrames(chapters, duration).value[|chapters|] == Frame("CTOC", CtocBody(IdBytes(ElementIds(ivs))));
  }

  /** The CTOC body of intervals named "1" .. "N" reads back with those children. */
  lemma NumberedCtoc(ivs: seq<Interval>)
    requires forall k :: 0 <= k < |ivs| ==> ivs[k].elementId == Itoa(k + 1)
    ensures ParseCtocBody(CtocBody(IdBytes(ElementIds(ivs))))
      == Some(CtocFields([0x74, 0x6F, 0x63], [0x01, 0x00], |ivs| % 0x100, ChildIds(|ivs|)))
  {
    var ids := IdBytes(ElementIds(ivs));
    forall k | 0 <= k < |ivs|
      ensures ids[k] == AsciiBytes(Itoa(k + 1)) && 0 !in ids[k]
    {
      assert ElementIds(ivs)[k] == Itoa(k + 1);
      ItoaBytes(k + 1);
    }
    assert ids == ChildIds(|ivs|);
    CtocBodyRoundTrip(ids);
  }

  /** The bytes of "1" .. "n". */
  function ChildIds(n: nat): (r: seq<seq<byte>>)
    ensures |r| == n
  {
    seq(n, k requires 0 <= k < n => AsciiBytes(Itoa(k + 1)))
  }
}
