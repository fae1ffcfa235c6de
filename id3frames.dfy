/** The bytes of the frames AddCHAPAndCTOC writes: the UTF-16 title text
    (TextFrame), the CHAP body with its embedded TIT2 sub-frame, and the CTOC
    body. Each writer has a reader here, and the lemmas say what the reader
    gets back. */
module Id3Frames {
  import opened Common
  import opened Sequences
  import opened Binary

  /** One byte per character: the character's low byte, then a zero high byte. */
  function LowBytes(t: string): (b: seq<byte>)
    ensures |b| == 2 * |t|
  {
    if t == [] then [] else LowBytes(t[..|t| - 1]) + [(t[|t| - 1] as int) % 0x100, 0]
  }

  /** What TextFrame returns: the ID3v2.4 text-encoding byte 0x01 ("UTF-16 with
      BOM"), the little-endian byte-order mark FF FE, then LowBytes. Only code
      points up to 0xFF come out as valid UTF-16. */
  function EncodedTitle(t: string): seq<byte>
  {
    [0x01, 0xFF, 0xFE] + LowBytes(t)
  }

  /** The i-th character taken modulo 256, which is all the encoding keeps. */
  function LowByteChars(t: string): (r: string)
    ensures |r| == |t|
  {
    if t == [] then [] else LowByteChars(t[..|t| - 1]) + [((t[|t| - 1] as int) % 0x100) as char]
  }

  lemma {:induction false} LowBytesAt(t: string)
    ensures forall i :: 0 <= i < |t| ==> LowBytes(t)[2 * i] == (t[i] as int) % 0x100 && LowBytes(t)[2 * i + 1] == 0
  {
    if t != [] {
      var p := t[..|t| - 1];
      LowBytesAt(p);
      assert forall i :: 0 <= i < |p| ==> p[i] == t[i];
    }
  }

  /** TextFrame's layout: 3 + 2|t| bytes, the prefix 01 FF FE, and for the
      i-th character its low byte at 3 + 2i and zero at 4 + 2i. */
  lemma EncodedTitleLayout(t: string)
    ensures |EncodedTitle(t)| == 3 + 2 * |t|
    ensures EncodedTitle(t)[..3] == [0x01, 0xFF, 0xFE]
    ensures forall i :: 0 <= i < |t| ==>
      EncodedTitle(t)[3 + 2 * i] == (t[i] as int) % 0x100 && EncodedTitle(t)[4 + 2 * i] == 0
  {
    LowBytesAt(t);
  }

  /** TextFrame: the loop over the title's characters, appending to the frame. */
  method TextFrame(title: string) returns (frame: seq<byte>)
    ensures frame == EncodedTitle(title)
  {
    frame := [0x01];
    frame := frame + [0xFF, 0xFE];
    var i := 0;
    while i < |title|
      invariant i <= |title|
      invariant frame == EncodedTitle(title[..i])
    {
      assert title[..i + 1][..i] == title[..i];
      frame := frame + [(title[i] as int) % 0x100, 0x00];
      i := i + 1;
    }
    assert title[..i] == title;
  }

  /** A UTF-16LE reader for code units outside the surrogate range. */
  function DecodeUtf16LE(b: seq<byte>): Option<string>
    decreases |b|
  {
    if |b| == 0 then Some([])
    else if |b| < 2 then None
    else
      match DecodeUtf16LE(b[..|b| - 2])
      case None => None
      case Some(s) =>
        var u := b[|b| - 2] as int + 0x100 * b[|b| - 1] as int;
        if 0xD800 <= u < 0xE000 then None else Some(s + [u as char])
  }

  /** Reads a text frame written with encoding 0x01 and the little-endian BOM. */
  function DecodeTextFrame(f: seq<byte>): Option<string>
  {
    if |f| < 3 || f[..3] != [0x01, 0xFF, 0xFE] then None else DecodeUtf16LE(f[3..])
  }

  lemma {:induction false} DecodeLowBytes(t: string)
    ensures DecodeUtf16LE(LowBytes(t)) == Some(LowByteChars(t))
  {
    if t != [] {
      var b := LowBytes(t);
      assert b[..|b| - 2] == LowBytes(t[..|t| - 1]);
      DecodeLowBytes(t[..|t| - 1]);
    }
  }

  lemma {:induction false} LowByteCharsAt(t: string)
    ensures forall i :: 0 <= i < |t| ==> LowByteChars(t)[i] as int == (t[i] as int) % 0x100
  {
    if t != [] {
      var p := t[..|t| - 1];
      LowByteCharsAt(p);
      assert forall i :: 0 <= i < |p| ==> p[i] == t[i];
    }
  }

  /** Reading back a title written by TextFrame gives every character modulo 256. */
  lemma TitleReadBack(t: string)
    ensures DecodeTextFrame(EncodedTitle(t)) == Some(LowByteChars(t))
  {
    var f := EncodedTitle(t);
    assert f[..3] == [0x01, 0xFF, 0xFE] && f[3..] == LowBytes(t);
    DecodeLowBytes(t);
  }

  /** The title survives the round trip exactly when every code point is at most 0xFF. */
  lemma TitleRoundTrip(t: string)
    ensures DecodeTextFrame(EncodedTitle(t)) == Some(t) <==> forall i :: 0 <= i < |t| ==> t[i] as int < 0x100
  {
    TitleReadBack(t);
    LowByteCharsAt(t);
    if forall i :: 0 <= i < |t| ==> t[i] as int < 0x100 {
      assert LowByteChars(t) == t;
    }
  }

  /** U+0100 and U+0000 are written as the same bytes. */
  lemma TitleCollision()
    ensures EncodedTitle([0x100 as char]) == EncodedTitle(['\0'])
  {
    assert LowBytes([0x100 as char]) == [0, 0];
    assert LowBytes(['\0']) == [0, 0];
  }

  /** The frame ID "TIT2" in ASCII. */
  function Tit2Id(): seq<byte> {
    [0x54, 0x49, 0x54, 0x32]
  }

  /** The TIT2 sub-frame embedded in a CHAP body: the ID, the title frame's
      length as a plain big-endian uint32 (not the synchsafe integer that
      section 6.2 of the ID3v2.4.0 structure document calls for), two zero
      flag bytes, then the title frame. */
  function TitleSubFrame(title: string): seq<byte>
  {
    Tit2Id() + BE32(ToUint32(|EncodedTitle(title)|)) + [0x00, 0x00] + EncodedTitle(title)
  }

  /** A CHAP body: element ID, NUL, start and end in milliseconds, start and
      end byte offsets set to "unused" (FF FF FF FF), then the TIT2 sub-frame. */
  function ChapBody(id: seq<byte>, start: uint32, end: uint32, title: string): seq<byte>
  {
    id + [0x00] + BE32(start) + BE32(end) + [0xFF, 0xFF, 0xFF, 0xFF] + [0xFF, 0xFF, 0xFF, 0xFF] + TitleSubFrame(title)
  }

  /** The fields of a CHAP body as section 3 of the ID3v2 Chapter Frame Addendum lays them out. */
  datatype ChapFields = ChapFields(
    elementId: seq<byte>, startMillis: uint32, endMillis: uint32,
    startOffset: uint32, endOffset: uint32,
    subFrameId: seq<byte>, subFrameSize: uint32, subFrameFlags: seq<byte>, subFrameData: seq<byte>)

  /** Reads a CHAP body that embeds one sub-frame. */
  function ParseChapBody(b: seq<byte>): Option<ChapFields>
  {
    var n := IndexOf(b, 0);
    if |b| < n + 27 then None
    else
      var p := n + 1;
      Some(ChapFields(b[..n], DecodeBE32(b[p..p + 4]), DecodeBE32(b[p + 4..p + 8]),
        DecodeBE32(b[p + 8..p + 12]), DecodeBE32(b[p + 12..p + 16]),
        b[p + 16..p + 20], DecodeBE32(b[p + 20..p + 24]), b[p + 24..p + 26], b[p + 26..]))
  }

  /** A CHAP body is |ID| + 30 + 2|title| bytes long. */
  lemma ChapBodyLength(id: seq<byte>, start: uint32, end: uint32, title: string)
    ensures |ChapBody(id, start, end, title)| == |id| + 30 + 2 * |title|
  {
    EncodedTitleLayout(title);
  }

  /** Reading a CHAP body gives back the element ID (when it holds no NUL), the
      start and end, the unused offsets, and the TIT2 sub-frame with the title frame. */
  lemma ChapBodyRoundTrip(id: seq<byte>, start: uint32, end: uint32, title: string)
    requires 0 !in id
    ensures ParseChapBody(ChapBody(id, start, end, title))
      == Some(ChapFields(id, start, end, 0xFFFF_FFFF, 0xFFFF_FFFF,
                         Tit2Id(), ToUint32(3 + 2 * |title|), [0x00, 0x00], EncodedTitle(title)))
  {
    var times := BE32(start) + BE32(end) + [0xFF, 0xFF, 0xFF, 0xFF] + [0xFF, 0xFF, 0xFF, 0xFF];
    var sub := TitleSubFrame(title);
    assert ChapBody(id, start, end, title) == id + [0x00] + (times + sub);
    SubFrameFields(title);
    ChapTimes(start, end, sub);
    ParseAfterId(id, times + sub);
  }

  /** Reading a body whose element ID holds no NUL: every field is read from the bytes after the NUL. */
  lemma ParseAfterId(id: seq<byte>, rest: seq<byte>)
    requires 0 !in id && |rest| >= 26
    ensures ParseChapBody(id + [0x00] + rest)
      == Some(ChapFields(id, DecodeBE32(rest[..4]), DecodeBE32(rest[4..8]),
                         DecodeBE32(rest[8..12]), DecodeBE32(rest[12..16]),
                         rest[16..20], DecodeBE32(rest[20..24]), rest[24..26], rest[26..]))
  {
    var b := id + [0x00] + rest;
    IndexOfTerminator(id, 0, rest);
    var p := |id| + 1;
    assert b[..|id|] == id;
    assert b[p..p + 4] == rest[..4];
    assert b[p + 4..p + 8] == rest[4..8];
    assert b[p + 8..p + 12] == rest[8..12];
    assert b[p + 12..p + 16] == rest[12..16];
    assert b[p + 16..p + 20] == rest[16..20];
    assert b[p + 20..p + 24] == rest[20..24];
    assert b[p + 24..p + 26] == rest[24..26];
    assert b[p + 26..] == rest[26..];
  }

  lemma ChapTimes(start: uint32, end: uint32, sub: seq<byte>)
    requires |sub| >= 10
    ensures var rest := BE32(start) + BE32(end) + [0xFF, 0xFF, 0xFF, 0xFF] + [0xFF, 0xFF, 0xFF, 0xFF] + sub;
      DecodeBE32(rest[..4]) == start && DecodeBE32(rest[4..8]) == end
      && DecodeBE32(rest[8..12]) == 0xFFFF_FFFF && DecodeBE32(rest[12..16]) == 0xFFFF_FFFF
      && rest[16..20] == sub[..4] && rest[20..24] == sub[4..8] && rest[24..26] == sub[8..10] && rest[26..] == sub[10..]
  {
    var rest := BE32(start) + BE32(end) + [0xFF, 0xFF, 0xFF, 0xFF] + [0xFF, 0xFF, 0xFF, 0xFF] + sub;
    assert rest[16..] == sub;
    assert rest[16..20] == sub[..4] && rest[20..24] == sub[4..8] && rest[24..26] == sub[8..10] && rest[26..] == sub[10..];
    assert rest[..4] == BE32(start);
    assert rest[4..8] == BE32(end);
    assert rest[8..12] == [0xFF, 0xFF, 0xFF, 0xFF];
    assert rest[12..16] == [0xFF, 0xFF, 0xFF, 0xFF];
    BE32RoundTrip(start);
    BE32RoundTrip(end);
  }

  lemma SubFrameFields(title: string)
    ensures var sub := TitleSubFrame(title);
      |sub| >= 10 && sub[..4] == Tit2Id() && DecodeBE32(sub[4..8]) == ToUint32(3 + 2 * |title|)
      && sub[8..10] == [0x00, 0x00] && sub[10..] == EncodedTitle(title)
  {
    var sub := TitleSubFrame(title);
    EncodedTitleLayout(title);
    assert sub[4..8] == BE32(ToUint32(|EncodedTitle(title)|));
    BE32RoundTrip(ToUint32(|EncodedTitle(title)|));
  }

  /** The CTOC element ID "toc" with its NUL terminator. */
  function TocId(): seq<byte> {
    [0x74, 0x6F, 0x63, 0x00]
  }

  /** A CTOC body as written: "toc" NUL, the two bytes 01 00 (where section 4
      of the Chapter Frame Addendum has a single flags byte), the child count
      truncated to one byte, then every child element ID NUL-terminated. */
  function CtocBody(ids: seq<seq<byte>>): seq<byte>
  {
    TocId() + [0x01, 0x00] + [|ids| % 0x100] + Terminated(ids, 0)
  }

  /** The fields of a CTOC body in the writer's layout. */
  datatype CtocFields = CtocFields(elementId: seq<byte>, flags: seq<byte>, entryCount: byte, childIds: seq<seq<byte>>)

  /** Reads a CTOC body in the writer's layout. */
  function ParseCtocBody(b: seq<byte>): Option<CtocFields>
  {
    var n := IndexOf(b, 0);
    if |b| < n + 4 then None
    else Some(CtocFields(b[..n], b[n + 1..n + 3], b[n + 3], SplitTerminated(b[n + 4..], 0)))
  }

  /** Reading a CTOC body gives "toc", the flag bytes 01 00, the count modulo 256
      and, when no child ID holds a NUL, the child IDs in order. */
  lemma CtocBodyRoundTrip(ids: seq<seq<byte>>)
    requires forall i :: 0 <= i < |ids| ==> 0 !in ids[i]
    ensures ParseCtocBody(CtocBody(ids)) == Some(CtocFields([0x74, 0x6F, 0x63], [0x01, 0x00], |ids| % 0x100, ids))
  {
    var tail := [0x01, 0x00] + [|ids| % 0x100] + Terminated(ids, 0);
    var b := CtocBody(ids);
    assert b == [0x74, 0x6F, 0x63] + [0] + tail;
    IndexOfTerminator([0x74, 0x6F, 0x63], 0, tail);
    assert b[..3] == [0x74, 0x6F, 0x63];
    assert b[4..6] == [0x01, 0x00];
    assert b[6] == |ids| % 0x100;
    assert b[7..] == Terminated(ids, 0);
    SplitTerminatedInverse(ids, 0);
  }

  /** The CTOC as section 4 of the Chapter Frame Addendum reads it: one flags
      byte, then the entry count. */
  function StandardCtocCount(b: seq<byte>): Option<byte>
  {
    var n := IndexOf(b, 0);
    if |b| < n + 3 then None else Some(b[n + 2])
  }

  /** Because of the extra byte, a reader following the addendum sees an entry count of 0. */
  lemma StandardReaderSeesNoEntries(ids: seq<seq<byte>>)
    ensures StandardCtocCount(CtocBody(ids)) == Some(0)
  {
    var tail := [0x01, 0x00] + [|ids| % 0x100] + Terminated(ids, 0);
    var b := CtocBody(ids);
    assert b == [0x74, 0x6F, 0x63] + [0] + tail;
    IndexOfTerminator([0x74, 0x6F, 0x63], 0, tail);
    assert b[5] == 0;
  }
}
