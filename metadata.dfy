/** WriteFFmpegMetadataFile and appendKVPair: the FFmpeg metadata text of a
    track, the marker line, one key=value line per non-empty tag value in a
    fixed key order, then the chapter blocks of GetFFmpegChaptersTXT. */
module Metadata {
  import opened Common
  import opened Decimal
  import opened Sequences
  import opened Chapters
  import opened FFmpeg

  /** A closed range of code points in a Unicode table. */
  datatype Range = Range(lo: int, hi: int)

  /** unicode.White_Space, the table unicode.IsSpace consults (its Latin-1
      fast path accepts the same characters). */
  function WhiteSpace(): seq<Range> {
    [Range(0x09, 0x0D), Range(0x20, 0x20), Range(0x85, 0x85), Range(0xA0, 0xA0), Range(0x1680, 0x1680),
     Range(0x2000, 0x200A), Range(0x2028, 0x2029), Range(0x202F, 0x202F), Range(0x205F, 0x205F), Range(0x3000, 0x3000)]
  }

  /** Whether x lies in one of the ranges of a table. */
  predicate InTable(x: int, table: seq<Range>)
    decreases |table|
  {
    table != [] && (table[0].lo <= x <= table[0].hi || InTable(x, table[1..]))
  }

  /** unicode.IsSpace. */
  predicate IsSpace(c: char) {
    InTable(c as int, WhiteSpace())
  }

  /** Membership in a table is membership in one of its ranges. */
  lemma {:induction false} InTableIff(x: int, table: seq<Range>)
    ensures InTable(x, table) <==> exists i :: 0 <= i < |table| && table[i].lo <= x <= table[i].hi
  {
    if table != [] {
      InTableIff(x, table[1..]);
      assert forall i :: 1 <= i < |table| ==> table[i] == table[1..][i - 1];
    }
  }

  /** The white space is tab through carriage return, the space, NEL, NBSP,
      and a few characters above U+1000; no digit or letter of ASCII is white space. */
  lemma IsSpaceOf(c: char)
    ensures c as int < 0x80 ==> (IsSpace(c) <==> c == ' ' || '\t' <= c <= '\r')
    ensures 0x80 <= c as int < 0x100 ==> (IsSpace(c) <==> c as int == 0x85 || c as int == 0xA0)
  {
    var t := WhiteSpace();
    InTableIff(c as int, t);
    if c as int < 0x100 {
      assert forall i :: 4 <= i < |t| ==> c as int < t[i].lo;
    }
  }

  /** The two characters appendKVPair's mapping drops. */
  predicate IsLineBreak(c: char) {
    c == '\n' || c == '\r'
  }

  /** The number of characters at the start of s that satisfy f. */
  function PrefixLength(s: string, f: char -> bool): (n: nat)
    ensures n <= |s|
    ensures forall i :: 0 <= i < n ==> f(s[i])
    ensures n < |s| ==> !f(s[n])
  {
    if s != [] && f(s[0]) then
      var n := 1 + PrefixLength(s[1..], f);
      assert forall i :: 1 <= i < |s| ==> s[i] == s[1..][i - 1];
      n
    else 0
  }

  /** Where the characters at the end of s that satisfy f begin. */
  function SuffixStart(s: string, f: char -> bool): (n: nat)
    ensures n <= |s|
    ensures forall i :: n <= i < |s| ==> f(s[i])
    ensures 0 < n ==> !f(s[n - 1])
  {
    if s != [] && f(s[|s| - 1]) then SuffixStart(s[..|s| - 1], f) else |s|
  }

  /** strings.TrimLeftFunc: s from its first character that does not satisfy f. */
  function TrimLeftFunc(s: string, f: char -> bool): (r: string)
    ensures |r| <= |s| && r == s[|s| - |r|..]
    ensures forall i :: 0 <= i < |s| - |r| ==> f(s[i])
    ensures r == [] || !f(r[0])
  {
    s[PrefixLength(s, f)..]
  }

  /** strings.TrimRightFunc: s up to just past its last character that does not satisfy f. */
  function TrimRightFunc(s: string, f: char -> bool): (r: string)
    ensures |r| <= |s| && r == s[..|r|]
    ensures forall i :: |r| <= i < |s| ==> f(s[i])
    ensures r == [] || !f(r[|r| - 1])
  {
    s[..SuffixStart(s, f)]
  }

  /** strings.TrimFunc: both ends cut; what is left neither starts nor ends
      with a character satisfying f. */
  function TrimFunc(s: string, f: char -> bool): (r: string)
    ensures |r| <= |s|
    ensures r == [] || (!f(r[0]) && !f(r[|r| - 1]))
  {
    var t := TrimLeftFunc(s, f);
    var r := TrimRightFunc(t, f);
    assert r != [] ==> r[0] == t[0];
    r
  }

  /** strings.TrimSpace: TrimFunc with unicode.IsSpace. */
  function TrimSpace(s: string): string {
    TrimFunc(s, IsSpace)
  }

  /** A string that neither starts nor ends with a character satisfying f is
      its own TrimFunc. */
  lemma TrimFuncOfTrimmed(s: string, f: char -> bool)
    requires s == [] || (!f(s[0]) && !f(s[|s| - 1]))
    ensures TrimFunc(s, f) == s
  {
    assert PrefixLength(s, f) == 0;
    assert TrimLeftFunc(s, f) == s;
    assert SuffixStart(s, f) == |s|;
  }

  lemma TrimFuncIdempotent(s: string, f: char -> bool)
    ensures TrimFunc(TrimFunc(s, f), f) == TrimFunc(s, f)
  {
    TrimFuncOfTrimmed(TrimFunc(s, f), f);
  }

  /** TrimFunc keeps one contiguous slice of s, and every character it cuts
      off, before or after, satisfies f. */
  lemma TrimFuncSlice(s: string, f: char -> bool)
    ensures var r, lead := TrimFunc(s, f), |s| - |TrimLeftFunc(s, f)|;
      lead + |r| <= |s| && r == s[lead..lead + |r|]
      && (forall i :: 0 <= i < lead ==> f(s[i]))
      && (forall i :: lead + |r| <= i < |s| ==> f(s[i]))
  {
    var t := TrimLeftFunc(s, f);
    var r := TrimFunc(s, f);
    var lead := |s| - |t|;
    assert r == TrimRightFunc(t, f);
    assert t == s[lead..] && r == t[..|r|];
    assert s[lead..lead + |r|] == t[..|r|];
    forall i | lead + |r| <= i < |s|
      ensures f(s[i])
    {
      assert s[i] == t[i - lead];
    }
  }

  /** TrimFunc leaves nothing exactly when every character satisfies f. */
  lemma TrimFuncEmpty(s: string, f: char -> bool)
    ensures TrimFunc(s, f) == [] <==> forall i :: 0 <= i < |s| ==> f(s[i])
  {
    TrimFuncSlice(s, f);
  }

  /** The strings.Map of appendKVPair: every '\n' and '\r' removed, every other
      character kept in order. */
  function RemoveLineBreaks(s: string): (r: string)
    ensures |r| <= |s|
    ensures forall i :: 0 <= i < |r| ==> !IsLineBreak(r[i])
  {
    if s == [] then []
    else RemoveLineBreaks(s[..|s| - 1]) + (if IsLineBreak(s[|s| - 1]) then [] else [s[|s| - 1]])
  }

  /** Every character other than a line break keeps its number of occurrences. */
  lemma {:induction false} RemoveLineBreaksCounts(s: string, c: char)
    ensures multiset(RemoveLineBreaks(s))[c] == if IsLineBreak(c) then 0 else multiset(s)[c]
  {
    if s != [] {
      var p, x := s[..|s| - 1], s[|s| - 1];
      RemoveLineBreaksCounts(p, c);
      CountStep(RemoveLineBreaks(p), RemoveLineBreaks(s), s, p, x, c);
    }
  }

  /** One more character either adds to the kept count or is dropped as a line break. */
  lemma CountStep(r: string, r': string, s: string, p: string, x: char, c: char)
    requires s == p + [x] && r' == r + if IsLineBreak(x) then [] else [x]
    requires multiset(r)[c] == if IsLineBreak(c) then 0 else multiset(p)[c]
    ensures multiset(r')[c] == if IsLineBreak(c) then 0 else multiset(s)[c]
  {
    var kept := if IsLineBreak(x) then [] else [x];
    assert multiset(r + kept) == multiset(r) + multiset(kept);
    assert multiset(p + [x]) == multiset(p) + multiset{x};
  }

  /** A string without line breaks passes unchanged. */
  lemma {:induction false} RemoveLineBreaksNone(s: string)
    requires forall i :: 0 <= i < |s| ==> !IsLineBreak(s[i])
    ensures RemoveLineBreaks(s) == s
  {
    if s != [] {
      RemoveLineBreaksNone(s[..|s| - 1]);
    }
  }

  /** One character is kept exactly when it is not a line break. */
  lemma RemoveLineBreaksOne(c: char)
    ensures RemoveLineBreaks([c]) == if IsLineBreak(c) then [] else [c]
  {
    assert [c][..0] == [];
  }

  /** The mapping works character by character: what is kept of a + b is what
      is kept of a followed by what is kept of b, so the order is preserved. */
  lemma {:induction false} RemoveLineBreaksAppend(a: string, b: string)
    ensures RemoveLineBreaks(a + b) == RemoveLineBreaks(a) + RemoveLineBreaks(b)
  {
    if b == [] {
      assert a + b == a;
    } else {
      var p, x := b[..|b| - 1], b[|b| - 1];
      RemoveLineBreaksAppend(a, p);
      assert (a + b)[..|a + b| - 1] == a + p;
      assert (a + b)[|a + b| - 1] == x;
      ConcatAssoc(RemoveLineBreaks(a), RemoveLineBreaks(p), if IsLineBreak(x) then [] else [x]);
    }
  }

  /** The value as appendKVPair writes it: strings.TrimSpace of the strings.Map result. */
  function SanitizedValue(value: string): (r: string)
    ensures '\n' !in r && '\r' !in r
  {
    var clean := RemoveLineBreaks(value);
    TrimFuncChars(clean, IsSpace);
    TrimSpace(clean)
  }

  /** Every character TrimFunc keeps comes from s. */
  lemma TrimFuncChars(s: string, f: char -> bool)
    ensures forall c :: c in TrimFunc(s, f) ==> c in s
  {
    var r := TrimFunc(s, f);
    var lead := |s| - |TrimLeftFunc(s, f)|;
    TrimFuncSlice(s, f);
    assert forall i :: 0 <= i < |r| ==> r[i] == s[lead + i];
  }

  /** The line appendKVPair appends for key and value. */
  function KVLine(key: string, value: string): string {
    key + "=" + SanitizedValue(value) + "\n"
  }

  /** appendKVPair: strings.Map drops the line breaks one character at a time,
      then key, '=', the trimmed value and a newline are appended to output. */
  method AppendKVPair(output: string, key: string, value: string) returns (newOutput: string)
    ensures newOutput == output + KVLine(key, value)
  {
    var clean := "";
    for i := 0 to |value|
      invariant clean == RemoveLineBreaks(value[..i])
    {
      assert value[..i + 1][..i] == value[..i];
      if value[i] != '\n' && value[i] != '\r' {
        clean := clean + [value[i]];
      }
    }
    assert value[..|value|] == value;
    newOutput := output + (key + "=" + TrimSpace(clean) + "\n");
  }

  /** A key=value line is one newline-terminated line when the key holds no newline. */
  lemma KVLineIsLine(key: string, value: string)
    requires '\n' !in key
    ensures KVLine(key, value) == Terminated([key + "=" + SanitizedValue(value)], '\n')
    ensures SplitTerminated(KVLine(key, value), '\n') == [key + "=" + SanitizedValue(value)]
  {
    var line := key + "=" + SanitizedValue(value);
    var single: seq<string> := [line];
    assert |single[1..]| == 0;
    LineWithoutNewline(key, value);
    SplitTerminatedInverse([line], '\n');
  }

  /** A value of white space and line breaks only is still written, as "key=". */
  lemma BlankValue(key: string, value: string)
    requires forall i :: 0 <= i < |value| ==> IsSpace(value[i]) || IsLineBreak(value[i])
    ensures KVLine(key, value) == key + "=\n"
  {
    var clean := RemoveLineBreaks(value);
    RemoveLineBreaksChars(value);
    forall i | 0 <= i < |clean|
      ensures IsSpace(clean[i])
    {
      assert clean[i] in value;
    }
    TrimFuncEmpty(clean, IsSpace);
  }

  /** Every character the mapping keeps comes from s. */
  lemma {:induction false} RemoveLineBreaksChars(s: string)
    ensures forall c :: c in RemoveLineBreaks(s) ==> c in s
  {
    if s != [] {
      var p := s[..|s| - 1];
      RemoveLineBreaksChars(p);
      assert forall c :: c in p ==> c in s;
    }
  }

  /** A value without line breaks or surrounding white space is written as is. */
  lemma CleanValue(key: string, value: string)
    requires forall i :: 0 <= i < |value| ==> !IsLineBreak(value[i])
    requires value == [] || (!IsSpace(value[0]) && !IsSpace(value[|value| - 1]))
    ensures KVLine(key, value) == key + "=" + value + "\n"
  {
    RemoveLineBreaksNone(value);
    TrimFuncOfTrimmed(value, IsSpace);
  }

  /** A time.Time as its calendar date and the nanoseconds into that day (UTC). */
  datatype Date = Date(year: int, month: nat, day: nat, nanoOfDay: nat)

  /** time.Time.IsZero: January 1, year 1, 00:00:00 UTC. */
  predicate IsZero(d: Date) {
    d.year == 1 && d.month == 1 && d.day == 1 && d.nanoOfDay == 0
  }

  /** Date.Format("2006"). */
  function FormatYear(d: Date): string {
    Pad(d.year, 4)
  }

  /** Date.Format("2006-01-02"). */
  function FormatDate(d: Date): string {
    Pad(d.year, 4) + "-" + Pad(d.month, 2) + "-" + Pad(d.day, 2)
  }

  /** A four-digit year and a calendar month and day are written zero-padded,
      and the fields read back from their positions. */
  lemma FormatDateFields(d: Date)
    requires 0 <= d.year < 10000 && 1 <= d.month <= 12 && 1 <= d.day <= 31
    ensures |FormatDate(d)| == 10 && FormatDate(d)[4] == '-' && FormatDate(d)[7] == '-'
    ensures AllDigits(FormatDate(d)[0..4]) && ValueOf(FormatDate(d)[0..4]) == d.year
    ensures AllDigits(FormatDate(d)[5..7]) && ValueOf(FormatDate(d)[5..7]) == d.month
    ensures AllDigits(FormatDate(d)[8..10]) && ValueOf(FormatDate(d)[8..10]) == d.day
  {
    assert Pow10(2) == 100 && Pow10(4) == 10000;
    PadFits(d.year, 4);
    PadFits(d.month, 2);
    PadFits(d.day, 2);
    DateSlices(Pad(d.year, 4), Pad(d.month, 2), Pad(d.day, 2));
  }

  lemma DateSlices(y: string, m: string, dd: string)
    requires |y| == 4 && |m| == 2 && |dd| == 2
    ensures var s := y + "-" + m + "-" + dd;
      |s| == 10 && s[4] == '-' && s[7] == '-' && s[0..4] == y && s[5..7] == m && s[8..10] == dd
  {
    var s := y + "-" + m + "-" + dd;
    assert s[0..4] == y && s[5..7] == m && s[8..10] == dd;
  }

  /** The fields of TrackInfo. Year, Copyright and CoverJPEG are not read when
      the metadata text is written. */
  datatype TrackInfo = TrackInfo(
    title: string, album: string, artist: string, genre: string, year: string, date: Date,
    track: string, comment: string, description: string, language: string, copyright: string,
    coverJPEG: string, chapters: seq<Chapter>)

  /** One entry of kvpairs. */
  datatype KV = KV(key: string, value: string)

  /** The copyright value: the date's year and the artist, not the Copyright field. */
  function CopyrightValue(info: TrackInfo): string {
    "Copyright " + FormatYear(info.date) + " " + info.artist
  }

  /** kvpairs: nine keys in a fixed order, then the date unless it is zero. */
  function KVPairs(info: TrackInfo): seq<KV> {
    [KV("title", info.title), KV("album", info.album), KV("artist", info.artist), KV("genre", info.genre),
     KV("track", info.track), KV("comment", info.comment), KV("language", info.language),
     KV("description", info.description), KV("copyright", CopyrightValue(info))]
    + (if IsZero(info.date) then [] else [KV("date", FormatDate(info.date))])
  }

  /** The lines of the pairs loop: a pair is written unless its raw value is empty. */
  function KVText(pairs: seq<KV>): string {
    if pairs == [] then []
    else
      var last := pairs[|pairs| - 1];
      KVText(pairs[..|pairs| - 1]) + (if last.value == "" then [] else KVLine(last.key, last.value))
  }

  /** The keys that get a line, in order. */
  function EmittedKeys(pairs: seq<KV>): seq<string> {
    if pairs == [] then []
    else
      var last := pairs[|pairs| - 1];
      EmittedKeys(pairs[..|pairs| - 1]) + (if last.value == "" then [] else [last.key])
  }

  /** The written lines without their newlines. */
  function EmittedLines(pairs: seq<KV>): seq<string> {
    if pairs == [] then []
    else
      var last := pairs[|pairs| - 1];
      EmittedLines(pairs[..|pairs| - 1]) + (if last.value == "" then [] else [last.key + "=" + SanitizedValue(last.value)])
  }

  /** What WriteFFmpegMetadataFile writes: the marker line, the pairs, and the
      chapter text with its own marker line removed (nothing without chapters),
      or the chapter error. */
  function MetadataText(duration: int64, info: TrackInfo): Result<string, Error> {
    match ChaptersText(duration, info.chapters)
    case Err(e) => Err(e)
    case Ok(chapters) =>
      Ok(Marker() + KVText(KVPairs(info)) + (if chapters.None? then [] else RemoveFirst(chapters.value, Marker())))
  }

  /** WriteFFmpegMetadataFile, returning the text it writes to its temporary file. */
  method WriteFFmpegMetadataFile(duration: int64, info: TrackInfo) returns (r: Result<string, Error>)
    ensures r == MetadataText(duration, info)
  {
    var output := Marker();
    var chaptersTXT, err := GetFFmpegChaptersTXT(duration, info.chapters);
    if err.Some? {
      return Err(err.value);
    }
    var chapterText: string;
    if chaptersTXT.None? {
      chapterText := [];
    } else {
      chapterText := RemoveFirst(chaptersTXT.value, output);
    }
    var kvpairs := [KV("title", info.title), KV("album", info.album), KV("artist", info.artist), KV("genre", info.genre),
                    KV("track", info.track), KV("comment", info.comment), KV("language", info.language),
                    KV("description", info.description),
                    KV("copyright", "Copyright " + FormatYear(info.date) + " " + info.artist)];
    if !IsZero(info.date) {
      kvpairs := kvpairs + [KV("date", FormatDate(info.date))];
    }
    assert kvpairs == KVPairs(info);
    output := AppendPairs(output, kvpairs);
    output := output + chapterText;
    return Ok(output);
  }

  /** The pairs loop of WriteFFmpegMetadataFile: appendKVPair for every pair
      whose value is not empty, in order. */
  method AppendPairs(output: string, pairs: seq<KV>) returns (newOutput: string)
    ensures newOutput == output + KVText(pairs)
  {
    newOutput := output;
    assert pairs[..0] == [];
    for i := 0 to |pairs|
      invariant newOutput == output + KVText(pairs[..i])
    {
      ghost var before := newOutput;
      ghost var add := if pairs[i].value == "" then [] else KVLine(pairs[i].key, pairs[i].value);
      if |pairs[i].value| > 0 {
        newOutput := AppendKVPair(newOutput, pairs[i].key, pairs[i].value);
      } else {
        assert newOutput == before + add;
      }
      KVTextOfPrefix(output, pairs, i, before, add);
    }
    assert pairs[..|pairs|] == pairs;
  }

  /** One turn of the pairs loop: the line of pair i is appended unless its value is empty. */
  lemma KVTextOfPrefix(base: string, pairs: seq<KV>, i: nat, before: string, add: string)
    requires i < |pairs| && before == base + KVText(pairs[..i])
    requires add == if pairs[i].value == "" then [] else KVLine(pairs[i].key, pairs[i].value)
    ensures before + add == base + KVText(pairs[..i + 1])
  {
    assert pairs[..i + 1] == pairs[..i] + [pairs[i]];
    KVTextSnoc(pairs[..i], pairs[i]);
    AppendStep(base, KVText(pairs[..i]), KVText(pairs[..i + 1]), before, add);
  }

  lemma AppendStep(base: string, text: string, text': string, before: string, add: string)
    requires before == base + text && text' == text + add
    ensures before + add == base + text'
  {
    ConcatAssoc(base, text, add);
  }

  /** One more pair adds its line, unless its value is empty. */
  lemma KVTextSnoc(q: seq<KV>, x: KV)
    ensures KVText(q + [x]) == KVText(q) + if x.value == "" then [] else KVLine(x.key, x.value)
  {
    assert (q + [x])[..|q|] == q;
  }

  /** The guards are those of the chapter text: its error, or success. */
  lemma MetadataOutcome(duration: int64, info: TrackInfo)
    ensures MetadataText(duration, info).Err? <==> ChaptersText(duration, info.chapters).Err?
    ensures MetadataText(duration, info).Err? ==> MetadataText(duration, info).error == ChaptersText(duration, info.chapters).error
    ensures |info.chapters| == 0 ==> MetadataText(duration, info).Ok?
    ensures |info.chapters| > 0 && duration == 0 ==> MetadataText(duration, info) == Err(ZeroDuration)
  {
    ChaptersTextGuards(duration, info.chapters);
  }

  /** The text is the marker, the pairs and the chapter blocks, each once: the
      chapter text's own marker line is the one removed. */
  lemma MetadataLayout(duration: int64, info: TrackInfo)
    requires MetadataText(duration, info).Ok?
    ensures BuildIntervals(info.chapters, duration).Ok?
    ensures MetadataText(duration, info).value
      == Marker() + KVText(KVPairs(info)) + Blocks(BuildIntervals(info.chapters, duration).value)
  {
    var ivs := BuildIntervals(info.chapters, duration).value;
    if |info.chapters| > 0 {
      var s := Marker() + Blocks(ivs);
      assert s[..|Marker()|] == Marker();
    }
  }

  /** The pairs' text is its lines, each ended by a newline. */
  lemma {:induction false} KVTextLines(pairs: seq<KV>)
    ensures KVText(pairs) == Terminated(EmittedLines(pairs), '\n')
  {
    if pairs != [] {
      var p, last := pairs[..|pairs| - 1], pairs[|pairs| - 1];
      KVTextLines(p);
      if last.value != "" {
        var line := last.key + "=" + SanitizedValue(last.value);
        assert EmittedLines(pairs) == EmittedLines(p) + [line];
        assert KVText(pairs) == KVText(p) + (line + "\n");
        TerminatedSnoc(EmittedLines(p), line, '\n');
      } else {
        assert KVText(pairs) == KVText(p);
        assert EmittedLines(pairs) == EmittedLines(p);
      }
    }
  }

  /** One more line, and its terminator, at the end. */
  lemma TerminatedSnoc(lines: seq<string>, line: string, sep: char)
    ensures Terminated(lines + [line], sep) == Terminated(lines, sep) + (line + [sep])
  {
    var single := [line];
    assert Terminated(single, sep) == line + [sep] by {
      assert |single[1..]| == 0;
    }
    TerminatedAppend(lines, single, sep);
  }

  /** A written line holds no newline when its key holds none. */
  lemma {:induction false} EmittedLinesSingle(pairs: seq<KV>)
    requires forall j :: 0 <= j < |pairs| ==> '\n' !in pairs[j].key
    ensures forall j :: 0 <= j < |EmittedLines(pairs)| ==> '\n' !in EmittedLines(pairs)[j]
  {
    if pairs != [] {
      var p, last := pairs[..|pairs| - 1], pairs[|pairs| - 1];
      assert forall j :: 0 <= j < |p| ==> p[j] == pairs[j];
      EmittedLinesSingle(p);
      if last.value != "" {
        var single: seq<string> := [last.key + "=" + SanitizedValue(last.value)];
        LineWithoutNewline(last.key, last.value);
        FreeOfAppend(EmittedLines(p), single, '\n');
        assert EmittedLines(pairs) == EmittedLines(p) + single;
      } else {
        assert EmittedLines(pairs) == EmittedLines(p);
      }
    }
  }

  lemma LineWithoutNewline(key: string, value: string)
    requires '\n' !in key
    ensures '\n' !in key + "=" + SanitizedValue(value)
  {
    JoinWithoutNewline(key, SanitizedValue(value));
  }

  lemma JoinWithoutNewline(key: string, v: string)
    requires '\n' !in key && '\n' !in v
    ensures '\n' !in key + "=" + v
  {
    var line := key + "=" + v;
    forall i | 0 <= i < |line|
      ensures line[i] != '\n'
    {
      if i < |key| {
        assert line[i] == key[i];
      } else if i > |key| {
        assert line[i] == v[i - |key| - 1];
      }
    }
  }

  /** The keys of the pairs loop, in order. */
  function KeyNames(): seq<string> {
    ["title", "album", "artist", "genre", "track", "comment", "language", "description", "copyright", "date"]
  }

  /** No key of the pairs holds a newline. */
  lemma KeysSingleLine(info: TrackInfo)
    ensures forall j :: 0 <= j < |KVPairs(info)| ==> '\n' !in KVPairs(info)[j].key
  {
    var pairs := KVPairs(info);
    forall j | 0 <= j < |pairs|
      ensures '\n' !in pairs[j].key
    {
      assert pairs[j].key == KeyNames()[j];
      KeyNameSingleLine(j);
    }
  }

  /** Each key is a lower-case word. */
  lemma KeyNameSingleLine(j: nat)
    requires j < |KeyNames()|
    ensures '\n' !in KeyNames()[j]
  {
    var k := KeyNames()[j];
    assert forall i :: 0 <= i < |k| ==> 'a' <= k[i] <= 'z' by {
      if j < 5 {
        assert k in ["title", "album", "artist", "genre", "track"];
      } else {
        assert k in ["comment", "language", "description", "copyright", "date"];
      }
    }
  }

  /** Split at its newlines, the text is the marker line, one line per written
      pair, and six lines per chapter, provided no title holds a newline. */
  lemma MetadataLines(duration: int64, info: TrackInfo)
    requires MetadataText(duration, info).Ok?
    requires forall i :: 0 <= i < |info.chapters| ==> '\n' !in info.chapters[i].title
    ensures BuildIntervals(info.chapters, duration).Ok?
    ensures SplitTerminated(MetadataText(duration, info).value, '\n')
      == [";FFMETADATA1"] + EmittedLines(KVPairs(info)) + AllBlockLines(BuildIntervals(info.chapters, duration).value)
  {
    MetadataLayout(duration, info);
    var ivs := BuildIntervals(info.chapters, duration).value;
    forall i | 0 <= i < |ivs|
      ensures '\n' !in ivs[i].title
    {
      IntervalNames(info.chapters, duration, i);
    }
    KeysSingleLine(info);
    TextLines(KVPairs(info), ivs);
  }

  /** The marker, the pairs and the blocks split into their lines. */
  lemma TextLines(pairs: seq<KV>, ivs: seq<Interval>)
    requires forall j :: 0 <= j < |pairs| ==> '\n' !in pairs[j].key
    requires forall i :: 0 <= i < |ivs| ==> '\n' !in ivs[i].title
    ensures SplitTerminated(Marker() + KVText(pairs) + Blocks(ivs), '\n')
      == [";FFMETADATA1"] + EmittedLines(pairs) + AllBlockLines(ivs)
  {
    TextIsLines(pairs, ivs);
    LinesFree(pairs, ivs);
    SplitTerminatedInverse([";FFMETADATA1"] + EmittedLines(pairs) + AllBlockLines(ivs), '\n');
  }

  lemma TextIsLines(pairs: seq<KV>, ivs: seq<Interval>)
    ensures Marker() + KVText(pairs) + Blocks(ivs)
      == Terminated([";FFMETADATA1"] + EmittedLines(pairs) + AllBlockLines(ivs), '\n')
  {
    var kv := EmittedLines(pairs);
    KVTextLines(pairs);
    BlocksAreLines(ivs);
    assert Marker() == Terminated([";FFMETADATA1"], '\n');
    TerminatedAppend([";FFMETADATA1"], kv, '\n');
    TerminatedAppend([";FFMETADATA1"] + kv, AllBlockLines(ivs), '\n');
  }

  lemma LinesFree(pairs: seq<KV>, ivs: seq<Interval>)
    requires forall j :: 0 <= j < |pairs| ==> '\n' !in pairs[j].key
    requires forall i :: 0 <= i < |ivs| ==> '\n' !in ivs[i].title
    ensures var lines := [";FFMETADATA1"] + EmittedLines(pairs) + AllBlockLines(ivs);
      forall j :: 0 <= j < |lines| ==> '\n' !in lines[j]
  {
    var kv := EmittedLines(pairs);
    NoNewlineInLines(ivs);
    EmittedLinesSingle(pairs);
    FreeOfAppend([";FFMETADATA1"], kv, '\n');
    FreeOfAppend([";FFMETADATA1"] + kv, AllBlockLines(ivs), '\n');
  }

  /** Two lists of parts free of the terminator join into one. */
  lemma FreeOfAppend(a: seq<string>, b: seq<string>, sep: char)
    requires forall j :: 0 <= j < |a| ==> sep !in a[j]
    requires forall j :: 0 <= j < |b| ==> sep !in b[j]
    ensures forall j :: 0 <= j < |a + b| ==> sep !in (a + b)[j]
  {
    assert forall j :: |a| <= j < |a + b| ==> (a + b)[j] == b[j - |a|];
  }

  lemma {:induction false} EmittedKeysAppend(a: seq<KV>, b: seq<KV>)
    ensures EmittedKeys(a + b) == EmittedKeys(a) + EmittedKeys(b)
  {
    if b == [] {
      assert a + b == a;
    } else {
      var p, last := b[..|b| - 1], b[|b| - 1];
      EmittedKeysAppend(a, p);
      assert (a + b)[..|a + b| - 1] == a + p;
      assert (a + b)[|a + b| - 1] == last;
      var x := if last.value == "" then [] else [last.key];
      assert EmittedKeys(b) == EmittedKeys(p) + x;
      ConcatAssoc(EmittedKeys(a), EmittedKeys(p), x);
    }
  }

  /** A key gets a line exactly when one of its pairs has a non-empty value. */
  lemma {:induction false} EmittedKeyIff(pairs: seq<KV>, k: string)
    ensures k in EmittedKeys(pairs) <==> exists j :: 0 <= j < |pairs| && pairs[j].key == k && pairs[j].value != ""
  {
    if pairs != [] {
      var p := pairs[..|pairs| - 1];
      EmittedKeyIff(p, k);
      assert forall j :: 0 <= j < |p| ==> p[j] == pairs[j];
    }
  }

  /** The keys written, in order: those of the first eight with a non-empty
      value, then always the copyright, then the date exactly when it is not zero. */
  lemma EmittedKeysOf(info: TrackInfo)
    ensures EmittedKeys(KVPairs(info))
      == EmittedKeys(KVPairs(info)[..8]) + ["copyright"] + (if IsZero(info.date) then [] else ["date"])
    ensures "copyright" in EmittedKeys(KVPairs(info))
    ensures "date" in EmittedKeys(KVPairs(info)) <==> !IsZero(info.date)
  {
    var pairs := KVPairs(info);
    var c := KV("copyright", CopyrightValue(info));
    var tail := if IsZero(info.date) then [] else [KV("date", FormatDate(info.date))];
    assert pairs == pairs[..8] + [c] + tail;
    assert CopyrightValue(info)[0] == 'C';
    EmittedKeysAppend(pairs[..8] + [c], tail);
    EmittedKeysAppend(pairs[..8], [c]);
    assert EmittedKeys([c]) == ["copyright"] by {
      assert |[c][..0]| == 0;
    }
    if !IsZero(info.date) {
      assert FormatDate(info.date)[|Pad(info.date.year, 4)|] == '-';
      assert |[tail[0]][..0]| == 0;
    }
    EmittedKeyIff(pairs, "date");
  }

  /** With an empty artist the copyright line ends in the year: the space
      before the missing artist is trimmed. */
  lemma CopyrightWithoutArtist(info: TrackInfo)
    requires 0 <= info.date.year < 10000 && info.artist == ""
    ensures SanitizedValue(CopyrightValue(info)) == "Copyright " + DigitsOf(info.date.year, 4)
  {
    var y := DigitsOf(info.date.year, 4);
    assert Pow10(4) == 10000;
    var v := "Copyright " + y;
    var s := v + " ";
    assert CopyrightValue(info) == s;
    assert forall i :: 0 <= i < |s| ==> !IsLineBreak(s[i]) by {
      assert forall i :: 0 <= i < |y| ==> IsDigit(y[i]);
    }
    RemoveLineBreaksNone(s);
    IsSpaceOf('C');
    IsSpaceOf(' ');
    IsSpaceOf(y[3]);
    assert PrefixLength(s, IsSpace) == 0;
    assert s[0..] == s && s[..|s| - 1] == v;
    assert SuffixStart(v, IsSpace) == |v|;
    assert SuffixStart(s, IsSpace) == |v|;
  }

  /** The Year, Copyright and CoverJPEG fields do not reach the text. */
  lemma UnusedFields(duration: int64, info: TrackInfo, year: string, copyright: string, coverJPEG: string)
    ensures MetadataText(duration, info.(year := year, copyright := copyright, coverJPEG := coverJPEG))
      == MetadataText(duration, info)
  {
    var other := info.(year := year, copyright := copyright, coverJPEG := coverJPEG);
    assert KVPairs(other) == KVPairs(info);
  }
}
