# id3v24 chapters and FFmpeg metadata, modelled in Dafny

This project models the part of the Go package `id3v24` that turns an
ordered list of chapters into bytes and text. Each chapter has a title and a
start time code. The inputs also include the total duration of the audio, a
`time.Duration` in nanoseconds.

- **Time codes** (`TimeCode`). `StringTimeToTime` tries the layouts
  `15:04:05.000`, `15:04:05.0` and `15:04:05` in order. The first layout that
  parses wins. If none parses, the result is `ErrBadChapterStartTime`.
  `StringTimeToMillis` folds the parsed clock into milliseconds. The layouts
  are a strict digit grammar: two-digit fields, hour below 24, minute and
  second below 60.
- **Chapter boundaries** (`Chapters`). Both builders parse every start first.
  Chapter i runs from its start to the start of chapter i + 1. The last
  chapter ends at the duration in whole milliseconds. Chapter i is named
  `Itoa(i + 1)`.
- **ID3v2 frames** (`Id3Frames`, `Tagging`).
  - `TextFrame` writes the encoding byte 0x01 and the BOM FF FE. It then
    writes one low byte and one zero byte per character.
  - A CHAP body holds the element ID, NUL, the start, the end, two unused
    offsets and an embedded TIT2 sub-frame.
  - A CTOC body holds "toc" NUL, the bytes 01 00, the child count as one
    byte, and the NUL-terminated child IDs.
  - `AddCHAPAndCTOC` is a module-level method that takes a `Tag`, whose
    `frames` sequence `AddFrame` appends to. It adds every frame or none.
- **FFmpeg text** (`FFmpeg`, `Metadata`).
  - `GetFFmpegChaptersTXT` writes the `;FFMETADATA1` marker line and one
    `[CHAPTER]` block per chapter.
  - `appendKVPair` drops every `\n` and `\r` from the value, trims white
    space and appends one `key=value` line.
  - `WriteFFmpegMetadataFile` writes the marker line, then the key/value
    lines in a fixed order, then the chapter blocks without their own marker
    line.

Each imperative operation is a Dafny `method` with the loops of the source.
Each method is proved against a pure function of its inputs. The lemmas
state what those functions promise:
- round trips through a reader for every byte layout;
- the guards, and their all-or-nothing outcome;
- the interval bounds and element IDs;
- the line structure of the text.

Shared modules:
- `Common`: Go's integer types and conversions, and the sentinel errors.
- `Decimal`: `strconv.Itoa` and zero-padded digits.
- `Binary`: `binary.BigEndian.PutUint32` and the UTF-8 bytes of a string.
- `Sequences`: lists joined by a terminator, and split again.

The model keeps the bytes the code writes where they depart from the
standards the frames follow:
- the size of the TIT2 sub-frame inside a CHAP body is a plain big-endian
  32-bit value (id3v24.go:140-144), not the synchsafe integer (section 6.2
  of the ID3v2.4.0 structure document) that the frame header of section 4
  asks for;
- the CTOC body has the two bytes 01 00 before the entry count
  (id3v24.go:154-155), where section 4 of the ID3v2 Chapter Frame Addendum
  has a single flags byte, so one byte more than the addendum lays out;
- the copyright value is built from the date's year and the artist
  (id3v24.go:334); the `TrackInfo.Copyright` field is never read.

## Model

| member | source | states |
|---|---|---|
| Common.ToUint32 | id3v24.go:105 | the Go conversion `uint32(x)` keeps x when it fits, and otherwise differs from x by a multiple of 2^32 |
| Common.QuoMillisecond | id3v24.go:105 | `d / time.Millisecond` truncates toward zero: the quotient times 10^6 lies within one millisecond of d, on d's side of zero |
| Decimal.Pad | id3v24.go:334-337 | `time.Format` writes a year, month or day as at least `width` digits, zero-padded on the left, with a leading "-" for a negative value |
| Decimal.Itoa | id3v24.go:127 | `strconv.Itoa` of a natural writes at least one character, all decimal digits, and 0 is written "0" |
| Decimal.ItoaRoundTrip | id3v24.go:127 | reading back the digits Itoa writes gives the number |
| Decimal.ItoaInjective | id3v24.go:127 | distinct chapter numbers get distinct element IDs |
| Decimal.ItoaNoLeadingZero | id3v24.go:127 | Itoa of a positive number does not start with '0' |
| Decimal.PadFits | id3v24.go:334-337 | a year or month or day that fits the width is written as exactly that many zero-padded digits, which read back as the value |
| Binary.BE32 | id3v24.go:131-135 | `PutUint32` writes four bytes |
| Binary.BE32RoundTrip | id3v24.go:131-135 | big-endian decoding of the four bytes gives the value back |
| Binary.DecodeBE32RoundTrip | id3v24.go:131-135 | every four bytes are the big-endian encoding of their decoded value, so the encoding is a bijection |
| Binary.Utf8Rune | id3v24.go:129 | one character is 1 to 4 UTF-8 bytes, none zero unless the character is NUL, and an ASCII character is its own byte |
| Binary.Utf8OfAscii | id3v24.go:129 | for ASCII text, `[]byte(s)` is one byte per character, its code |
| Binary.ItoaBytes | id3v24.go:129-130 | an element ID's bytes are its character codes, none of them the NUL that ends it |
| Sequences.RemoveFirst | id3v24.go:313 | `bytes.Replace(s, pat, nil, 1)`: the first occurrence of the pattern removed, everything else kept |
| Sequences.IndexOf | id3v24.go:130 | the position found holds the separator, and no earlier position does |
| Sequences.TerminatedAppend | id3v24.go:156-159 | terminating each part of two lists one after the other gives the concatenation of the two texts |
| Sequences.SplitTerminatedInverse | id3v24.go:156-159 | splitting at the terminator gives back the parts, when no part holds the terminator |
| TimeCode.ClockMillis | id3v24.go:48-51 | the parsed clock as hours, minutes, seconds and nanoseconds in nanoseconds, divided down to whole milliseconds |
| TimeCode.ParseLayout | id3v24.go:55-59 | a clock that one layout accepts comes from a string of that layout's length, with hour < 24, minute and second < 60, and under 10^9 ns |
| TimeCode.StringTimeToTime | id3v24.go:54-66 | succeeds exactly when one of the three layouts accepts the string; the only error is ErrBadChapterStartTime |
| TimeCode.StringTimeToMillis | id3v24.go:43-52 | returns only the parse error, or a value below 24 h in milliseconds (so the uint32 conversion never wraps) |
| TimeCode.MillisOfLayout | id3v24.go:43-66 | whichever layout accepts the string, the result is that layout's clock (the order of the layouts never matters), in milliseconds h*3600000 + m*60000 + s*1000 + ns div 10^6 |
| TimeCode.FormatThenParse | id3v24.go:43-66 | writing a valid clock in a layout and parsing it gives the clock back, and the milliseconds it stands for |
| TimeCode.ParseThenFormat | id3v24.go:55-59 | a string a layout accepts is exactly the formatting of the clock it parses to |
| TimeCode.ExampleStartMillis | id3v24_test.go:27 | "00:00:00.000" is 0 ms |
| TimeCode.ExampleStartWhole | id3v24_test.go:31 | "00:00:10" is 10000 ms |
| TimeCode.ExampleStartTenths | id3v24_test.go:35 | "00:00:20.5" is 20500 ms |
| TimeCode.ExampleMalformedStart | id3v24.go:54-66 | "10:99" matches no layout and gives ErrBadChapterStartTime |
| Chapters.IntervalAt | id3v24.go:119-127 | chapter i as one interval: ID `Itoa(i + 1)`, start `starts[i]`, end `starts[i + 1]` or the duration in milliseconds for the last chapter, and the chapter title |
| Chapters.BuildIntervals | id3v24.go:99-127 | the shared front end of both builders: no intervals for no chapters, `ErrZeroDuration`, the first parse error, or one interval per chapter |
| Chapters.DurationMillis | id3v24.go:105 | a duration below 2^32 ms converts to its whole milliseconds |
| Chapters.Collect | id3v24.go:110-116 | the values of a list of results in order when all succeed; otherwise the first error |
| Chapters.ParseStarts | id3v24.go:110-116 | succeeds exactly when every start parses, with each chapter's milliseconds in order; the only error is ErrBadChapterStartTime |
| Chapters.ParseStartTimes | id3v24.go:107-116 | fills the starts array with every parsed start, or stops at the first bad start and returns its error |
| Chapters.ParseStartsOf | id3v24.go:110-116 | when every start parses to the given value, the parse loop returns exactly those values |
| Chapters.IntervalsFrom | id3v24.go:119-127 | one interval per chapter |
| Chapters.BuildIntervalsOutcome | id3v24.go:99-116 | no chapters: nothing, whatever the duration; zero duration: ErrZeroDuration; otherwise success exactly when every start parses, else ErrBadChapterStartTime |
| Chapters.IntervalBounds | id3v24.go:119-126 | chapter i starts at its parsed start and ends at the next chapter's start, the last one at the duration in milliseconds |
| Chapters.IntervalNames | id3v24.go:127 | chapter i is named Itoa(i + 1) and keeps its title |
| Chapters.ElementIdsDistinct | id3v24.go:127 | no two chapters share an element ID |
| Chapters.SubMillisecondDuration | id3v24.go:102-105 | a duration of 1 to 999999 ns passes the zero check but ends the last chapter at 0 |
| Chapters.TwoChapters | id3v24.go:119-127 | two chapters with a 30 s duration give the intervals (a, b) named "1" and (b, 30000) named "2" |
| Chapters.ThreeChapters | id3v24.go:119-127 | three chapters with a 30 s duration give (a, b), (b, c) and (c, 30000), named "1" to "3" |
| Chapters.OutOfOrderStarts | id3v24.go:119-126 | starts out of order are accepted, and the first chapter then ends before it starts |
| Chapters.TestScenarioIntervals | id3v24_test.go:24-41 | the test chapters with 30 s give (0, 10000), (10000, 20500) and (20500, 30000) |
| Id3Frames.EncodedTitle | id3v24.go:82-89 | the TextFrame bytes: 01, the BOM FF FE, then the low byte of each character followed by 00 |
| Id3Frames.TitleSubFrame | id3v24.go:139-146 | the embedded TIT2 sub-frame: "TIT2", the length of the title bytes as a big-endian uint32, two zero flag bytes, then the title bytes |
| Id3Frames.ChapBody | id3v24.go:128-146 | the CHAP body: element ID, NUL, start and end as big-endian uint32, two FF FF FF FF offsets, then the TIT2 sub-frame |
| Id3Frames.CtocBody | id3v24.go:153-159 | the CTOC body: "toc" NUL, 01 00, the child count as one byte, then each child ID followed by NUL |
| Id3Frames.LowBytes | id3v24.go:85-87 | two bytes per character |
| Id3Frames.EncodedTitleLayout | id3v24.go:82-89 | the title frame is 3 + 2n bytes, starts 01 FF FE, and has character i's low byte at 3 + 2i and a zero at 4 + 2i |
| Id3Frames.TextFrame | id3v24.go:82-89 | the loop builds exactly the encoded title frame |
| Id3Frames.TitleReadBack | id3v24.go:82-89 | a UTF-16LE reader gets back every character modulo 256 |
| Id3Frames.TitleRoundTrip | id3v24.go:85-87 | the title comes back unchanged exactly when every code point is at most 0xFF |
| Id3Frames.TitleCollision | id3v24.go:86 | U+0100 and U+0000 are written as the same bytes |
| Id3Frames.ChapBodyLength | id3v24.go:128-146 | a CHAP body is the ID length + 30 + twice the title length, in bytes |
| Id3Frames.ChapBodyRoundTrip | id3v24.go:128-146 | reading a CHAP body gives back the element ID, start, end, the FF FF FF FF offsets, and the TIT2 sub-frame with its plain big-endian size, zero flags and title frame |
| Id3Frames.SubFrameFields | id3v24.go:139-146 | the sub-frame is "TIT2", the title frame's length as a big-endian uint32, 00 00, then the title frame |
| Id3Frames.CtocBodyRoundTrip | id3v24.go:153-159 | reading a CTOC body gives "toc", the bytes 01 00, the count modulo 256, and the child IDs in order |
| Id3Frames.StandardReaderSeesNoEntries | id3v24.go:154-155 | a reader that expects one flags byte, as in section 4 of the ID3v2 Chapter Frame Addendum, reads an entry count of 0 |
| Tagging.ChapFrame | id3v24.go:127-148 | the CHAP frame added for one interval, its body built over the ASCII bytes of the element ID |
| Tagging.ChapterFrames | id3v24.go:98-160 | the frames AddCHAPAndCTOC adds, or its error: the CHAP frame of each interval in order, then the CTOC of their IDs |
| Tagging.Tag.constructor | id3v24_test.go:18 | a new tag holds no frames |
| Tagging.Tag.AddFrame | id3v24.go:148 | appends one frame, and nothing else changes |
| Tagging.AddCHAPAndCTOC | id3v24.go:98-162 | on success adds exactly the CHAP frames and the CTOC frame and returns nil; on error returns it and leaves the tag as it was |
| Tagging.AddChapFrames | id3v24.go:118-150 | adds chapter i's CHAP frame in order, with end at the next start or at the duration, and collects the element IDs |
| Tagging.FramesOfPrefix | id3v24.go:118-150 | one turn of the CHAP loop adds chapter i's frame and ID |
| Tagging.ChapBodyOf | id3v24.go:127-146 | the appends build the CHAP body of the chapter's ID, start, end and title |
| Tagging.CtocBodyOf | id3v24.go:152-159 | the appends build the CTOC body of the IDs |
| Tagging.FramesOfParse | id3v24.go:99-116 | past the guards, the frames are decided by the parse of the starts: its error, or the frames of its intervals |
| Tagging.IdsAreDigits | id3v24.go:127 | every element ID is a digit string |
| Tagging.ChapFrames | id3v24.go:118-150 | one CHAP frame per interval |
| Tagging.ChapterFramesGuards | id3v24.go:99-116 | no chapters: no frames, even at zero duration; zero duration: ErrZeroDuration; otherwise frames exactly when every start parses, else ErrBadChapterStartTime |
| Tagging.ChapFramesAt | id3v24.go:148 | frame i is the CHAP frame of interval i |
| Tagging.FrameOrder | id3v24.go:148-160 | N CHAP frames, then exactly one CTOC frame |
| Tagging.FramesOfIntervals | id3v24.go:118-160 | the frames are the CHAP frames of the intervals, then the CTOC frame of their IDs |
| Tagging.ChapterFrameIs | id3v24.go:119-148 | frame i is the CHAP frame of chapter i's interval, named Itoa(i + 1), with chapter i's title |
| Tagging.ChapFrameReadBack | id3v24.go:119-148 | frame i reads back as ID Itoa(i + 1), its start and end, unused offsets and a TIT2 sub-frame with chapter i's title |
| Tagging.NamedChapFrame | id3v24.go:127-148 | the CHAP frame of an interval named Itoa(n) reads back with that name |
| Tagging.ChapFrameTimes | id3v24.go:110-135 | frame i carries chapter i's parsed start, and the next chapter's parsed start or the duration in milliseconds as its end |
| Tagging.CtocFrameReadBack | id3v24.go:152-160 | the CTOC frame reads back as "toc", 01 00, N modulo 256 and the children "1" .. "N" |
| Tagging.NumberedCtoc | id3v24.go:152-159 | the CTOC body of intervals named "1" .. "N" reads back with those children |
| Tagging.ChildIds | id3v24.go:156-159 | N child IDs |
| FFmpeg.ChapterBlock | id3v24.go:261 | one `[CHAPTER]` block: an empty line, the header, `TIMEBASE=1/1000`, `START=`, `END=` and `title=` lines |
| FFmpeg.Blocks | id3v24.go:253-264 | the blocks of all intervals, in chapter order |
| FFmpeg.ChaptersText | id3v24.go:236-266 | what GetFFmpegChaptersTXT returns: no text for no chapters, the interval builder's error, or `;FFMETADATA1` and the blocks |
| FFmpeg.GetFFmpegChaptersTXT | id3v24.go:236-266 | returns the marker and the blocks, or no text and no error for no chapters, or no text and the error |
| FFmpeg.TextOfParse | id3v24.go:241-252 | past the guards, the text is decided by the parse of the starts: its error, or the blocks of its intervals |
| FFmpeg.AppendBlocks | id3v24.go:253-264 | the loop appends chapter i's block in order, with end at the next start or at the duration |
| FFmpeg.BlocksOfPrefix | id3v24.go:253-264 | one turn of the block loop adds chapter i's block |
| FFmpeg.ChaptersTextGuards | id3v24.go:237-252 | no chapters: no text, even at zero duration; zero duration: ErrZeroDuration; otherwise text exactly when every start parses, else ErrBadChapterStartTime |
| FFmpeg.BlockLines | id3v24.go:261 | six lines per block |
| FFmpeg.BlockIsLines | id3v24.go:261 | a block is its six lines, each ended by a newline: an empty line, [CHAPTER], TIMEBASE=1/1000, START=, END=, title= |
| FFmpeg.BlocksAreLines | id3v24.go:253-264 | the blocks are all their lines, each ended by a newline |
| FFmpeg.AllBlockLinesAt | id3v24.go:253-264 | block i is lines 6i to 6i + 5 |
| FFmpeg.NoNewlineInLines | id3v24.go:261 | no line of the blocks holds a newline when no title does |
| FFmpeg.MarkedBlockLines | id3v24.go:237-264 | the marker and the blocks split into the marker line and six lines per block |
| FFmpeg.ChaptersTextLines | id3v24.go:236-266 | the text splits into ";FFMETADATA1" and six lines per chapter, when no title holds a newline |
| FFmpeg.TestScenarioText | id3v24_test.go:71-96 | for the test chapters and 30 s, the text is exactly ";FFMETADATA1" and the three blocks START=0 END=10000, START=10000 END=20500, START=20500 END=30000, each with its title |
| FFmpeg.TestBoundaries | id3v24.go:261 | the test boundaries 10000, 20500 and 30000 ms are written "10000", "20500" and "30000" |
| FFmpeg.FiveDigitItoa | id3v24.go:261 | `%d` of a five-digit number is its five decimal digits, most significant first |
| FFmpeg.BlockTimes | id3v24.go:246-263 | block i's START is chapter i's parsed start, its END is the next chapter's parsed start or the duration in milliseconds, and its title is the chapter's |
| Metadata.IsSpace | id3v24.go:362 | `unicode.IsSpace` as membership in the white-space range table |
| Metadata.TrimSpace | id3v24.go:362 | `strings.TrimSpace` is `TrimFunc` with `IsSpace` |
| Metadata.KVLine | id3v24.go:362 | the line appendKVPair appends: key, "=", the sanitized value and a newline |
| Metadata.IsZero | id3v24.go:336 | `time.Time.IsZero`: January 1 of year 1, at midnight UTC |
| Metadata.FormatYear | id3v24.go:334 | `Format("2006")`: the year as four zero-padded digits |
| Metadata.FormatDate | id3v24.go:337 | `Format("2006-01-02")`: year, month and day, zero-padded and joined by "-" |
| Metadata.CopyrightValue | id3v24.go:334 | the copyright value: "Copyright ", the year, a space and the artist |
| Metadata.KVPairs | id3v24.go:325-338 | the nine pairs title to copyright in that order, then the date pair when the date is not zero |
| Metadata.KVText | id3v24.go:339-345 | the lines of the pairs in order, skipping each pair whose raw value is empty |
| Metadata.MetadataText | id3v24.go:304-347 | what WriteFFmpegMetadataFile writes: its error, or the marker, the pair lines and the chapter text with its first marker removed |
| Metadata.InTableIff | id3v24.go:362 | a code point is in a Unicode range table exactly when one of its ranges holds it |
| Metadata.IsSpaceOf | id3v24.go:362 | in ASCII, white space is the space and tab through carriage return; in Latin-1, also NEL and NBSP |
| Metadata.PrefixLength | id3v24.go:362 | the characters before the position satisfy the test, and the one at the position does not |
| Metadata.SuffixStart | id3v24.go:362 | the characters from the position on satisfy the test, and the one before it does not |
| Metadata.TrimLeftFunc | id3v24.go:362 | drops exactly a leading run of characters that satisfy the test |
| Metadata.TrimRightFunc | id3v24.go:362 | drops exactly a trailing run of characters that satisfy the test |
| Metadata.TrimFunc | id3v24.go:362 | what remains neither starts nor ends with a character that satisfies the test |
| Metadata.TrimFuncOfTrimmed | id3v24.go:362 | a string already trimmed is left as it is |
| Metadata.TrimFuncIdempotent | id3v24.go:362 | trimming twice is trimming once |
| Metadata.TrimFuncSlice | id3v24.go:362 | the result is one contiguous slice of the input, and everything cut before or after it satisfies the test |
| Metadata.TrimFuncEmpty | id3v24.go:362 | nothing remains exactly when every character satisfies the test |
| Metadata.TrimFuncChars | id3v24.go:362 | every character that remains comes from the input |
| Metadata.RemoveLineBreaks | id3v24.go:356-361 | no line break remains, and the result is no longer than the input |
| Metadata.RemoveLineBreaksCounts | id3v24.go:356-361 | every character other than a line break keeps its number of occurrences, and line breaks occur 0 times |
| Metadata.RemoveLineBreaksNone | id3v24.go:356-361 | a value without line breaks is unchanged |
| Metadata.RemoveLineBreaksOne | id3v24.go:356-361 | one character is dropped exactly when it is `\n` or `\r`, and is kept otherwise |
| Metadata.RemoveLineBreaksAppend | id3v24.go:356-361 | the mapping works character by character: what is kept of a + b is what is kept of a followed by what is kept of b, so the kept characters stay in input order |
| Metadata.RemoveLineBreaksChars | id3v24.go:356-361 | every character kept comes from the input |
| Metadata.SanitizedValue | id3v24.go:356-362 | the written value is strings.TrimSpace of the strings.Map result, and holds no `\n` or `\r` |
| Metadata.AppendKVPair | id3v24.go:355-363 | keeps the earlier output as a prefix and appends key, '=', the sanitised value and one newline |
| Metadata.KVLineIsLine | id3v24.go:362 | the appended text is exactly one newline-terminated line, when the key holds no newline |
| Metadata.BlankValue | id3v24.go:356-362 | a value of only white space and line breaks is still written, as "key=" |
| Metadata.CleanValue | id3v24.go:356-362 | a value without line breaks or surrounding white space is written as it is |
| Metadata.FormatDateFields | id3v24.go:337 | a date with a four-digit year is written yyyy-mm-dd, and each field reads back from its position |
| Metadata.WriteFFmpegMetadataFile | id3v24.go:304-347 | returns exactly the text the metadata function gives: the chapter error, or the marker, the pairs and the chapter blocks |
| Metadata.AppendPairs | id3v24.go:339-345 | calls appendKVPair for every pair whose raw value is not empty, in order |
| Metadata.KVTextOfPrefix | id3v24.go:339-345 | one turn of the pairs loop adds pair i's line unless its raw value is empty |
| Metadata.KVTextSnoc | id3v24.go:340-343 | one more pair adds its line, unless its value is empty |
| Metadata.MetadataOutcome | id3v24.go:305-308 | the metadata text fails exactly when the chapter text does, with the same error; without chapters it always succeeds |
| Metadata.MetadataLayout | id3v24.go:304-347 | the text is the marker, the key/value lines and the chapter blocks: removing the first marker from the chapter text leaves exactly the blocks |
| Metadata.KVTextLines | id3v24.go:339-345 | the key/value text is the written lines, each ended by a newline |
| Metadata.TerminatedSnoc | id3v24.go:362 | one more line adds that line and its newline at the end |
| Metadata.EmittedLinesSingle | id3v24.go:362 | no written line holds a newline when no key does |
| Metadata.JoinWithoutNewline | id3v24.go:362 | key '=' value holds no newline when neither part does |
| Metadata.LineWithoutNewline | id3v24.go:362 | a written line holds no newline when its key holds none |
| Metadata.KeysSingleLine | id3v24.go:325-337 | no key holds a newline |
| Metadata.MetadataLines | id3v24.go:304-347 | the text splits into ";FFMETADATA1", one line per written pair and six lines per chapter, when no title holds a newline |
| Metadata.TextLines | id3v24.go:304-347 | the marker, the pairs and the blocks split into their lines |
| Metadata.TextIsLines | id3v24.go:304-347 | the marker, the pairs and the blocks are their lines, each ended by a newline |
| Metadata.LinesFree | id3v24.go:304-347 | no line of the text holds a newline |
| Metadata.EmittedKeysAppend | id3v24.go:339-345 | the keys written for two lists of pairs are those of the first, then those of the second |
| Metadata.EmittedKeyIff | id3v24.go:339-345 | a key gets a line exactly when one of its pairs has a non-empty raw value |
| Metadata.EmittedKeysOf | id3v24.go:325-338 | the keys are written in the fixed order; copyright is always written; date is written exactly when the date is not zero |
| Metadata.CopyrightWithoutArtist | id3v24.go:334 | with an empty artist, the copyright line ends in the year: the trailing space is trimmed |
| Metadata.UnusedFields | id3v24.go:325-337 | the Year, Copyright and CoverJPEG fields do not change the text |

## Left out

- `GetMP3Duration`, `mp3duration.Read` and `ReadFile` read an MP3 file. The duration is an input here, a `time.Duration` in nanoseconds.
- `AddCoverJPEG` and `WriteID3v2Tag` read and rewrite files through the `id3v2` library, so they are not modelled.
- `WriteFFmpegChaptersTXT` only writes `GetFFmpegChaptersTXT`'s text to a temporary file, so it is not modelled.
- The temporary-file handling of `WriteFFmpegMetadataFile` is left out: creation, write, and removal on failure. The method returns the text it would write, and the file name and I/O errors are not modelled.
- The internals of `github.com/bogem/id3v2` are left out. `Tag.AddFrame` only appends to a list of frames. How the library stores, replaces or serialises frames is not modelled.
- Go's `time.Parse` is a strict digit grammar here. Its leniency is not modelled:
  - one-digit hours;
  - ',' as the decimal separator;
  - extra fraction digits accepted by a layout without a fraction.
- Time zones are not modelled, and neither are the date fields that no output uses.
- `Metadata.Date` holds the calendar date and the nanoseconds into the day. Zero means 0001-01-01 at midnight, and the wall-clock conversion of `time.Time` is not modelled.
- Titles, keys and values are sequences of Unicode code points. Decoding Go strings from UTF-8 while ranging over runes is not modelled, and the FFmpeg text is a string, not its UTF-8 bytes.
- `Binary.AsciiBytes` writes the element IDs in the frames. It equals Go's `[]byte(id)` for the digit strings Itoa writes (`Binary.ItoaBytes`).
- `Id3Frames.DecodeUtf16LE` is a reader used only by the lemmas. It rejects surrogate code units instead of pairing them.
- `kvpairs` is a list of one-entry maps in the source. Here it is a list of key/value pairs, which gives the same order because each map has one key.
- `Metadata.AppendKVPair` returns the new output instead of writing through the `*[]byte` pointer.
- One method, `Chapters.ParseStartTimes`, models the start-parsing loop of both `AddCHAPAndCTOC` and `GetFFmpegChaptersTXT`. The two loops are identical.
- `Metadata.IsSpaceOf` states white space for code points below 0x100 only. The table above that range is given as data (`Metadata.WhiteSpace`), and no lemma covers it.
- `Metadata.FormatDateFields` covers years 0 to 9999 only. Negative years and years with more digits are written by `Decimal.Pad`, and no lemma states their layout.
