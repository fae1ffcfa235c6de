/** Byte-level encodings used by the frame bodies: binary.BigEndian.PutUint32
    and the UTF-8 bytes of a Go string conversion `[]byte(s)`. */
module Binary {
  import opened Common
  import opened Decimal

  /** binary.BigEndian.PutUint32: most significant byte first. */
  function BE32(x: uint32): (b: seq<byte>)
    ensures |b| == 4
  {
    var q1 := x / 0x100;
    var q2 := q1 / 0x100;
    [q2 / 0x100, q2 % 0x100, q1 % 0x100, x % 0x100]
  }

  /** binary.BigEndian.Uint32, the reader of BE32. */
  function DecodeBE32(b: seq<byte>): uint32
    requires |b| == 4
  {
    ((b[0] as int * 0x100 + b[1]) * 0x100 + b[2]) * 0x100 + b[3]
  }

  lemma BE32RoundTrip(x: uint32)
    ensures DecodeBE32(BE32(x)) == x
  {
  }

  lemma DecodeBE32RoundTrip(b: seq<byte>)
    requires |b| == 4
    ensures BE32(DecodeBE32(b)) == b
  {
    var q2 := b[0] as int * 0x100 + b[1];
    var q1 := q2 * 0x100 + b[2];
    ShiftByte(q1, b[3]);
    ShiftByte(q2, b[2]);
    ShiftByte(b[0], b[1]);
  }

  lemma ShiftByte(x: int, r: byte)
    ensures (x * 0x100 + r) / 0x100 == x && (x * 0x100 + r) % 0x100 == r
  {
  }

  /** The UTF-8 encoding of one Unicode scalar value. */
  function Utf8Rune(c: char): (b: seq<byte>)
    ensures 1 <= |b| <= 4
    ensures c != '\0' ==> 0 !in b
    ensures c as int < 0x80 ==> b == [c as int]
  {
    var u := c as int;
    if u < 0x80 then [u]
    else if u < 0x800 then [0xC0 + u / 0x40, 0x80 + u % 0x40]
    else if u < 0x1_0000 then [0xE0 + u / 0x1000, 0x80 + (u / 0x40) % 0x40, 0x80 + u % 0x40]
    else [0xF0 + u / 0x4_0000, 0x80 + (u / 0x1000) % 0x40, 0x80 + (u / 0x40) % 0x40, 0x80 + u % 0x40]
  }

  /** Go's `[]byte(s)`: the UTF-8 bytes of a string. */
  function Utf8(s: string): seq<byte>
  {
    if s == [] then [] else Utf8(s[..|s| - 1]) + Utf8Rune(s[|s| - 1])
  }

  /** Each character's code as one byte: for ASCII text this is `[]byte(s)` (Utf8OfAscii). */
  function AsciiBytes(s: string): (b: seq<byte>)
    ensures |b| == |s|
  {
    seq(|s|, i requires 0 <= i < |s| => (s[i] as int) % 0x100)
  }

  /** UTF-8 writes an ASCII character as its own code, one byte each. */
  lemma {:induction false} Utf8OfAscii(s: string)
    requires forall i :: 0 <= i < |s| ==> s[i] as int < 0x80
    ensures Utf8(s) == AsciiBytes(s)
  {
    if s != [] {
      var p := s[..|s| - 1];
      Utf8OfAscii(p);
      assert AsciiBytes(s) == AsciiBytes(p) + [s[|s| - 1] as int];
    }
  }

  /** Decimal digits are ASCII: their bytes are their UTF-8 encoding, and none is zero. */
  lemma DigitBytes(s: string)
    requires AllDigits(s)
    ensures Utf8(s) == AsciiBytes(s)
    ensures 0 !in AsciiBytes(s)
  {
    assert forall i :: 0 <= i < |s| ==> IsDigit(s[i]);
    Utf8OfAscii(s);
  }

  /** The element IDs strconv.Itoa writes. */
  lemma ItoaBytes(n: nat)
    ensures Utf8(Itoa(n)) == AsciiBytes(Itoa(n))
    ensures 0 !in AsciiBytes(Itoa(n))
  {
    DigitBytes(Itoa(n));
  }
}
