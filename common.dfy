/** Shared value types of the model: Go's fixed-width integers, the package's
    sentinel errors, and the Option/Result wrappers used for error returns. */
module Common {

  datatype Option<T> = None | Some(value: T)

  datatype Result<T, E> = Ok(value: T) | Err(error: E)

  /** The two sentinel errors of the package: ErrBadChapterStartTime and ErrZeroDuration. */
  datatype Error = BadChapterStartTime | ZeroDuration

  type byte = x: int | 0 <= x < 0x100

  type uint32 = x: int | 0 <= x < 0x1_0000_0000

  /** Go's int64, the representation of time.Duration (nanoseconds). */
  type int64 = x: int | -0x8000_0000_0000_0000 <= x < 0x8000_0000_0000_0000

  /** Go's conversion `uint32(x)` of an integer: keep the low 32 bits (two's complement). */
  function ToUint32(x: int): (r: uint32)
    ensures 0 <= x < 0x1_0000_0000 ==> r == x
    ensures (x - r) % 0x1_0000_0000 == 0
  {
    x % 0x1_0000_0000
  }

  /** Go's integer division `d / time.Millisecond` (10^6 ns), which truncates toward zero. */
  function QuoMillisecond(d: int): (q: int)
    ensures d >= 0 ==> 0 <= q * 1_000_000 <= d < q * 1_000_000 + 1_000_000
    ensures d < 0 ==> q * 1_000_000 - 1_000_000 < d <= q * 1_000_000 <= 0
  {
    if d >= 0 then d / 1_000_000 else -((-d) / 1_000_000)
  }
}
