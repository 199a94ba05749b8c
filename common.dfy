/** Value types shared by every module of the model: Go's optional values,
    bytes, byte strings and the fixed-width integers the source uses. */
module Common {

  datatype Option<+T> = None | Some(value: T)

  /** A Go `byte`. */
  type Byte = b: int | 0 <= b < 0x100

  /** A Go `string`: an immutable sequence of bytes (not necessarily UTF-8). */
  type Str = seq<Byte>

  const MaxUint64: int := 0xFFFF_FFFF_FFFF_FFFF

  /** A Go `uint64`. */
  type Uint64 = n: int | 0 <= n <= 0xFFFF_FFFF_FFFF_FFFF

  const MinInt64: int := -0x8000_0000_0000_0000
  const MaxInt64: int := 0x7FFF_FFFF_FFFF_FFFF

  /** A Go `int` on a 64-bit platform. */
  type Int64 = n: int | -0x8000_0000_0000_0000 <= n <= 0x7FFF_FFFF_FFFF_FFFF

  /** Go's `a - b` on `int`: subtraction modulo 2^64. */
  function Sub64(a: Int64, b: Int64): (r: Int64)
    ensures (r - (a - b)) % 0x1_0000_0000_0000_0000 == 0
    ensures MinInt64 <= a - b <= MaxInt64 ==> r == a - b
  {
    var d := a - b;
    if d > MaxInt64 then d - 0x1_0000_0000_0000_0000
    else if d < MinInt64 then d + 0x1_0000_0000_0000_0000
    else d
  }
}
