/** Types shared by every component: options, bytes, UTF-8 text and the integer casts of the source. */
module Common {

  datatype Option<+T> = None | Some(value: T)

  type byte = x: int | 0 <= x < 256

  /** A string of the source, as the bytes of its UTF-8 form. */
  type Text = seq<byte>

  /** A text in ASCII. */
  predicate Spells(t: Text, s: string) {
    |t| == |s| && forall i :: 0 <= i < |t| ==> t[i] == s[i] as int
  }

  const TWO_63: int := 0x8000_0000_0000_0000
  const TWO_64: int := 0x1_0000_0000_0000_0000

  const I32_MIN: int := -0x8000_0000
  const I32_MAX: int := 0x7FFF_FFFF
  const I64_MIN: int := -TWO_63
  const I64_MAX: int := TWO_63 - 1

  type u64 = x: int | 0 <= x < TWO_64

  /** `n as i64` of an unsigned 64-bit value: the upper half wraps to the negatives. */
  function AsI64(n: u64): (r: int)
    ensures I64_MIN <= r <= I64_MAX && r % TWO_64 == n
  {
    if n < TWO_63 then n else n - TWO_64
  }
}
