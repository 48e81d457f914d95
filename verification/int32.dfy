/** Kotlin/Java `Int`: 32-bit two's-complement integers whose `+` and `-`
    wrap around silently. */
module Int32 {

  const TwoTo32: int := 0x1_0000_0000
  const MinValue: int := -0x8000_0000
  const MaxValue: int := 0x7fff_ffff

  newtype i32 = x: int | -0x8000_0000 <= x < 0x8000_0000

  predicate InRange(x: int) {
    MinValue <= x <= MaxValue
  }

  /** The `Int` that holds an exact result `x` lying within one wrap of the
      range, as the sum or difference of two `Int`s does: `x` itself if it
      fits, otherwise `x` moved by 2^32 into range. */
  function WrapOnce(x: int): (r: i32)
    requires MinValue - TwoTo32 <= x <= MaxValue + TwoTo32
    ensures InRange(x) ==> r as int == x
    ensures r as int == x || r as int == x - TwoTo32 || r as int == x + TwoTo32
  {
    if x > MaxValue then (x - TwoTo32) as i32
    else if x < MinValue then (x + TwoTo32) as i32
    else x as i32
  }

  /** `a + b` on `Int`. */
  function Add(a: i32, b: i32): i32 {
    WrapOnce(a as int + b as int)
  }

  /** `a - b` on `Int`. */
  function Sub(a: i32, b: i32): i32 {
    WrapOnce(a as int - b as int)
  }

  /** Adding back a wrapped difference restores the original value, however
      far apart the two operands are: `a + (b - a) == b` on `Int`. */
  lemma AddSubCancel(a: i32, b: i32)
    ensures Add(a, Sub(b, a)) == b
  {
  }
}
