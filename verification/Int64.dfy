/** Two's-complement 64-bit arithmetic, as Go's int64 computes it. */
module Int64 {
  const TWO_63: int := 0x8000_0000_0000_0000
  const TWO_64: int := 0x1_0000_0000_0000_0000
  const MAX_INT64: int := 0x7fff_ffff_ffff_ffff

  predicate IsInt64(x: int) {
    -TWO_63 <= x <= MAX_INT64
  }

  /** The int64 that a computation with the exact result x leaves behind. */
  function Wrap(x: int): (r: int)
    ensures IsInt64(r)
    ensures IsInt64(x) ==> r == x
    ensures (r - x) % TWO_64 == 0
  {
    var m := x % TWO_64;
    if m <= MAX_INT64 then m else m - TWO_64
  }
}
