/** The ternary helper macros and side constants shared by the firmware
    (code/src/common.h). The macros are used on floats, so they are stated
    over `real`. */
module Common {

  const RIGHT_SIDE: int := 0
  const LEFT_SIDE: int := 1

  /** A side or a direction: the firmware's `direction_t` is a bool, and the
      side macros are the integers 0 and 1 combined with `^`. */
  type Bit = b: int | 0 <= b <= 1

  /** `a ^ b` on two one-bit values. */
  function Xor(a: Bit, b: Bit): (r: Bit)
    ensures r == 0 <==> a == b
  {
    if a == b then 0 else 1
  }

  /** `MAX(a, b)`: `(a > b) ? a : b`. */
  function Max(a: real, b: real): (r: real)
    ensures r >= a && r >= b
    ensures r == a || r == b
  {
    if a > b then a else b
  }

  /** `MIN(a, b)`: `(a < b) ? a : b`. */
  function Min(a: real, b: real): (r: real)
    ensures r <= a && r <= b
    ensures r == a || r == b
  {
    if a < b then a else b
  }

  /** `CLAMP(val, upper, lower)` is `MAX(MIN(val, upper), lower)`: the upper
      bound comes second. With the bounds in order it clamps; with them
      swapped it always yields `lower`. */
  function Clamp(val: real, upper: real, lower: real): (r: real)
    ensures lower <= upper ==> lower <= r <= upper
    ensures lower <= val <= upper ==> r == val
    ensures upper < lower ==> r == lower
  {
    Max(Min(val, upper), lower)
  }
}
