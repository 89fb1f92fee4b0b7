/**
  The few pieces of Java semantics the toolbelt relies on: references that
  may be `null`, and the 64-bit `long` used for timestamps and durations.
 */
module Java {

  /** A Java reference of type `T`, which may be `null`. */
  datatype Nullable<T> = Null | Ref(obj: T)

  const LONG_MIN: int := -0x8000_0000_0000_0000
  const LONG_MAX: int := 0x7FFF_FFFF_FFFF_FFFF
  const LONG_MODULUS: int := 0x1_0000_0000_0000_0000

  /** The values of a Java `long`. */
  type Long = x: int | LONG_MIN <= x <= LONG_MAX

  /** Two's-complement wrap-around of an exact result into a `long`, as Java
      arithmetic on `long` operands does. */
  function WrapLong(x: int): (r: Long)
    ensures LONG_MIN <= x <= LONG_MAX ==> r == x
    ensures (x - r) % LONG_MODULUS == 0
  {
    (x - LONG_MIN) % LONG_MODULUS + LONG_MIN
  }
}
