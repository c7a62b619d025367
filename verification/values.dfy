/** Small value types shared by the whole model: an optional value (Java's
    nullable reference), a Java `double` kept as its 64-bit pattern, and a
    Java `int`. */
module Values {

  /** A Java reference that may be `null`. */
  datatype Option<+T> = None | Some(value: T)

  /** A Java `double`. The model performs no arithmetic on it, so it is kept
      as the opaque 64-bit IEEE 754 pattern that was stored. */
  datatype Double = Double(bits: bv64)

  /** The Java literal `0` widened to `double`: +0.0, all bits clear. */
  const Zero: Double := Double(0)

  /** A Java `int`: 32-bit two's complement. */
  newtype Int32 = x: int | -0x8000_0000 <= x < 0x8000_0000
}
