/** The sample type stored by every buffer. The buffers never compute on
    samples: they only store and fetch them, so a sample is modelled by the
    bit patterns of its two single-precision parts. */
module Complex {

  /** A `complex64`: real and imaginary parts as IEEE-754 binary32 bit patterns. */
  datatype Complex64 = Complex64(re: bv32, im: bv32)

  /** Go's zero value for `complex64`: both parts are +0.0, i.e. all bits clear. */
  const Zero: Complex64 := Complex64(0, 0)

  /** The raw address handed to the native engine: a backing array and the
      position of the addressed element inside it. */
  datatype Pointer = Pointer(base: array<Complex64>, offset: nat)
}
