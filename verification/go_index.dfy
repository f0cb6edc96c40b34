/** The buffer arithmetic as the Go code performs it, with no check of the
    shape or of the individual coordinates. The only guard Go applies is the
    slice bounds check on the flat position (and `make`'s check that a length
    is not negative). Integers here are unbounded: Go's `int` is 32 or 64 bits
    wide depending on the platform, and its wrap-around is not modelled, so the
    lemmas below bound their inputs by 2^15 in magnitude, where no intermediate
    product or sum leaves the 32-bit range and the unbounded results coincide
    with Go's at either width. */
module GoIndex {
  /** Array2.index on Go ints. */
  function Index2(n1: int, i0: int, i1: int): int
  {
    i1 + n1 * i0
  }

  /** Array2.At and Array2.Set pass Go's slice check when the flat position
      is inside the n0 * n1 slice (for inputs where nothing wraps around). */
  predicate Accepts2(n0: int, n1: int, i0: int, i1: int)
  {
    0 <= Index2(n1, i0, i1) < n0 * n1
  }

  /** Length NewArray2 passes to `make`; `make` panics only on a negative length. */
  function AllocLength2(n0: int, n1: int): int
  {
    n0 * n1
  }

  /** On a shape with at least two rows, the coordinate one past the end of
      row 0 and the coordinate one before the start of row 1 are accepted
      and alias the neighbouring row's cells. */
  lemma AcceptsOutOfRangeColumns(n0: int, n1: int)
    requires 2 <= n0 < 0x8000 && 1 <= n1 < 0x8000
    ensures Accepts2(n0, n1, 0, n1) && Index2(n1, 0, n1) == Index2(n1, 1, 0)
    ensures Accepts2(n0, n1, 1, -1) && Index2(n1, 1, -1) == Index2(n1, 0, n1 - 1)
  {
  }

  /** A shape whose two dimensions are both negative allocates a non-empty
      slice instead of being refused, although no coordinate can lie inside it. */
  lemma AcceptsNegativeShape(n0: int, n1: int)
    requires -0x8000 < n0 < 0 && -0x8000 < n1 < 0
    ensures AllocLength2(n0, n1) > 0
  {
  }
}
