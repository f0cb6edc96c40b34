/** The buffers' callers write every cell of a 2-D or 3-D buffer in nested
    row-major loops and only then read the cells back. Because each cell has
    its own flat slot, nothing written early is overwritten later. */
module RowMajorFill {
  import opened Complex
  import opened Fftw32

  /** Sets every (i0, i1) to f(i0, i1), row index outermost. */
  method Fill2(a: Array2, f: (nat, nat) -> Complex64)
    requires a.Valid()
    modifies a.Elems
    ensures a.Valid()
    ensures forall i0: nat, i1: nat | i0 < a.N0 && i1 < a.N1 :: a.At(i0, i1) == f(i0, i1)
  {
    var i := 0;
    while i < a.N0
      invariant i <= a.N0 && a.Valid()
      invariant forall r0: nat, r1: nat | r0 < i && r1 < a.N1 :: a.At(r0, r1) == f(r0, r1)
    {
      var j := 0;
      while j < a.N1
        invariant j <= a.N1 && a.Valid()
        invariant forall r0: nat, r1: nat | r1 < a.N1 && (r0 < i || (r0 == i && r1 < j)) ::
                    a.At(r0, r1) == f(r0, r1)
      {
        a.Set(i, j, f(i, j));
        j := j + 1;
      }
      i := i + 1;
    }
  }

  /** Sets every (i0, i1, i2) to f(i0, i1, i2), i0 outermost. */
  method Fill3(a: Array3, f: (nat, nat, nat) -> Complex64)
    requires a.Valid()
    modifies a.Elems
    ensures a.Valid()
    ensures forall i0: nat, i1: nat, i2: nat | i0 < a.N0 && i1 < a.N1 && i2 < a.N2 ::
              a.At(i0, i1, i2) == f(i0, i1, i2)
  {
    var i := 0;
    while i < a.N0
      invariant i <= a.N0 && a.Valid()
      invariant forall r0: nat, r1: nat, r2: nat | r0 < i && r1 < a.N1 && r2 < a.N2 ::
                  a.At(r0, r1, r2) == f(r0, r1, r2)
    {
      var j := 0;
      while j < a.N1
        invariant j <= a.N1 && a.Valid()
        invariant forall r0: nat, r1: nat, r2: nat
                    | r1 < a.N1 && r2 < a.N2 && (r0 < i || (r0 == i && r1 < j)) ::
                    a.At(r0, r1, r2) == f(r0, r1, r2)
      {
        var l := 0;
        while l < a.N2
          invariant l <= a.N2 && a.Valid()
          invariant forall r0: nat, r1: nat, r2: nat
                      | r1 < a.N1 && r2 < a.N2
                        && (r0 < i || (r0 == i && (r1 < j || (r1 == j && r2 < l)))) ::
                      a.At(r0, r1, r2) == f(r0, r1, r2)
        {
          a.Set(i, j, l, f(i, j, l));
          l := l + 1;
        }
        j := j + 1;
      }
      i := i + 1;
    }
  }
}
