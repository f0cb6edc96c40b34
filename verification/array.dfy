/** The dense sample buffers of the single-precision package: a 1-D buffer
    over a flat slice, and 2-D and 3-D buffers that keep their shape beside
    one flat slice laid out in row-major order. */
module Fftw32 {
  import opened Complex
  import Layout

  /** Data for a 1-D signal. */
  class Array {
    var Elems: array<Complex64>

    /** NewArray: n zero samples. */
    constructor (n: nat)
      ensures fresh(Elems)
      ensures Len() == n
      ensures forall i | 0 <= i < n :: At(i) == Zero
    {
      Elems := new Complex64[n](_ => Zero);
    }

    function Len(): nat
      reads this
    {
      Elems.Length
    }

    function At(i: nat): Complex64
      reads this, Elems
      requires i < Len()
    {
      Elems[i]
    }

    /** Stores x at position i; every other sample and the length stay. */
    method Set(i: nat, x: Complex64)
      requires i < Len()
      modifies Elems
      ensures Elems[..] == old(Elems[..])[i := x]
      ensures Len() == old(Len())
      ensures At(i) == x
      ensures forall j | 0 <= j < Len() && j != i :: At(j) == old(At(j))
    {
      Elems[i] := x;
    }

    /** Address of the first sample, from which the native engine reaches
        all Len() samples; there is no first sample in an empty buffer. */
    function Ptr(): (p: Pointer)
      reads this, Elems
      requires Len() > 0
      ensures p.base == Elems && p.offset + Len() <= p.base.Length
      ensures p.base[p.offset] == At(0)
    {
      Pointer(Elems, 0)
    }
  }

  /** 2-D version of Array: shape (N0, N1), sample (i0, i1) at i1 + N1 * i0. */
  class Array2 {
    var N0: nat
    var N1: nat
    var Elems: array<Complex64>

    /** The slice holds exactly one sample per cell of the shape. */
    ghost predicate Valid()
      reads this
    {
      Elems.Length == N0 * N1
    }

    /** NewArray2: shape (n0, n1), n0 * n1 zero samples. */
    constructor (n0: nat, n1: nat)
      ensures Valid() && fresh(Elems)
      ensures Dims() == (n0, n1)
      ensures Elems.Length == n0 * n1
      ensures forall i0: nat, i1: nat | i0 < n0 && i1 < n1 :: At(i0, i1) == Zero
    {
      N0, N1 := n0, n1;
      Elems := new Complex64[n0 * n1](_ => Zero);
    }

    /** The shape; on a valid buffer its product is the number of samples. */
    function Dims(): (d: (nat, nat))
      reads this
      ensures Valid() ==> d.0 * d.1 == Elems.Length
    {
      (N0, N1)
    }

    /** Flat position of an in-range coordinate pair. */
    function Index(i0: nat, i1: nat): (k: nat)
      reads this
      requires Valid()
      requires i0 < N0 && i1 < N1
      ensures k < Elems.Length
      ensures Layout.Coords2(N0, N1, k) == (i0, i1)
    {
      Layout.Coords2OfIndex2(N0, N1, i0, i1);
      Layout.Index2(N1, i0, i1)
    }

    function At(i0: nat, i1: nat): Complex64
      reads this, Elems
      requires Valid()
      requires i0 < N0 && i1 < N1
    {
      Elems[Index(i0, i1)]
    }

    /** Stores x at (i0, i1): exactly that flat slot changes, so every other
        cell reads as before and the shape is untouched. */
    method Set(i0: nat, i1: nat, x: Complex64)
      requires Valid()
      requires i0 < N0 && i1 < N1
      modifies Elems
      ensures Valid()
      ensures Elems[..] == old(Elems[..])[Index(i0, i1) := x]
      ensures At(i0, i1) == x
      ensures forall j0: nat, j1: nat | j0 < N0 && j1 < N1 && (j0, j1) != (i0, i1) ::
                At(j0, j1) == old(At(j0, j1))
    {
      Elems[Index(i0, i1)] := x;
      forall j0: nat, j1: nat | j0 < N0 && j1 < N1
        ensures At(j0, j1) == if (j0, j1) == (i0, i1) then x else old(At(j0, j1))
      {
        Layout.UpdateAt2(old(Elems[..]), N0, N1, i0, i1, j0, j1, x);
      }
    }

    /** Address of the first sample; there is none in an empty buffer. */
    function Ptr(): (p: Pointer)
      reads this, Elems
      requires Elems.Length > 0
      ensures p.base == Elems && p.offset + Elems.Length <= p.base.Length
      ensures p.base[p.offset] == Elems[0]
    {
      Pointer(Elems, 0)
    }
  }

  /** 3-D version of Array: shape (N0, N1, N2), sample (i0, i1, i2) at
      i2 + N2 * (i1 + i0 * N1). */
  class Array3 {
    var N0: nat
    var N1: nat
    var N2: nat
    var Elems: array<Complex64>

    ghost predicate Valid()
      reads this
    {
      Elems.Length == N0 * N1 * N2
    }

    /** NewArray3: shape (n0, n1, n2), n0 * n1 * n2 zero samples. */
    constructor (n0: nat, n1: nat, n2: nat)
      ensures Valid() && fresh(Elems)
      ensures Dims() == (n0, n1, n2)
      ensures Elems.Length == n0 * n1 * n2
      ensures forall i0: nat, i1: nat, i2: nat | i0 < n0 && i1 < n1 && i2 < n2 ::
                At(i0, i1, i2) == Zero
    {
      N0, N1, N2 := n0, n1, n2;
      Elems := new Complex64[n0 * n1 * n2](_ => Zero);
    }

    function Dims(): (d: (nat, nat, nat))
      reads this
      ensures Valid() ==> d.0 * d.1 * d.2 == Elems.Length
    {
      (N0, N1, N2)
    }

    function Index(i0: nat, i1: nat, i2: nat): (k: nat)
      reads this
      requires Valid()
      requires i0 < N0 && i1 < N1 && i2 < N2
      ensures k < Elems.Length
      ensures Layout.Coords3(N0, N1, N2, k) == (i0, i1, i2)
    {
      Layout.Coords3OfIndex3(N0, N1, N2, i0, i1, i2);
      Layout.Index3(N1, N2, i0, i1, i2)
    }

    function At(i0: nat, i1: nat, i2: nat): Complex64
      reads this, Elems
      requires Valid()
      requires i0 < N0 && i1 < N1 && i2 < N2
    {
      Elems[Index(i0, i1, i2)]
    }

    method Set(i0: nat, i1: nat, i2: nat, x: Complex64)
      requires Valid()
      requires i0 < N0 && i1 < N1 && i2 < N2
      modifies Elems
      ensures Valid()
      ensures Elems[..] == old(Elems[..])[Index(i0, i1, i2) := x]
      ensures At(i0, i1, i2) == x
      ensures forall j0: nat, j1: nat, j2: nat
                | j0 < N0 && j1 < N1 && j2 < N2 && (j0, j1, j2) != (i0, i1, i2) ::
                At(j0, j1, j2) == old(At(j0, j1, j2))
    {
      Elems[Index(i0, i1, i2)] := x;
      forall j0: nat, j1: nat, j2: nat | j0 < N0 && j1 < N1 && j2 < N2
        ensures At(j0, j1, j2) == if (j0, j1, j2) == (i0, i1, i2) then x else old(At(j0, j1, j2))
      {
        Layout.UpdateAt3(old(Elems[..]), N0, N1, N2, i0, i1, i2, j0, j1, j2, x);
      }
    }

    function Ptr(): (p: Pointer)
      reads this, Elems
      requires Elems.Length > 0
      ensures p.base == Elems && p.offset + Elems.Length <= p.base.Length
      ensures p.base[p.offset] == Elems[0]
    {
      Pointer(Elems, 0)
    }
  }
}
