# Dense sample buffers of go-fftw (single precision)

This project models the buffer layer of the `fftw32` package. The package wraps the FFTW library. The native engine reads and writes these buffers in place, so the layer's job is to lay samples out the way the engine expects. The buffers are:

- `Array`: a 1-D buffer, one flat slice of `complex64` samples.
- `Array2`: a shape `(N0, N1)` over one flat slice. Cell `(i0, i1)` lives at `i1 + N1*i0`.
- `Array3`: a shape `(N0, N1, N2)` over one flat slice. Cell `(i0, i1, i2)` lives at `i2 + N2*(i1 + i0*N1)`.

In all three the last coordinate varies fastest (row-major order). Constructors allocate zero-filled slices. `At` and `Set` read or write one cell through the index map. `ptr` hands the address of the first sample to the engine.

Files:

- `complex.dfy` (module `Complex`) defines the sample type. A `complex64` is only stored and fetched, never computed on. So it is modelled as the two 32-bit bit patterns of its parts, and `Zero` (all bits clear) is Go's zero value. Also defines `Pointer`, an array plus an offset.
- `layout.dfy` (module `Layout`) holds the pure row-major maps `Index2` and `Index3` on natural numbers. It proves their range, injectivity and inverses (`Coords2`, `Coords3`). It proves the effect of a one-slot update on every other cell. It gives the order in which nested loops visit the flat slice.
- `array.dfy` (module `Fftw32`) holds the three buffers as classes. Each has an `array<Complex64>` and its shape fields. `Set` is a method that modifies only the array. `Len`, `Dims`, `Index`, `At` and `Ptr` are functions that read the fields. `Valid()` says that the slice holds exactly one sample per cell.
- `fill.dfy` (module `RowMajorFill`) holds the write-every-cell loops of the package's tests. They write every cell of a 2-D or 3-D buffer, and a read of any cell afterwards returns what was written there.
- `go_index.dfy` (module `GoIndex`) holds the index arithmetic as the Go code performs it, on unbounded signed integers. Go's `int` is 32 or 64 bits wide depending on the platform, and its wrap-around is not modelled. The lemmas bound their inputs below 2^15 in magnitude, where nothing wraps at either width and the results agree with Go's. It is used only for the findings below.

The model makes two preconditions explicit that the Go code does not check:

- Dimensions are `nat`.
- Each coordinate must lie in `[0, N_i)`.

Zero dimensions are accepted: the code builds an empty buffer and the model does the same. An empty buffer is valid, but `Ptr` cannot be taken on it.

`Len` and the `At` functions carry no contract of their own. They are the read side that the constructor and `Set` rows below speak about.

## Model

| member | source | states |
|---|---|---|
| `Fftw32.Array.constructor` | fftw32/array.go:28-31 | NewArray(n) allocates a fresh buffer with Len() == n, and every sample reads as the zero value |
| `Fftw32.Array.Set` | fftw32/array.go:19-21 | the new slice is the old one with position i replaced by x; At(i) then returns x, and every other position and the length are unchanged |
| `Fftw32.Array.Ptr` | fftw32/array.go:23-25 | defined only on a non-empty buffer; the pointer addresses the first sample, and all Len() samples are reachable from it in the same backing array |
| `Fftw32.Array2.constructor` | fftw32/array.go:59-62 | NewArray2(n0, n1) reports Dims() == (n0, n1), holds n0*n1 samples, is valid, and reads Zero at every in-range cell |
| `Fftw32.Array2.Dims` | fftw32/array.go:39-41 | on a valid buffer the product of the reported dimensions is the number of stored samples |
| `Fftw32.Array2.Index` | fftw32/array.go:51-53 | an in-range pair maps inside the slice, and the position decodes back to the same pair, so the map is injective |
| `Fftw32.Array2.Set` | fftw32/array.go:47-49 | exactly the slot of (i0, i1) is replaced; At(i0, i1) then returns x, every other in-range cell reads as before, and the shape and validity are kept |
| `Fftw32.Array2.Ptr` | fftw32/array.go:55-57 | defined only on a non-empty buffer; addresses sample 0, from which the whole slice is reachable |
| `Fftw32.Array3.constructor` | fftw32/array.go:90-93 | NewArray3(n0, n1, n2) reports Dims() == (n0, n1, n2), holds n0*n1*n2 samples, is valid, and reads Zero at every in-range cell |
| `Fftw32.Array3.Dims` | fftw32/array.go:70-72 | on a valid buffer the product of the three reported dimensions is the number of stored samples |
| `Fftw32.Array3.Index` | fftw32/array.go:86-88 | an in-range triple maps inside the slice and decodes back to the same triple |
| `Fftw32.Array3.Set` | fftw32/array.go:82-84 | exactly the slot of (i0, i1, i2) is replaced; At then returns x there and the old value at every other in-range cell; shape and validity are kept |
| `Fftw32.Array3.Ptr` | fftw32/array.go:74-76 | defined only on a non-empty buffer; addresses sample 0, from which the whole slice is reachable |
| `Layout.Index2InRange` | fftw32/array.go:51-53 | for 0 <= i0 < n0 and 0 <= i1 < n1 the row-major position lies below n0*n1 |
| `Layout.Index2Injective` | fftw32/array.go:51-53 | two pairs with in-range columns share a position if and only if they are the same pair |
| `Layout.Coords2` | fftw32/array.go:51-53 | every position below n0*n1 is the row-major position of some in-range pair (the map is onto) |
| `Layout.Coords2OfIndex2` | fftw32/array.go:51-53 | Coords2 undoes Index2 on every in-range pair, so with Coords2 the map is a bijection onto [0, n0*n1) |
| `Layout.UpdateAt2` | fftw32/array.go:43-53 | after writing x at the position of (i0, i1), the position of (j0, j1) reads x if the pairs are equal and its old sample otherwise |
| `Layout.RowMajorOrder2` | fftw32/fftw_test.go:39-45 | two nested loops, row outermost, visit the flat positions 0, 1, ..., n0*n1-1 in that order |
| `Layout.Index3Nested` | fftw32/array.go:86-88 | the 3-D map is the 2-D map applied twice (Horner nesting): first over rows of n1, then over rows of n2 |
| `Layout.Index3InRange` | fftw32/array.go:86-88 | an in-range triple lies below n0*n1*n2 |
| `Layout.Index3Injective` | fftw32/array.go:86-88 | two triples with in-range inner coordinates share a position if and only if they are equal |
| `Layout.Coords3` | fftw32/array.go:86-88 | every position below n0*n1*n2 is the position of some in-range triple |
| `Layout.Coords3OfIndex3` | fftw32/array.go:86-88 | Coords3 undoes Index3 on every in-range triple (bijection onto [0, n0*n1*n2)) |
| `Layout.UpdateAt3` | fftw32/array.go:78-88 | after writing x at one triple's position, every other in-range triple still reads its old sample |
| `Layout.RowMajorOrder3` | fftw32/fftw_test.go:70-78 | three nested loops, i0 outermost, visit the flat positions 0, 1, ..., n0*n1*n2-1 in that order |
| `RowMajorFill.Fill2` | fftw32/fftw_test.go:39-54 | writing f(i0, i1) to every cell in row-major order leaves every cell reading f(i0, i1), and the buffer stays valid |
| `RowMajorFill.Fill3` | fftw32/fftw_test.go:70-89 | writing f(i0, i1, i2) to every cell in row-major order leaves every cell reading f(i0, i1, i2) |
| `GoIndex.AcceptsOutOfRangeColumns` | fftw32/array.go:43-53 | for shapes below 2^15 per dimension (no wrap-around of a 32- or 64-bit `int`), Go's own check lets the pair (0, N1) pass and alias (1, 0), and (1, -1) pass and alias (0, N1-1) |
| `GoIndex.AcceptsNegativeShape` | fftw32/array.go:59-62 | two negative dimensions above -2^15 give a positive allocation length, so NewArray2 builds a non-empty buffer for them |

## Left out

- `fftw32/plan.go` is not part of this model. `NewPlan`, `NewPlan2` and `NewPlan3` are cgo calls into FFTW's plan constructors, and `Execute` is a bare foreign call. Plan construction is where `ptr` is called, so that is where the non-empty requirement on `Ptr` comes from. The process-wide creation/destruction mutex, pinning with `runtime.Pinner`, and the finalizer are concurrency and runtime features; they are not modelled. `Destroy`'s nil guard is left out along with them.
- Fourier-transform results are produced by the closed native library in floating point, so they are not modelled.
- The double-precision `fftw` package (`Slice` views, `NewArrayN`, `FFT`/`IFFT` helpers) is a separate package and is not modelled. The structured nested-slice view belongs to it and is not modelled either.
- Go `int` is 32 or 64 bits wide depending on the platform, so the product `n0*n1*n2` can overflow it. Dimensions are unbounded `nat` here.
- The memory-pressure / garbage-collection test is left out.
- Sample equality is equality of bit patterns. Go's `==` on `complex64` compares floats, where NaN differs from itself and +0 equals -0. This only matters when store/fetch results are compared by float equality, which the model does not do.
- `Elems` and the shape are exported Go fields, so a caller could reassign them and break the element count. The model keeps them tied together by `Valid()` and changes them only through the operations above.

## Findings

| source | as written | input that shows it | evidently intended | confidence | as-written member | corrected member |
|---|---|---|---|---|---|---|
| fftw32/array.go:43-53 | `At` and `Set` on `Array2` only bounds-check the flat position `i1 + N1*i0` against the slice length | shape (2, 3): `At(0, 3)` reads the cell of `(1, 0)`, and `At(1, -1)` reads the cell of `(0, 2)` | each coordinate must lie in `[0, N_i)`; an out-of-range coordinate is a caller error, not an alias of another cell | likely; not executed | `GoIndex.AcceptsOutOfRangeColumns` | `Layout.Index2Injective` |
| fftw32/array.go:59-62 | `NewArray2` multiplies the two dimensions without checking their sign | `NewArray2(-2, -3)` allocates 6 samples under the shape (-2, -3), which has no valid cell | dimensions are non-negative, and the sample count equals the product of the dimensions over a shape that has cells | likely; not executed | `GoIndex.AcceptsNegativeShape` | `Fftw32.Array2.constructor` |

`Array3` behaves the same way (fftw32/array.go:86-93): `At(0, 0, N2)` aliases `(0, 1, 0)`, and `NewArray3(-1, -1, 4)` allocates 4 samples. The 3-D model carries the same corrections: `Layout.Index3Injective` with per-coordinate bounds, and `Fftw32.Array3.constructor` with `nat` dimensions.
