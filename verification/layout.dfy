/** Row-major storage layout of the 2-D and 3-D buffers: the map from
    coordinates to a position in the flat sample slice (last coordinate
    fastest), its range, its injectivity, its inverse and the order in which
    nested loops visit the flat slice. */
module Layout {

  // ---------------------------------------------------------------------
  // Arithmetic helpers

  lemma MulMonotone(a: nat, b: nat, c: nat)
    requires a <= b
    ensures a * c <= b * c
  {
  }

  /** i < n0 and j < n1 put the row-major position strictly below n0 * n1. */
  lemma RowBelow(n0: nat, n1: nat, i0: nat, i1: nat)
    requires i0 < n0 && i1 < n1
    ensures i1 + n1 * i0 < n0 * n1
  {
    calc {
      i1 + n1 * i0;
    <
      n1 + n1 * i0;
    ==
      n1 * (i0 + 1);
    <= { MulMonotone(i0 + 1, n0, n1); }
      n0 * n1;
    }
  }

  // ---------------------------------------------------------------------
  // 2-D

  /** Flat position of (i0, i1) in a buffer whose rows have n1 samples. */
  function Index2(n1: nat, i0: nat, i1: nat): nat
  {
    i1 + n1 * i0
  }

  lemma Index2InRange(n0: nat, n1: nat, i0: nat, i1: nat)
    requires i0 < n0 && i1 < n1
    ensures Index2(n1, i0, i1) < n0 * n1
  {
    RowBelow(n0, n1, i0, i1);
  }

  /** Distinct in-range coordinate pairs occupy distinct flat positions. */
  lemma Index2Injective(n1: nat, i0: nat, i1: nat, j0: nat, j1: nat)
    requires i1 < n1 && j1 < n1
    ensures Index2(n1, i0, i1) == Index2(n1, j0, j1) <==> i0 == j0 && i1 == j1
  {
    if i0 < j0 {
      RowBelow(j0, n1, i0, i1);
      MulMonotone(j0, j0, n1);
    } else if j0 < i0 {
      RowBelow(i0, n1, j0, j1);
    }
  }

  /** The coordinates stored at flat position k: the inverse of Index2. */
  function Coords2(n0: nat, n1: nat, k: nat): (c: (nat, nat))
    requires k < n0 * n1
    ensures c.0 < n0 && c.1 < n1
    ensures Index2(n1, c.0, c.1) == k
  {
    QuotientBelow(n0, n1, k);
    (k / n1, k % n1)
  }

  lemma QuotientBelow(n0: nat, n1: nat, k: nat)
    requires k < n0 * n1
    ensures n1 > 0 && k / n1 < n0 && k % n1 + n1 * (k / n1) == k
  {
  }

  /** Coords2 recovers the coordinates Index2 was given: with Coords2's own
      ensures, Index2 is a bijection from the n0 x n1 grid onto [0, n0 * n1). */
  lemma Coords2OfIndex2(n0: nat, n1: nat, i0: nat, i1: nat)
    requires i0 < n0 && i1 < n1
    ensures Index2(n1, i0, i1) < n0 * n1
    ensures Coords2(n0, n1, Index2(n1, i0, i1)) == (i0, i1)
  {
    Index2InRange(n0, n1, i0, i1);
    var c := Coords2(n0, n1, Index2(n1, i0, i1));
    Index2Injective(n1, i0, i1, c.0, c.1);
  }

  /** Writing x at (i0, i1) of a flat n0 x n1 slice changes what is read at
      (j0, j1) only when the two coordinate pairs are the same. */
  lemma UpdateAt2<T>(s: seq<T>, n0: nat, n1: nat, i0: nat, i1: nat, j0: nat, j1: nat, x: T)
    requires |s| == n0 * n1
    requires i0 < n0 && i1 < n1 && j0 < n0 && j1 < n1
    ensures Index2(n1, i0, i1) < |s| && Index2(n1, j0, j1) < |s|
    ensures s[Index2(n1, i0, i1) := x][Index2(n1, j0, j1)]
         == if (i0, i1) == (j0, j1) then x else s[Index2(n1, j0, j1)]
  {
    Index2InRange(n0, n1, i0, i1);
    Index2InRange(n0, n1, j0, j1);
    Index2Injective(n1, i0, i1, j0, j1);
  }

  /** The flat positions visited by two nested loops, row index outermost. */
  method RowMajorOrder2(n0: nat, n1: nat) returns (visited: seq<nat>)
    ensures |visited| == n0 * n1
    ensures forall k :: 0 <= k < |visited| ==> visited[k] == k
  {
    visited := [];
    var i := 0;
    while i < n0
      invariant i <= n0
      invariant |visited| == n1 * i
      invariant forall k :: 0 <= k < |visited| ==> visited[k] == k
    {
      var j := 0;
      while j < n1
        invariant j <= n1
        invariant |visited| == j + n1 * i
        invariant forall k :: 0 <= k < |visited| ==> visited[k] == k
      {
        visited := visited + [Index2(n1, i, j)];
        j := j + 1;
      }
      i := i + 1;
    }
  }

  // ---------------------------------------------------------------------
  // 3-D

  /** Flat position of (i0, i1, i2) for shape (_, n1, n2), Horner-nested. */
  function Index3(n1: nat, n2: nat, i0: nat, i1: nat, i2: nat): nat
  {
    i2 + n2 * (i1 + i0 * n1)
  }

  /** The 3-D map is the 2-D map applied twice: first to (i0, i1) over rows
      of n1, then to (that, i2) over rows of n2. */
  lemma Index3Nested(n1: nat, n2: nat, i0: nat, i1: nat, i2: nat)
    ensures Index3(n1, n2, i0, i1, i2) == Index2(n2, Index2(n1, i0, i1), i2)
  {
  }

  lemma Index3InRange(n0: nat, n1: nat, n2: nat, i0: nat, i1: nat, i2: nat)
    requires i0 < n0 && i1 < n1 && i2 < n2
    ensures Index3(n1, n2, i0, i1, i2) < n0 * n1 * n2
  {
    Index2InRange(n0, n1, i0, i1);
    Index2InRange(n0 * n1, n2, Index2(n1, i0, i1), i2);
    Index3Nested(n1, n2, i0, i1, i2);
  }

  lemma Index3Injective(n1: nat, n2: nat, i0: nat, i1: nat, i2: nat, j0: nat, j1: nat, j2: nat)
    requires i1 < n1 && i2 < n2 && j1 < n1 && j2 < n2
    ensures Index3(n1, n2, i0, i1, i2) == Index3(n1, n2, j0, j1, j2)
        <==> i0 == j0 && i1 == j1 && i2 == j2
  {
    Index3Nested(n1, n2, i0, i1, i2);
    Index3Nested(n1, n2, j0, j1, j2);
    Index2Injective(n2, Index2(n1, i0, i1), i2, Index2(n1, j0, j1), j2);
    Index2Injective(n1, i0, i1, j0, j1);
  }

  /** The coordinates stored at flat position k: the inverse of Index3. */
  function Coords3(n0: nat, n1: nat, n2: nat, k: nat): (c: (nat, nat, nat))
    requires k < n0 * n1 * n2
    ensures c.0 < n0 && c.1 < n1 && c.2 < n2
    ensures Index3(n1, n2, c.0, c.1, c.2) == k
  {
    var outer := Coords2(n0 * n1, n2, k);
    var inner := Coords2(n0, n1, outer.0);
    Index3Nested(n1, n2, inner.0, inner.1, outer.1);
    (inner.0, inner.1, outer.1)
  }

  lemma Coords3OfIndex3(n0: nat, n1: nat, n2: nat, i0: nat, i1: nat, i2: nat)
    requires i0 < n0 && i1 < n1 && i2 < n2
    ensures Index3(n1, n2, i0, i1, i2) < n0 * n1 * n2
    ensures Coords3(n0, n1, n2, Index3(n1, n2, i0, i1, i2)) == (i0, i1, i2)
  {
    Index3InRange(n0, n1, n2, i0, i1, i2);
    var c := Coords3(n0, n1, n2, Index3(n1, n2, i0, i1, i2));
    Index3Injective(n1, n2, i0, i1, i2, c.0, c.1, c.2);
  }

  /** Writing x at (i0, i1, i2) changes what is read at (j0, j1, j2) only
      when the two coordinate triples are the same. */
  lemma UpdateAt3<T>(s: seq<T>, n0: nat, n1: nat, n2: nat,
                     i0: nat, i1: nat, i2: nat, j0: nat, j1: nat, j2: nat, x: T)
    requires |s| == n0 * n1 * n2
    requires i0 < n0 && i1 < n1 && i2 < n2 && j0 < n0 && j1 < n1 && j2 < n2
    ensures Index3(n1, n2, i0, i1, i2) < |s| && Index3(n1, n2, j0, j1, j2) < |s|
    ensures s[Index3(n1, n2, i0, i1, i2) := x][Index3(n1, n2, j0, j1, j2)]
         == if (i0, i1, i2) == (j0, j1, j2) then x else s[Index3(n1, n2, j0, j1, j2)]
  {
    Index3InRange(n0, n1, n2, i0, i1, i2);
    Index3InRange(n0, n1, n2, j0, j1, j2);
    Index3Injective(n1, n2, i0, i1, i2, j0, j1, j2);
  }

  /** The flat positions visited by three nested loops, i0 outermost. */
  method RowMajorOrder3(n0: nat, n1: nat, n2: nat) returns (visited: seq<nat>)
    ensures |visited| == n0 * n1 * n2
    ensures forall k :: 0 <= k < |visited| ==> visited[k] == k
  {
    visited := [];
    var i := 0;
    while i < n0
      invariant i <= n0
      invariant |visited| == n2 * (i * n1)
      invariant forall k :: 0 <= k < |visited| ==> visited[k] == k
    {
      var j := 0;
      while j < n1
        invariant j <= n1
        invariant |visited| == n2 * (j + i * n1)
        invariant forall k :: 0 <= k < |visited| ==> visited[k] == k
      {
        var l := 0;
        while l < n2
          invariant l <= n2
          invariant |visited| == l + n2 * (j + i * n1)
          invariant forall k :: 0 <= k < |visited| ==> visited[k] == k
        {
          visited := visited + [Index3(n1, n2, i, j, l)];
          l := l + 1;
        }
        j := j + 1;
      }
      i := i + 1;
    }
  }
}
