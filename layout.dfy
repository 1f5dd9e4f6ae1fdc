/**
  Row-major square grids shared by the erosion engine, the terrain and the
  height meshes: cell (z, x) of a grid whose rows are `w` cells long lives at
  flat index z * w + x.
 */
module Layout {

  /** Flat row-major index of cell (z, x). */
  function Idx(w: int, z: int, x: int): int
  {
    z * w + x
  }

  /** Cell (z, x) lies in a `rows` by `w` grid. */
  predicate InGrid(w: int, rows: int, z: int, x: int)
  {
    0 <= z < rows && 0 <= x < w
  }

  /** Cell (z, x) is strictly inside the one-cell boundary ring of a w-by-w grid. */
  predicate Interior(w: int, z: int, x: int)
  {
    1 <= z < w - 1 && 1 <= x < w - 1
  }

  /** Flat index i names an interior cell of a w-by-w grid. */
  predicate InteriorIndex(w: nat, i: int)
  {
    w > 0 && 0 <= i && Interior(w, i / w, i % w)
  }

  lemma MulMono(a: int, b: int, w: int)
    requires a <= b && 0 <= w
    ensures a * w <= b * w
  {
    assert b * w - a * w == (b - a) * w;
  }

  /** Every cell of a `rows`-by-`w` grid has a flat index inside the buffer. */
  lemma IdxInRange(w: int, rows: int, z: int, x: int)
    requires InGrid(w, rows, z, x)
    ensures 0 <= Idx(w, z, x) < rows * w
  {
    MulMono(0, z, w);
    MulMono(z + 1, rows, w);
    assert (z + 1) * w == z * w + w;
  }

  /** One past the last cell of row z is the first cell of row z + 1. */
  lemma IdxNextRow(w: int, z: int)
    ensures Idx(w, z, w) == Idx(w, z + 1, 0)
  {
    assert (z + 1) * w == z * w + w;
  }

  /** One past the last cell of a `rows`-by-`w` grid is its size. */
  lemma IdxEnd(w: int, rows: int)
    ensures Idx(w, rows, 0) == w * rows
  {
    assert rows * w == w * rows;
  }

  /** Upper bound of a loop `for (i = 1; i < n; i++)`: where i stands when the loop ends. */
  function Span(n: int): int
  {
    if n > 1 then n else 1
  }

  /** Flat index of a cell of a w-by-w grid, with its bound. */
  function Cell(w: nat, z: int, x: int): (r: nat)
    requires InGrid(w, w, z, x)
    ensures r < w * w && r == Idx(w, z, x)
  {
    IdxInRange(w, w, z, x);
    Idx(w, z, x)
  }

  /** The row-major layout is a bijection: row and column are recovered by / and %. */
  lemma {:induction false} DivMod(w: int, z: int, x: int)
    requires 0 <= x < w
    ensures Idx(w, z, x) / w == z && Idx(w, z, x) % w == x
  {
    var i := Idx(w, z, x);
    var q, r := i / w, i % w;
    assert q * w + r == z * w + x;
    assert (q - z) * w == x - r;
    if q > z {
      MulMono(1, q - z, w);
      assert false;
    } else if q < z {
      MulMono(1, z - q, w);
      assert false;
    }
  }

  /** A non-negative a below n * d has its quotient by d below n. */
  lemma DivBelow(a: int, d: int, n: int)
    requires d > 0 && 0 <= a < n * d
    ensures 0 <= a / d < n
  {
    var q := a / d;
    assert a == q * d + a % d;
    if q >= n {
      MulMono(n, q, d);
      assert false;
    } else if q < 0 {
      MulMono(q, -1, d);
      assert false;
    }
  }

  /** Two cells of a grid with rows of length w share a flat index only if they are the same cell. */
  lemma IdxInjective(w: int, z1: int, x1: int, z2: int, x2: int)
    requires 0 <= x1 < w && 0 <= x2 < w
    requires Idx(w, z1, x1) == Idx(w, z2, x2)
    ensures z1 == z2 && x1 == x2
  {
    DivMod(w, z1, x1);
    DivMod(w, z2, x2);
  }

  /** Interior flat indices lie strictly between the first row and the last row. */
  lemma InteriorIndexBounds(w: nat, i: int)
    requires InteriorIndex(w, i)
    ensures w >= 3 && w + 1 <= i < Idx(w, w - 1, 1)
    ensures i == Idx(w, i / w, i % w)
  {
    var q, r := i / w, i % w;
    MulMono(1, q, w);
    MulMono(q, w - 2, w);
    assert (w - 2) * w + w == (w - 1) * w;
  }

  /** The interior predicate on flat indices agrees with the one on coordinates. */
  lemma InteriorIndexIff(w: nat, z: int, x: int)
    requires 0 <= x < w
    ensures InteriorIndex(w, Idx(w, z, x)) <==> (z >= 0 && Interior(w, z, x))
  {
    DivMod(w, z, x);
    if z >= 0 {
      MulMono(0, z, w);
    } else {
      MulMono(z, -1, w);
    }
  }

  /** The flat indices before cell (1, 1) are the first row and cell (1, 0): none is interior. */
  lemma RingBeforeFirst(w: nat, i: int)
    requires w >= 2 && 0 <= i < Idx(w, 1, 1)
    ensures !InteriorIndex(w, i)
  {
    if i < w {
      DivMod(w, 0, i);
    } else {
      DivMod(w, 1, 0);
    }
  }

  /** Every cell of the rows before row z has a flat index below the start of row z. */
  lemma RowsBeforeStart(w: nat, zz: int, xx: int, z: int)
    requires 0 <= zz < z && 0 <= xx < w
    ensures Idx(w, zz, xx) < Idx(w, z, 0)
  {
    MulMono(zz + 1, z, w);
    assert (zz + 1) * w == zz * w + w;
  }

  /** Between the last interior cell of row z and the first of row z + 1 lie cells (z, w - 1) and (z + 1, 0). */
  lemma RingBetweenRows(w: nat, z: int, i: int)
    requires 1 <= z < w - 1 && Idx(w, z, w - 1) <= i < Idx(w, z + 1, 1)
    ensures !InteriorIndex(w, i)
  {
    IdxNextRow(w, z);
    if i == Idx(w, z, w - 1) {
      DivMod(w, z, w - 1);
    } else {
      DivMod(w, z + 1, 0);
    }
  }

  /** After the last interior row only the last row is left: none of it is interior. */
  lemma RingAfterLast(w: nat, i: int)
    requires w >= 2 && Idx(w, Span(w - 1), 1) <= i < w * w
    ensures !InteriorIndex(w, i)
  {
    var z := Span(w - 1);
    assert w * w == Idx(w, z, 0) + w by {
      assert z == w - 1;
    }
    DivMod(w, z, i - Idx(w, z, 0));
  }

  /** Sum of a sequence of reals, accumulated from the front. */
  function Sum(s: seq<real>): real
  {
    if |s| == 0 then 0.0 else Sum(s[..|s| - 1]) + s[|s| - 1]
  }

  /** Overwriting one element changes the sum by exactly the difference. */
  lemma {:induction false} SumUpdate(s: seq<real>, j: int, v: real)
    requires 0 <= j < |s|
    ensures Sum(s[j := v]) == Sum(s) - s[j] + v
  {
    var t := s[j := v];
    var n := |s| - 1;
    if j == n {
      assert t[..n] == s[..n];
    } else {
      assert t[..n] == s[..n][j := v];
      SumUpdate(s[..n], j, v);
    }
  }

  /** Scatter-add: adding v into one element adds v to the sum. */
  lemma SumAdd(s: seq<real>, j: int, v: real)
    requires 0 <= j < |s|
    ensures Sum(s[j := s[j] + v]) == Sum(s) + v
  {
    SumUpdate(s, j, s[j] + v);
  }

  /** Sums are monotone in every element. */
  lemma {:induction false} SumMono(a: seq<real>, b: seq<real>)
    requires |a| == |b| && forall i :: 0 <= i < |a| ==> a[i] <= b[i]
    ensures Sum(a) <= Sum(b)
  {
    if |a| > 0 {
      var n := |a| - 1;
      assert forall i :: 0 <= i < n ==> a[..n][i] == a[i] && b[..n][i] == b[i];
      SumMono(a[..n], b[..n]);
    }
  }

  function Abs(a: real): (r: real)
    ensures r >= 0.0 && (r == a || r == -a)
  {
    if a < 0.0 then -a else a
  }

  function Min(a: real, b: real): (r: real)
    ensures r <= a && r <= b && (r == a || r == b)
  {
    if b < a then b else a
  }

  function Max(a: real, b: real): (r: real)
    ensures r >= a && r >= b && (r == a || r == b)
  {
    if a < b then b else a
  }
}
