/**
  Reference definition of the erosion engine's roughness score
  (ErosionManager::calculateScore): the slope of a cell is the largest
  absolute height difference to its four von Neumann neighbours, taken over
  the cells 2 .. width - 3 of both axes; the mean slope and the variance of
  the slopes both divide by the full grid size width * width; the score is
  the standard deviation over the mean. The square root is a parameter.
 */
module Roughness {
  import opened Layout

  datatype Option<T> = None | Some(value: T)

  /** Cell (z, x) is one the score looks at: 2 <= z, x < w - 2. */
  predicate Scored(w: int, z: int, x: int)
  {
    2 <= z < w - 2 && 2 <= x < w - 2
  }

  /** The largest absolute height difference between cell (z, x) and its four von Neumann neighbours. */
  function Slope(w: nat, h: seq<real>, z: int, x: int): (r: real)
    requires |h| == w * w && Scored(w, z, x)
    ensures r >= 0.0
  {
    var i := Cell(w, z, x);
    NeighbourCells(w, z, x);
    var c := h[i];
    Max(Max(Abs(c - h[i + w]), Abs(c - h[i - w])), Max(Abs(c - h[i + 1]), Abs(c - h[i - 1])))
  }

  /** The four von Neumann neighbours of a scored cell lie w and 1 cells either side of it. */
  lemma NeighbourCells(w: nat, z: int, x: int)
    requires Scored(w, z, x)
    ensures Cell(w, z + 1, x) == Cell(w, z, x) + w && Cell(w, z - 1, x) == Cell(w, z, x) - w
    ensures Cell(w, z, x + 1) == Cell(w, z, x) + 1 && Cell(w, z, x - 1) == Cell(w, z, x) - 1
  {
    assert (z + 1) * w == z * w + w;
    assert (z - 1) * w == z * w - w;
  }

  /** The slope bounds each of the four absolute differences and is one of them. */
  lemma SlopeIsLargestDifference(w: nat, h: seq<real>, z: int, x: int)
    requires |h| == w * w && Scored(w, z, x)
    ensures var c := h[Cell(w, z, x)]; var r := Slope(w, h, z, x);
            Abs(c - h[Cell(w, z + 1, x)]) <= r && Abs(c - h[Cell(w, z - 1, x)]) <= r &&
            Abs(c - h[Cell(w, z, x + 1)]) <= r && Abs(c - h[Cell(w, z, x - 1)]) <= r
    ensures var c := h[Cell(w, z, x)]; var r := Slope(w, h, z, x);
            r == Abs(c - h[Cell(w, z + 1, x)]) || r == Abs(c - h[Cell(w, z - 1, x)]) ||
            r == Abs(c - h[Cell(w, z, x + 1)]) || r == Abs(c - h[Cell(w, z, x - 1)])
  {
    NeighbourCells(w, z, x);
  }

  /** Where a score loop `for (i = 2; i < n; i++)` stands when it ends. */
  function Stop(n: int): int
  {
    if n > 2 then n else 2
  }

  /** Sum of the slopes of cells (z, 2) .. (z, x - 1). */
  function RowSlopes(w: nat, h: seq<real>, z: int, x: int): real
    requires |h| == w * w && 2 <= z < w - 2 && 2 <= x <= w - 2
    decreases x
  {
    if x == 2 then 0.0 else RowSlopes(w, h, z, x - 1) + Slope(w, h, z, x - 1)
  }

  /** Sum of the slopes of rows 2 .. z - 1. */
  function SlopesBefore(w: nat, h: seq<real>, z: int): real
    requires |h| == w * w && 2 <= z <= Stop(w - 2)
    decreases z
  {
    if z == 2 then 0.0 else SlopesBefore(w, h, z - 1) + RowSlopes(w, h, z - 1, w - 2)
  }

  /** The sum of every scored cell's slope. */
  function TotalSlope(w: nat, h: seq<real>): real
    requires |h| == w * w
  {
    SlopesBefore(w, h, Stop(w - 2))
  }

  /** The mean slope, over the full grid size. */
  function Mean(w: nat, h: seq<real>): real
    requires |h| == w * w && w >= 1
  {
    MulMono(1, w, w);
    TotalSlope(w, h) / ((w * w) as real)
  }

  function Sq(a: real): real
  {
    a * a
  }

  /** Sum of the squared deviations from m of the slopes of cells (z, 2) .. (z, x - 1). */
  function RowVariance(w: nat, h: seq<real>, m: real, z: int, x: int): real
    requires |h| == w * w && 2 <= z < w - 2 && 2 <= x <= w - 2
    decreases x
  {
    if x == 2 then 0.0 else RowVariance(w, h, m, z, x - 1) + Sq(Slope(w, h, z, x - 1) - m)
  }

  /** Sum of the squared deviations from m of the slopes of rows 2 .. z - 1. */
  function VarianceBefore(w: nat, h: seq<real>, m: real, z: int): real
    requires |h| == w * w && 2 <= z <= Stop(w - 2)
    decreases z
  {
    if z == 2 then 0.0 else VarianceBefore(w, h, m, z - 1) + RowVariance(w, h, m, z - 1, w - 2)
  }

  /** The total variance: squared deviations of every scored cell's slope from m. */
  function TotalVariance(w: nat, h: seq<real>, m: real): real
    requires |h| == w * w
  {
    VarianceBefore(w, h, m, Stop(w - 2))
  }

  /**
    The score: the standard deviation sqrt(total variance / size) over the
    mean. With a zero mean the engine divides by zero; the model has no
    score then.
   */
  function Score(w: nat, h: seq<real>, sqrt: real -> real): Option<real>
    requires |h| == w * w && w >= 1
  {
    var m := Mean(w, h);
    if m == 0.0 then None else Some(sqrt(TotalVariance(w, h, m) / ((w * w) as real)) / m)
  }

  // ---------------------------------------------------------------------------
  // The slope map

  /** Row zz of slope map s holds the slope of each of its scored cells. */
  ghost predicate RowFilled(w: nat, h: seq<real>, s: seq<real>, zz: int)
    requires |h| == w * w && |s| == w * w && 2 <= zz < w - 2
  {
    forall xx :: 2 <= xx < w - 2 ==> s[Cell(w, zz, xx)] == Slope(w, h, zz, xx)
  }

  /** Rows 2 .. z - 1 of slope map s hold their slopes. */
  ghost predicate SlopesFilled(w: nat, h: seq<real>, s: seq<real>, z: int)
    requires |h| == w * w && |s| == w * w
  {
    forall zz, xx :: 2 <= zz < z && zz < w - 2 && 2 <= xx < w - 2 ==> s[Cell(w, zz, xx)] == Slope(w, h, zz, xx)
  }

  /** A map that agrees with s before row z keeps the filled rows of s. */
  lemma FilledKept(w: nat, h: seq<real>, s: seq<real>, t: seq<real>, z: int)
    requires |h| == w * w && |s| == w * w && |t| == w * w && 2 <= z <= w - 2
    requires SlopesFilled(w, h, s, z)
    requires 0 <= Idx(w, z, 0) <= w * w && t[..Idx(w, z, 0)] == s[..Idx(w, z, 0)]
    ensures SlopesFilled(w, h, t, z)
  {
    var n := Idx(w, z, 0);
    forall zz, xx | 2 <= zz < z && zz < w - 2 && 2 <= xx < w - 2
      ensures t[Cell(w, zz, xx)] == Slope(w, h, zz, xx)
    {
      RowsBeforeStart(w, zz, xx, z);
      var i := Cell(w, zz, xx);
      assert t[..n][i] == s[..n][i];
    }
  }

  // ---------------------------------------------------------------------------
  // Properties of the score

  lemma {:induction false} RowSlopesNonNegative(w: nat, h: seq<real>, z: int, x: int)
    requires |h| == w * w && 2 <= z < w - 2 && 2 <= x <= w - 2
    ensures RowSlopes(w, h, z, x) >= 0.0
    decreases x
  {
    if x > 2 {
      RowSlopesNonNegative(w, h, z, x - 1);
    }
  }

  lemma {:induction false} SlopesBeforeNonNegative(w: nat, h: seq<real>, z: int)
    requires |h| == w * w && 2 <= z <= Stop(w - 2)
    ensures SlopesBefore(w, h, z) >= 0.0
    decreases z
  {
    if z > 2 {
      SlopesBeforeNonNegative(w, h, z - 1);
      RowSlopesNonNegative(w, h, z - 1, w - 2);
    }
  }

  /** Slopes are absolute differences, so the mean slope is never negative. */
  lemma MeanNonNegative(w: nat, h: seq<real>)
    requires |h| == w * w && w >= 1
    ensures Mean(w, h) >= 0.0
  {
    SlopesBeforeNonNegative(w, h, Stop(w - 2));
  }

  lemma {:induction false} RowVarianceNonNegative(w: nat, h: seq<real>, m: real, z: int, x: int)
    requires |h| == w * w && 2 <= z < w - 2 && 2 <= x <= w - 2
    ensures RowVariance(w, h, m, z, x) >= 0.0
    decreases x
  {
    if x > 2 {
      RowVarianceNonNegative(w, h, m, z, x - 1);
      var d := Slope(w, h, z, x - 1) - m;
      assert Sq(d) >= 0.0 by {
        if d < 0.0 { assert Sq(d) == (-d) * (-d); }
      }
    }
  }

  /** A sum of squares: the total variance is never negative, whatever the mean. */
  lemma {:induction false} VarianceNonNegative(w: nat, h: seq<real>, m: real, z: int)
    requires |h| == w * w && 2 <= z <= Stop(w - 2)
    ensures VarianceBefore(w, h, m, z) >= 0.0
    decreases z
  {
    if z > 2 {
      VarianceNonNegative(w, h, m, z - 1);
      RowVarianceNonNegative(w, h, m, z - 1, w - 2);
    }
  }

  /** Every cell of the height map has height c. */
  predicate Flat(h: seq<real>, c: real)
  {
    forall i :: 0 <= i < |h| ==> h[i] == c
  }

  lemma {:induction false} FlatRowZero(w: nat, h: seq<real>, c: real, z: int, x: int)
    requires |h| == w * w && Flat(h, c) && 2 <= z < w - 2 && 2 <= x <= w - 2
    ensures RowSlopes(w, h, z, x) == 0.0
    decreases x
  {
    if x > 2 {
      FlatRowZero(w, h, c, z, x - 1);
      NeighbourCells(w, z, x - 1);
      assert Slope(w, h, z, x - 1) == 0.0;
    }
  }

  lemma {:induction false} FlatSlopesZero(w: nat, h: seq<real>, c: real, z: int)
    requires |h| == w * w && Flat(h, c) && 2 <= z <= Stop(w - 2)
    ensures SlopesBefore(w, h, z) == 0.0
    decreases z
  {
    if z > 2 {
      FlatSlopesZero(w, h, c, z - 1);
      FlatRowZero(w, h, c, z - 1, w - 2);
    }
  }

  /** A flat grid has every slope 0, hence mean slope 0, and the engine's score divides by zero. */
  lemma FlatHasNoScore(w: nat, h: seq<real>, c: real, sqrt: real -> real)
    requires |h| == w * w && w >= 1 && Flat(h, c)
    ensures Mean(w, h) == 0.0 && Score(w, h, sqrt) == None
  {
    FlatSlopesZero(w, h, c, Stop(w - 2));
  }

  /** Grids narrower than five cells have no scored cell, so no score either. */
  lemma NarrowHasNoScore(w: nat, h: seq<real>, sqrt: real -> real)
    requires |h| == w * w && 1 <= w < 5
    ensures Score(w, h, sqrt) == None
  {
  }

  // ---------------------------------------------------------------------------
  // The score loops

  /**
    The score of heightmap h of a w-by-w grid, as the engine computes it: a
    slope map of the scored cells with the running total of the slopes, the
    mean over the grid size, the running total of the squared deviations,
    and the standard deviation over the mean. h does not change.
   */
  method GridScore(h: array<real>, w: nat, sqrt: real -> real) returns (score: Option<real>)
    requires h.Length == w * w && w >= 1
    ensures score == Score(w, h[..], sqrt)
  {
    var slopeMap := new real[w * w];
    var totalHeight := SlopeLoop(h, w, slopeMap);
    MulMono(1, w, w);
    var mean := totalHeight / ((w * w) as real);
    var totalVariance := VarianceLoop(h, w, slopeMap, mean);
    if mean == 0.0 {
      score := None;
    } else {
      score := Some(sqrt(totalVariance / ((w * w) as real)) / mean);
    }
  }

  /** The slope loop: fills every scored row of the slope map and returns the total slope. */
  method SlopeLoop(h: array<real>, w: nat, slopeMap: array<real>) returns (totalHeight: real)
    requires h.Length == w * w && slopeMap.Length == w * w && slopeMap != h
    modifies slopeMap
    ensures totalHeight == TotalSlope(w, h[..])
    ensures SlopesFilled(w, h[..], slopeMap[..], w - 2)
  {
    totalHeight := 0.0;
    var z := 2;
    while z < w - 2
      invariant 2 <= z <= Stop(w - 2)
      invariant totalHeight == SlopesBefore(w, h[..], z)
      invariant SlopesFilled(w, h[..], slopeMap[..], z)
    {
      totalHeight := SlopeRow(h, w, z, slopeMap, totalHeight);
      z := z + 1;
    }
  }

  /** Row z of the slope loop: writes the slope of each scored cell of the row and adds it to the total. */
  method SlopeRow(h: array<real>, w: nat, z: int, slopeMap: array<real>, totalHeight: real) returns (totalHeight': real)
    requires h.Length == w * w && slopeMap.Length == w * w && slopeMap != h && 2 <= z < w - 2
    requires SlopesFilled(w, h[..], slopeMap[..], z)
    modifies slopeMap
    ensures totalHeight' == totalHeight + RowSlopes(w, h[..], z, w - 2)
    ensures SlopesFilled(w, h[..], slopeMap[..], z + 1)
  {
    ghost var hs := h[..];
    ghost var s0 := slopeMap[..];
    totalHeight' := RowSlopeLoop(h, w, z, slopeMap, totalHeight);
    FilledKept(w, hs, s0, slopeMap[..], z);
  }

  /** The column loop of one scored row: the row's slopes are written and summed, and nothing before the row changes. */
  method RowSlopeLoop(h: array<real>, w: nat, z: int, slopeMap: array<real>, totalHeight: real) returns (totalHeight': real)
    requires h.Length == w * w && slopeMap.Length == w * w && slopeMap != h && 2 <= z < w - 2
    modifies slopeMap
    ensures totalHeight' == totalHeight + RowSlopes(w, h[..], z, w - 2)
    ensures 0 <= Idx(w, z, 0) <= w * w && slopeMap[..Idx(w, z, 0)] == old(slopeMap[..Idx(w, z, 0)])
    ensures RowFilled(w, h[..], slopeMap[..], z)
  {
    ghost var hs := h[..];
    ghost var s0 := slopeMap[..];
    ghost var start := Idx(w, z, 0);
    IdxInRange(w, w, z, 0);
    totalHeight' := totalHeight;
    var x := 2;
    while x < w - 2
      invariant 2 <= x <= w - 2 && h[..] == hs
      invariant totalHeight' == totalHeight + RowSlopes(w, hs, z, x)
      invariant forall i :: 0 <= i < start ==> slopeMap[i] == s0[i]
      invariant forall xx :: 2 <= xx < x ==> slopeMap[start + xx] == Slope(w, hs, z, xx)
    {
      var slope := CellSlope(h, w, z, x);
      slopeMap[Cell(w, z, x)] := slope;
      totalHeight' := totalHeight' + slope;
      x := x + 1;
    }
    assert slopeMap[..start] == s0[..start];
  }

  /** The slope of scored cell (z, x): the largest absolute difference to its four von Neumann neighbours. */
  method CellSlope(h: array<real>, w: nat, z: int, x: int) returns (slope: real)
    requires h.Length == w * w && Scored(w, z, x)
    ensures slope == Slope(w, h[..], z, x)
  {
    var cellHeight := h[Cell(w, z, x)];
    slope := Max(Max(Abs(cellHeight - h[Cell(w, z + 1, x)]), Abs(cellHeight - h[Cell(w, z - 1, x)])),
                 Max(Abs(cellHeight - h[Cell(w, z, x + 1)]), Abs(cellHeight - h[Cell(w, z, x - 1)])));
  }

  /** The variance loop: the total squared deviation of the filled slope map from the mean. */
  method VarianceLoop(h: array<real>, w: nat, slopeMap: array<real>, mean: real) returns (totalVariance: real)
    requires h.Length == w * w && slopeMap.Length == w * w
    requires SlopesFilled(w, h[..], slopeMap[..], w - 2)
    ensures totalVariance == TotalVariance(w, h[..], mean)
  {
    totalVariance := 0.0;
    var z := 2;
    while z < w - 2
      invariant 2 <= z <= Stop(w - 2)
      invariant totalVariance == VarianceBefore(w, h[..], mean, z)
    {
      totalVariance := VarianceRow(h, w, z, slopeMap, mean, totalVariance);
      z := z + 1;
    }
  }

  /** Row z of the variance loop: adds the squared deviation of each scored cell's slope from the mean. */
  method VarianceRow(h: array<real>, w: nat, z: int, slopeMap: array<real>, mean: real, totalVariance: real)
    returns (totalVariance': real)
    requires h.Length == w * w && slopeMap.Length == w * w && 2 <= z < w - 2
    requires RowFilled(w, h[..], slopeMap[..], z)
    ensures totalVariance' == totalVariance + RowVariance(w, h[..], mean, z, w - 2)
  {
    totalVariance' := totalVariance;
    var x := 2;
    while x < w - 2
      invariant 2 <= x <= w - 2
      invariant totalVariance' == totalVariance + RowVariance(w, h[..], mean, z, x)
    {
      var d := slopeMap[Cell(w, z, x)] - mean;
      assert d == Slope(w, h[..], z, x) - mean;
      totalVariance' := totalVariance' + Sq(d);
      x := x + 1;
    }
  }
}
