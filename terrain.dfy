/**
  The CPU side of the terrain (class Terrain in terrain.cpp): the heightmap,
  water and altitude vectors of a width-by-width grid, the generation of the
  heightmap from noise with the running maximum height, the placement of
  trees on a coarse lattice and their filtering by a grass weight, the 3x3
  smoothing of the water surface, the altitude copy, and the upload flags.

  The noise that gives an interior cell its height, the `rand()` draw of a
  tree candidate and the grass weight of a tree's cell are oracles: the
  methods take them as functions.
 */
module Terrains {
  import opened Layout
  import opened Vectors
  import opened Meshes

  /** Tree candidates lie on a lattice of every fourth row and column. */
  const TreeMinDistance: int := 4
  /** A candidate gets a tree when its `rand()` draw is a multiple of this. */
  const TreeChance: int := 10
  /** Only cells lower than this can hold a tree. */
  const TreeLine: real := 85.0
  /** A tree stands this far below its cell's height. */
  const TreeSink: real := 0.2
  /** A tree whose cell's grass weight is below this is removed. */
  const GrassThreshold: real := 0.5

  // ---------------------------------------------------------------------------
  // Heightmap generation

  /** Height of flat cell i after generation: the noise height on interior cells, 0 on the boundary ring. */
  function GeneratedHeight(w: nat, noise: (int, int) -> real, i: int): real
  {
    if InteriorIndex(w, i) then noise(i / w, i % w) else 0.0
  }

  /** The heightmap once the generation loop has passed flat indices 0 .. n - 1 of a zeroed grid. */
  function HeightsUpTo(w: nat, noise: (int, int) -> real, n: int): (r: seq<real>)
    ensures |r| == w * w
  {
    seq(w * w, i => if i < n then GeneratedHeight(w, noise, i) else 0.0)
  }

  /** The generated heightmap. */
  function Heights(w: nat, noise: (int, int) -> real): (r: seq<real>)
    ensures |r| == w * w
  {
    HeightsUpTo(w, noise, w * w)
  }

  /** The running maximum `if (height > max) max = height` over the interior cells among indices 0 .. n - 1, from 0. */
  function MaxUpTo(w: nat, noise: (int, int) -> real, n: int): real
    requires n >= 0
    decreases n
  {
    if n == 0 then 0.0
    else
      var m := MaxUpTo(w, noise, n - 1);
      if InteriorIndex(w, n - 1) && GeneratedHeight(w, noise, n - 1) > m then GeneratedHeight(w, noise, n - 1) else m
  }

  /** The generated maximum height. */
  function MaxHeight(w: nat, noise: (int, int) -> real): real
  {
    MaxUpTo(w, noise, w * w)
  }

  /** The running maximum is the largest of 0 and the interior heights met so far, and one of them. */
  lemma {:induction false} MaxUpToIsMax(w: nat, noise: (int, int) -> real, n: int)
    requires n >= 0
    ensures MaxUpTo(w, noise, n) >= 0.0
    ensures forall i :: 0 <= i < n && InteriorIndex(w, i) ==> GeneratedHeight(w, noise, i) <= MaxUpTo(w, noise, n)
    ensures MaxUpTo(w, noise, n) == 0.0 ||
            exists i :: 0 <= i < n && InteriorIndex(w, i) && GeneratedHeight(w, noise, i) == MaxUpTo(w, noise, n)
    decreases n
  {
    if n > 0 {
      MaxUpToIsMax(w, noise, n - 1);
      var m := MaxUpTo(w, noise, n - 1);
      if MaxUpTo(w, noise, n) != 0.0 && MaxUpTo(w, noise, n) == m {
        var i :| 0 <= i < n - 1 && InteriorIndex(w, i) && GeneratedHeight(w, noise, i) == m;
        assert 0 <= i < n && InteriorIndex(w, i) && GeneratedHeight(w, noise, i) == MaxUpTo(w, noise, n);
      }
    }
  }

  /** maxHeight is the largest of 0 and the interior heights of the generated map, and one of them. */
  lemma MaxHeightIsMax(w: nat, noise: (int, int) -> real)
    ensures var m := MaxHeight(w, noise); var h := Heights(w, noise);
            m >= 0.0 &&
            (forall i :: 0 <= i < w * w && InteriorIndex(w, i) ==> h[i] <= m) &&
            (m == 0.0 || exists i :: 0 <= i < w * w && InteriorIndex(w, i) && h[i] == m)
  {
    MaxUpToIsMax(w, noise, w * w);
    var m := MaxHeight(w, noise);
    if m != 0.0 {
      var i :| 0 <= i < w * w && InteriorIndex(w, i) && GeneratedHeight(w, noise, i) == m;
      assert Heights(w, noise)[i] == m;
    }
  }

  /** The boundary ring of the generated heightmap is 0, and each interior cell holds its noise height. */
  lemma HeightsAt(w: nat, noise: (int, int) -> real, z: int, x: int)
    requires InGrid(w, w, z, x)
    ensures Heights(w, noise)[Cell(w, z, x)] == if Interior(w, z, x) then noise(z, x) else 0.0
  {
    InteriorIndexIff(w, z, x);
    DivMod(w, z, x);
  }

  /** Passing boundary cells a .. b - 1 changes neither the heightmap nor the maximum. */
  lemma {:induction false} HeightsSkip(w: nat, noise: (int, int) -> real, a: int, b: int)
    requires 0 <= a <= b && forall i :: a <= i < b ==> !InteriorIndex(w, i)
    ensures HeightsUpTo(w, noise, b) == HeightsUpTo(w, noise, a)
    ensures MaxUpTo(w, noise, b) == MaxUpTo(w, noise, a)
    decreases b
  {
    if b > a {
      HeightsSkip(w, noise, a, b - 1);
      assert HeightsUpTo(w, noise, b) == HeightsUpTo(w, noise, b - 1);
    }
  }

  /** The loop over rows 1 .. w - 2 starts at cell (1, 1): the cells before it are all on the ring. */
  lemma HeightsStart(w: nat, noise: (int, int) -> real)
    requires w >= 2
    ensures 0 <= Idx(w, 1, 1) <= w * w
    ensures HeightsUpTo(w, noise, Idx(w, 1, 1)) == HeightsUpTo(w, noise, 0)
    ensures MaxUpTo(w, noise, Idx(w, 1, 1)) == 0.0
  {
    IdxInRange(w, w, 1, 1);
    forall i | 0 <= i < Idx(w, 1, 1)
      ensures !InteriorIndex(w, i)
    {
      RingBeforeFirst(w, i);
    }
    HeightsSkip(w, noise, 0, Idx(w, 1, 1));
  }

  /** From the end of row z to cell (z + 1, 1) only ring cells are passed. */
  lemma HeightsNextRow(w: nat, noise: (int, int) -> real, z: int)
    requires 1 <= z < w - 1
    ensures 0 <= Idx(w, z, w - 1) <= Idx(w, z + 1, 1) <= w * w
    ensures HeightsUpTo(w, noise, Idx(w, z + 1, 1)) == HeightsUpTo(w, noise, Idx(w, z, w - 1))
    ensures MaxUpTo(w, noise, Idx(w, z + 1, 1)) == MaxUpTo(w, noise, Idx(w, z, w - 1))
  {
    IdxNextRow(w, z);
    IdxInRange(w, w, z, w - 1);
    IdxInRange(w, w, z + 1, 1);
    forall i | Idx(w, z, w - 1) <= i < Idx(w, z + 1, 1)
      ensures !InteriorIndex(w, i)
    {
      RingBetweenRows(w, z, i);
    }
    HeightsSkip(w, noise, Idx(w, z, w - 1), Idx(w, z + 1, 1));
  }

  /** After the last interior row only the last row is left: the loop has generated the whole map. */
  lemma HeightsEnd(w: nat, noise: (int, int) -> real)
    requires w >= 2
    ensures 0 <= Idx(w, Span(w - 1), 1) <= w * w
    ensures HeightsUpTo(w, noise, Idx(w, Span(w - 1), 1)) == Heights(w, noise)
    ensures MaxUpTo(w, noise, Idx(w, Span(w - 1), 1)) == MaxHeight(w, noise)
  {
    IdxInRange(w, w, Span(w - 1), 1);
    forall i | Idx(w, Span(w - 1), 1) <= i < w * w
      ensures !InteriorIndex(w, i)
    {
      RingAfterLast(w, i);
    }
    HeightsSkip(w, noise, Idx(w, Span(w - 1), 1), w * w);
  }

  /** A grid of width 1 has no interior cell, so its heightmap stays zero. */
  lemma HeightsNarrow(w: nat, noise: (int, int) -> real)
    requires w == 1
    ensures Heights(w, noise) == HeightsUpTo(w, noise, 0) && MaxHeight(w, noise) == 0.0
  {
    assert !InteriorIndex(w, 0);
    HeightsSkip(w, noise, 0, w * w);
  }

  /** Visiting interior cell (z, x) writes its noise height and updates the running maximum. */
  lemma HeightsVisit(w: nat, noise: (int, int) -> real, z: int, x: int)
    requires Interior(w, z, x)
    ensures 0 <= Idx(w, z, x) < w * w
    ensures var n := Idx(w, z, x);
            HeightsUpTo(w, noise, n + 1) == HeightsUpTo(w, noise, n)[n := noise(z, x)] &&
            MaxUpTo(w, noise, n + 1) == (if noise(z, x) > MaxUpTo(w, noise, n) then noise(z, x) else MaxUpTo(w, noise, n))
  {
    IdxInRange(w, w, z, x);
    InteriorIndexIff(w, z, x);
    DivMod(w, z, x);
    var n := Idx(w, z, x);
    assert GeneratedHeight(w, noise, n) == noise(z, x);
    assert HeightsUpTo(w, noise, n + 1) == HeightsUpTo(w, noise, n)[n := noise(z, x)];
  }

  // ---------------------------------------------------------------------------
  // Tree placement

  /** A placed tree: the flat index of its cell and its position. */
  datatype Tree = Tree(index: int, position: Vec3)

  /** The tree the loop places on cell (z, x): the cell's index and (x, height - 0.2, z). */
  function TreeAt(w: nat, h: seq<real>, z: int, x: int): Tree
    requires |h| == w * w && InGrid(w, w, z, x)
  {
    Tree(Cell(w, z, x), Vec3(x as real, h[Cell(w, z, x)] - TreeSink, z as real))
  }

  /** A candidate gets a tree: its cell is below the tree line and its draw is a multiple of the chance. */
  predicate Grows(w: nat, h: seq<real>, roll: int -> nat, z: int, x: int)
    requires |h| == w * w && InGrid(w, w, z, x)
  {
    h[Cell(w, z, x)] < TreeLine && roll(Cell(w, z, x)) % TreeChance == 0
  }

  /** The trees of row z at columns x, x + 4, ... below w - 1. */
  function RowTrees(w: nat, h: seq<real>, roll: int -> nat, z: int, x: int): seq<Tree>
    requires |h| == w * w && 1 <= z < w - 1 && 1 <= x
    decreases w - x
  {
    if x >= w - 1 then []
    else (if Grows(w, h, roll, z, x) then [TreeAt(w, h, z, x)] else []) + RowTrees(w, h, roll, z, x + TreeMinDistance)
  }

  /** The trees of rows z, z + 4, ... below w - 1. */
  function TreesFrom(w: nat, h: seq<real>, roll: int -> nat, z: int): seq<Tree>
    requires |h| == w * w && 1 <= z
    decreases w - z
  {
    if z >= w - 1 then []
    else RowTrees(w, h, roll, z, 1) + TreesFrom(w, h, roll, z + TreeMinDistance)
  }

  /** The trees placed on heightmap h, in the loop's row-major order. */
  function Trees(w: nat, h: seq<real>, roll: int -> nat): seq<Tree>
    requires |h| == w * w
  {
    TreesFrom(w, h, roll, 1)
  }

  /** Cell (z, x) is a tree candidate: both coordinates on the lattice 1, 5, 9, ... inside the ring. */
  predicate Candidate(w: nat, z: int, x: int)
  {
    Interior(w, z, x) && (z - 1) % TreeMinDistance == 0 && (x - 1) % TreeMinDistance == 0
  }

  /** Tree t is one the loop places: its index names a growing candidate, and t is the tree placed there. */
  predicate Placed(w: nat, h: seq<real>, roll: int -> nat, t: Tree)
    requires |h| == w * w
  {
    w > 0 && 0 <= t.index < w * w &&
    var z, x := t.index / w, t.index % w;
    Candidate(w, z, x) && Grows(w, h, roll, z, x) && t == TreeAt(w, h, z, x)
  }

  /** The tree placed on a growing candidate is a placed tree. */
  lemma PlacedAt(w: nat, h: seq<real>, roll: int -> nat, z: int, x: int)
    requires |h| == w * w && Candidate(w, z, x) && Grows(w, h, roll, z, x)
    ensures Placed(w, h, roll, TreeAt(w, h, z, x))
  {
    DivMod(w, z, x);
  }

  /** Every tree of a row is a placed tree. */
  lemma {:induction false} RowTreesSound(w: nat, h: seq<real>, roll: int -> nat, z: int, x: int)
    requires |h| == w * w && 1 <= z < w - 1 && 1 <= x && (z - 1) % TreeMinDistance == 0 && (x - 1) % TreeMinDistance == 0
    ensures forall t :: t in RowTrees(w, h, roll, z, x) ==> Placed(w, h, roll, t)
    decreases w - x
  {
    if x < w - 1 {
      RowTreesSound(w, h, roll, z, x + TreeMinDistance);
      if Grows(w, h, roll, z, x) {
        PlacedAt(w, h, roll, z, x);
      }
    }
  }

  /** Every growing candidate of a row from column x on carries a tree of that row. */
  lemma {:induction false} RowTreesComplete(w: nat, h: seq<real>, roll: int -> nat, z: int, x: int, xx: int)
    requires |h| == w * w && 1 <= z < w - 1 && 1 <= x && (x - 1) % TreeMinDistance == 0
    requires x <= xx < w - 1 && (xx - 1) % TreeMinDistance == 0 && Grows(w, h, roll, z, xx)
    ensures TreeAt(w, h, z, xx) in RowTrees(w, h, roll, z, x)
    decreases w - x
  {
    if xx != x {
      assert x + TreeMinDistance <= xx;
      RowTreesComplete(w, h, roll, z, x + TreeMinDistance, xx);
    }
  }

  /** Every tree from row z on is a placed tree. */
  lemma {:induction false} TreesFromSound(w: nat, h: seq<real>, roll: int -> nat, z: int)
    requires |h| == w * w && 1 <= z && (z - 1) % TreeMinDistance == 0
    ensures forall t :: t in TreesFrom(w, h, roll, z) ==> Placed(w, h, roll, t)
    decreases w - z
  {
    if z < w - 1 {
      TreesFromSound(w, h, roll, z + TreeMinDistance);
      RowTreesSound(w, h, roll, z, 1);
    }
  }

  /** Every growing candidate from row z on carries a tree. */
  lemma {:induction false} TreesFromComplete(w: nat, h: seq<real>, roll: int -> nat, z: int, zz: int, xx: int)
    requires |h| == w * w && 1 <= z && (z - 1) % TreeMinDistance == 0
    requires z <= zz && Candidate(w, zz, xx) && Grows(w, h, roll, zz, xx)
    ensures TreeAt(w, h, zz, xx) in TreesFrom(w, h, roll, z)
    decreases w - z
  {
    if zz == z {
      RowTreesComplete(w, h, roll, z, 1, xx);
    } else {
      assert z + TreeMinDistance <= zz;
      TreesFromComplete(w, h, roll, z + TreeMinDistance, zz, xx);
    }
  }

  /**
    The placed trees are exactly the candidates of the lattice that are below
    the tree line and whose draw is a multiple of the chance, each at its
    cell's index and at position (x, height - 0.2, z).
   */
  lemma TreesExactly(w: nat, h: seq<real>, roll: int -> nat, t: Tree)
    requires |h| == w * w
    ensures t in Trees(w, h, roll) <==> Placed(w, h, roll, t)
  {
    TreesFromSound(w, h, roll, 1);
    if Placed(w, h, roll, t) {
      TreesFromComplete(w, h, roll, 1, t.index / w, t.index % w);
    }
  }

  /** A placed tree's position names the column and row of its index, and sits 0.2 below the cell's height. */
  lemma TreePositionMatchesIndex(w: nat, h: seq<real>, z: int, x: int)
    requires |h| == w * w && InGrid(w, w, z, x)
    ensures var t := TreeAt(w, h, z, x);
            0 <= t.index < w * w && t.index % w == x && t.index / w == z &&
            t.position.x == (t.index % w) as real && t.position.z == (t.index / w) as real &&
            t.position.y == h[t.index] - TreeSink
  {
    DivMod(w, z, x);
  }

  /** The cell indexes of a list of trees, in order. */
  function Indexes(ts: seq<Tree>): seq<int>
  {
    seq(|ts|, k requires 0 <= k < |ts| => ts[k].index)
  }

  /** The positions of a list of trees, in order. */
  function Positions(ts: seq<Tree>): seq<Vec3>
  {
    seq(|ts|, k requires 0 <= k < |ts| => ts[k].position)
  }

  /** Appending trees appends their indexes and positions. */
  lemma IndexesAppend(a: seq<Tree>, b: seq<Tree>)
    ensures Indexes(a + b) == Indexes(a) + Indexes(b) && Positions(a + b) == Positions(a) + Positions(b)
  {
    assert Indexes(a + b) == Indexes(a) + Indexes(b);
    assert Positions(a + b) == Positions(a) + Positions(b);
  }

  /** One step of the row loop: the candidate's tree, if it grows, moves to the placed ones. */
  lemma RowStep(w: nat, h: seq<real>, roll: int -> nat, row: seq<Tree>, z: int, x: int,
                i0: seq<int>, p0: seq<Vec3>, idx: seq<int>, pos: seq<Vec3>)
    requires |h| == w * w && 1 <= z < w - 1 && 1 <= x < w - 1
    requires row + RowTrees(w, h, roll, z, x) == RowTrees(w, h, roll, z, 1)
    requires idx == i0 + Indexes(row) && pos == p0 + Positions(row)
    ensures var grown := if Grows(w, h, roll, z, x) then [TreeAt(w, h, z, x)] else [];
            (row + grown) + RowTrees(w, h, roll, z, x + TreeMinDistance) == RowTrees(w, h, roll, z, 1) &&
            idx + Indexes(grown) == i0 + Indexes(row + grown) && pos + Positions(grown) == p0 + Positions(row + grown)
  {
    var grown, rest := if Grows(w, h, roll, z, x) then [TreeAt(w, h, z, x)] else [], RowTrees(w, h, roll, z, x + TreeMinDistance);
    assert RowTrees(w, h, roll, z, x) == grown + rest;
    assert row + (grown + rest) == (row + grown) + rest;
    AppendIndexes(i0, p0, row, grown);
  }

  /** One step of the loop over rows: row z's trees move from the trees still to place to the placed ones. */
  lemma TreesStep(w: nat, h: seq<real>, roll: int -> nat, placed: seq<Tree>, z: int,
                  i0: seq<int>, p0: seq<Vec3>, idx: seq<int>, pos: seq<Vec3>)
    requires |h| == w * w && 1 <= z < w - 1
    requires placed + TreesFrom(w, h, roll, z) == Trees(w, h, roll)
    requires idx == i0 + Indexes(placed) && pos == p0 + Positions(placed)
    ensures var row := RowTrees(w, h, roll, z, 1);
            (placed + row) + TreesFrom(w, h, roll, z + TreeMinDistance) == Trees(w, h, roll) &&
            idx + Indexes(row) == i0 + Indexes(placed + row) && pos + Positions(row) == p0 + Positions(placed + row)
  {
    var row, rest := RowTrees(w, h, roll, z, 1), TreesFrom(w, h, roll, z + TreeMinDistance);
    assert TreesFrom(w, h, roll, z) == row + rest;
    assert placed + (row + rest) == (placed + row) + rest;
    AppendIndexes(i0, p0, placed, row);
  }

  /** The bookkeeping of both loops: placing more trees appends their indexes and positions. */
  lemma AppendIndexes(i0: seq<int>, p0: seq<Vec3>, placed: seq<Tree>, more: seq<Tree>)
    ensures (i0 + Indexes(placed)) + Indexes(more) == i0 + Indexes(placed + more)
    ensures (p0 + Positions(placed)) + Positions(more) == p0 + Positions(placed + more)
  {
    IndexesAppend(placed, more);
    assert (i0 + Indexes(placed)) + Indexes(more) == i0 + (Indexes(placed) + Indexes(more));
    assert (p0 + Positions(placed)) + Positions(more) == p0 + (Positions(placed) + Positions(more));
  }

  // ---------------------------------------------------------------------------
  // Tree filtering

  /** The tree indexes that survive the filter: those whose cell's grass weight is at least 0.5, in order. */
  function KeptIndexes(idx: seq<int>, grass: int -> real): (r: seq<int>)
    ensures |r| <= |idx|
    decreases |idx|
  {
    if |idx| == 0 then []
    else (if grass(idx[0]) < GrassThreshold then [] else [idx[0]]) + KeptIndexes(idx[1..], grass)
  }

  /** The tree positions that survive with their indexes. */
  function KeptPositions(idx: seq<int>, pos: seq<Vec3>, grass: int -> real): (r: seq<Vec3>)
    requires |idx| == |pos|
    ensures |r| == |KeptIndexes(idx, grass)|
    decreases |idx|
  {
    if |idx| == 0 then []
    else (if grass(idx[0]) < GrassThreshold then [] else [pos[0]]) + KeptPositions(idx[1..], pos[1..], grass)
  }

  /** Some tree's cell has a grass weight below 0.5. */
  predicate AnyBare(idx: seq<int>, grass: int -> real)
  {
    exists k :: 0 <= k < |idx| && grass(idx[k]) < GrassThreshold
  }

  /** The filter removes something exactly when some tree's cell is bare; otherwise it keeps the list as it is. */
  lemma {:induction false} KeptShrinksIffBare(idx: seq<int>, grass: int -> real)
    ensures |KeptIndexes(idx, grass)| < |idx| <==> AnyBare(idx, grass)
    ensures !AnyBare(idx, grass) ==> KeptIndexes(idx, grass) == idx
    decreases |idx|
  {
    if |idx| > 0 {
      KeptShrinksIffBare(idx[1..], grass);
      if AnyBare(idx[1..], grass) {
        var k :| 0 <= k < |idx| - 1 && grass(idx[1..][k]) < GrassThreshold;
        assert grass(idx[k + 1]) < GrassThreshold;
      }
      if AnyBare(idx, grass) && grass(idx[0]) >= GrassThreshold {
        var k :| 0 <= k < |idx| && grass(idx[k]) < GrassThreshold;
        assert idx[1..][k - 1] == idx[k];
      }
      if !AnyBare(idx, grass) {
        assert grass(idx[0]) >= GrassThreshold;
        assert !AnyBare(idx[1..], grass) by {
          forall k | 0 <= k < |idx| - 1
            ensures grass(idx[1..][k]) >= GrassThreshold
          {
            assert idx[1..][k] == idx[k + 1];
          }
        }
        assert idx == [idx[0]] + idx[1..];
      }
    }
  }

  /** One more visited tree makes the list bare exactly when it or an earlier one is. */
  lemma AnyBareSnoc(idx: seq<int>, grass: int -> real, k: int)
    requires 0 <= k < |idx|
    ensures AnyBare(idx[..k + 1], grass) == (AnyBare(idx[..k], grass) || grass(idx[k]) < GrassThreshold)
  {
    if AnyBare(idx[..k + 1], grass) && grass(idx[k]) >= GrassThreshold {
      var j :| 0 <= j < k + 1 && grass(idx[..k + 1][j]) < GrassThreshold;
      assert idx[..k][j] == idx[j];
    }
    if AnyBare(idx[..k], grass) {
      var j :| 0 <= j < k && grass(idx[..k][j]) < GrassThreshold;
      assert idx[..k + 1][j] == idx[j];
    }
    if grass(idx[k]) < GrassThreshold {
      assert idx[..k + 1][k] == idx[k];
    }
  }

  /** Exactly the trees on cells with grass weight at least 0.5 survive. */
  lemma {:induction false} KeptExactly(idx: seq<int>, grass: int -> real, i: int)
    ensures i in KeptIndexes(idx, grass) <==> i in idx && grass(i) >= GrassThreshold
    decreases |idx|
  {
    if |idx| > 0 {
      KeptExactly(idx[1..], grass, i);
      assert idx == [idx[0]] + idx[1..];
    }
  }

  /** Survivors keep their order: filtering a concatenation filters each part in place. */
  lemma {:induction false} KeptInOrder(a: seq<int>, b: seq<int>, grass: int -> real)
    ensures KeptIndexes(a + b, grass) == KeptIndexes(a, grass) + KeptIndexes(b, grass)
    decreases |a|
  {
    if |a| > 0 {
      KeptInOrder(a[1..], b, grass);
      assert (a + b)[1..] == a[1..] + b;
      assert (a + b)[0] == a[0];
    } else {
      assert a + b == b;
    }
  }

  /** Filtering twice removes nothing more. */
  lemma {:induction false} KeptIdempotent(idx: seq<int>, grass: int -> real)
    ensures KeptIndexes(KeptIndexes(idx, grass), grass) == KeptIndexes(idx, grass)
    decreases |idx|
  {
    if |idx| > 0 {
      KeptIdempotent(idx[1..], grass);
      var rest := KeptIndexes(idx[1..], grass);
      if grass(idx[0]) >= GrassThreshold {
        assert KeptIndexes(idx, grass) == [idx[0]] + rest;
        assert ([idx[0]] + rest)[1..] == rest;
        assert KeptIndexes([idx[0]] + rest, grass) == [idx[0]] + KeptIndexes(rest, grass);
      } else {
        assert KeptIndexes(idx, grass) == rest;
      }
    }
  }

  /** The first k elements of a list keep what the filter keeps of them, and one more step adds element k or nothing. */
  lemma {:induction false} KeptSnoc(idx: seq<int>, pos: seq<Vec3>, grass: int -> real, k: int)
    requires |idx| == |pos| && 0 <= k < |idx|
    ensures KeptIndexes(idx[..k + 1], grass) ==
            KeptIndexes(idx[..k], grass) + (if grass(idx[k]) < GrassThreshold then [] else [idx[k]])
    ensures KeptPositions(idx[..k + 1], pos[..k + 1], grass) ==
            KeptPositions(idx[..k], pos[..k], grass) + (if grass(idx[k]) < GrassThreshold then [] else [pos[k]])
    decreases k
  {
    if k > 0 {
      KeptSnoc(idx[1..], pos[1..], grass, k - 1);
      assert idx[..k + 1][1..] == idx[1..][..k];
      assert idx[..k][1..] == idx[1..][..k - 1];
      assert pos[..k + 1][1..] == pos[1..][..k];
      assert pos[..k][1..] == pos[1..][..k - 1];
    }
  }

  /** Erasing element i of s, whose suffix from i is orig's suffix from j, keeps the prefix and advances the suffix. */
  lemma EraseStep<T>(s: seq<T>, i: int, orig: seq<T>, j: int)
    requires 0 <= i < |s| && 0 <= j <= |orig| && s[i..] == orig[j..]
    ensures j < |orig| && s[i] == orig[j]
    ensures (s[..i] + s[i + 1..])[..i] == s[..i] && (s[..i] + s[i + 1..])[i..] == orig[j + 1..]
  {
    assert s[i..][0] == orig[j..][0];
    assert s[i + 1..] == s[i..][1..];
    assert orig[j + 1..] == orig[j..][1..];
  }

  /** Keeping element i of s, whose suffix from i is orig's suffix from j, extends the prefix and advances the suffix. */
  lemma KeepStep<T>(s: seq<T>, i: int, orig: seq<T>, j: int)
    requires 0 <= i < |s| && 0 <= j <= |orig| && s[i..] == orig[j..]
    ensures j < |orig| && s[i] == orig[j]
    ensures s[..i + 1] == s[..i] + [orig[j]] && s[i + 1..] == orig[j + 1..]
  {
    assert s[i..][0] == orig[j..][0];
    assert s[i + 1..] == s[i..][1..];
    assert orig[j + 1..] == orig[j..][1..];
  }

  // ---------------------------------------------------------------------------
  // Water smoothing

  /** The water surface: heightmap plus water, cell by cell. */
  function Surface(h: seq<real>, wt: seq<real>): (r: seq<real>)
    requires |h| == |wt|
    ensures |r| == |h| && forall i :: 0 <= i < |h| ==> r[i] == h[i] + wt[i]
  {
    seq(|h|, i requires 0 <= i < |h| => h[i] + wt[i])
  }

  /** The nine cells of the 3x3 window around an interior cell lie w and 1 cells either side of it. */
  lemma WindowCells(w: nat, z: int, x: int)
    requires Interior(w, z, x)
    ensures var i := Cell(w, z, x);
            Cell(w, z - 1, x - 1) == i - w - 1 && Cell(w, z - 1, x) == i - w && Cell(w, z - 1, x + 1) == i - w + 1 &&
            Cell(w, z, x - 1) == i - 1 && Cell(w, z, x + 1) == i + 1 &&
            Cell(w, z + 1, x - 1) == i + w - 1 && Cell(w, z + 1, x) == i + w && Cell(w, z + 1, x + 1) == i + w + 1
  {
    assert (z + 1) * w == z * w + w;
    assert (z - 1) * w == z * w - w;
  }

  /** The smoothed water height of interior cell (z, x): the mean of the 3x3 window of s around it. */
  function Smoothed(w: nat, s: seq<real>, z: int, x: int): real
    requires |s| == w * w && Interior(w, z, x)
  {
    var i := Cell(w, z, x);
    WindowCells(w, z, x);
    (s[i - w - 1] + s[i - w] + s[i - w + 1] +
     s[i - 1] + s[i] + s[i + 1] +
     s[i + w - 1] + s[i + w] + s[i + w + 1]) / 9.0
  }

  /** The smoothing is the mean of the nine window cells, written in coordinates. */
  lemma SmoothedIsWindowMean(w: nat, s: seq<real>, z: int, x: int)
    requires |s| == w * w && Interior(w, z, x)
    ensures Smoothed(w, s, z, x) ==
            (s[Cell(w, z - 1, x - 1)] + s[Cell(w, z - 1, x)] + s[Cell(w, z - 1, x + 1)] +
             s[Cell(w, z, x - 1)] + s[Cell(w, z, x)] + s[Cell(w, z, x + 1)] +
             s[Cell(w, z + 1, x - 1)] + s[Cell(w, z + 1, x)] + s[Cell(w, z + 1, x + 1)]) / 9.0
  {
    WindowCells(w, z, x);
  }

  /** Smoothing a level surface gives the same level. */
  lemma SmoothingKeepsLevel(w: nat, s: seq<real>, c: real, z: int, x: int)
    requires |s| == w * w && Interior(w, z, x)
    requires forall i :: 0 <= i < |s| ==> s[i] == c
    ensures Smoothed(w, s, z, x) == c
  {
    WindowCells(w, z, x);
    var i := Cell(w, z, x);
    assert s[i - w - 1] == c && s[i - w] == c && s[i - w + 1] == c && s[i - 1] == c && s[i] == c;
    assert s[i + 1] == c && s[i + w - 1] == c && s[i + w] == c && s[i + w + 1] == c;
  }

  /** The smoothed height lies between the lowest and the highest surface heights. */
  lemma SmoothingBounded(w: nat, s: seq<real>, lo: real, hi: real, z: int, x: int)
    requires |s| == w * w && Interior(w, z, x)
    requires forall i :: 0 <= i < |s| ==> lo <= s[i] <= hi
    ensures lo <= Smoothed(w, s, z, x) <= hi
  {
    WindowCells(w, z, x);
    var i := Cell(w, z, x);
    assert lo <= s[i - w - 1] <= hi && lo <= s[i - w] <= hi && lo <= s[i - w + 1] <= hi;
    assert lo <= s[i - 1] <= hi && lo <= s[i] <= hi && lo <= s[i + 1] <= hi;
    assert lo <= s[i + w - 1] <= hi && lo <= s[i + w] <= hi && lo <= s[i + w + 1] <= hi;
  }

  /** Every interior cell of m holds the smoothed height of surface s there; the boundary ring is not constrained. */
  ghost predicate SmoothedOver(w: nat, m: seq<real>, s: seq<real>)
    requires |m| == w * w && |s| == w * w
  {
    forall z, x :: Interior(w, z, x) ==> m[Cell(w, z, x)] == Smoothed(w, s, z, x)
  }

  /** Rows 1 .. z - 1 of out hold the smoothed heights of surface s. */
  ghost predicate SmoothedBefore(w: nat, s: seq<real>, out: seq<real>, z: int)
    requires |s| == w * w && |out| == w * w
  {
    forall zz, xx :: 1 <= zz < z && zz < w - 1 && 1 <= xx < w - 1 ==> out[Cell(w, zz, xx)] == Smoothed(w, s, zz, xx)
  }

  /** A map that agrees with out before row z keeps the smoothed rows of out. */
  lemma SmoothedKept(w: nat, s: seq<real>, out: seq<real>, t: seq<real>, z: int)
    requires |s| == w * w && |out| == w * w && |t| == w * w && 1 <= z < w - 1
    requires SmoothedBefore(w, s, out, z)
    requires 0 <= Idx(w, z, 0) <= w * w && t[..Idx(w, z, 0)] == out[..Idx(w, z, 0)]
    ensures SmoothedBefore(w, s, t, z)
  {
    var n := Idx(w, z, 0);
    forall zz, xx | 1 <= zz < z && zz < w - 1 && 1 <= xx < w - 1
      ensures t[Cell(w, zz, xx)] == Smoothed(w, s, zz, xx)
    {
      RowsBeforeStart(w, zz, xx, z);
      var i := Cell(w, zz, xx);
      assert t[..n][i] == out[..n][i];
    }
  }

  /** The smoothed water surface of heightmap h and water depths wt, in a fresh array; the boundary ring is left unspecified. */
  method SmoothedSurface(w: nat, h: array<real>, wt: array<real>) returns (smoothed: array<real>)
    requires h.Length == w * w && wt.Length == w * w
    ensures fresh(smoothed) && smoothed.Length == w * w
    ensures SmoothedOver(w, smoothed[..], Surface(h[..], wt[..]))
  {
    var waterHeights := new real[w * w];
    smoothed := new real[w * w];
    SurfaceInto(h, wt, waterHeights);
    SmoothInto(w, waterHeights, smoothed);
  }

  /** The surface loop: every cell gets its terrain height plus its water depth. */
  method SurfaceInto(h: array<real>, wt: array<real>, out: array<real>)
    requires h.Length == wt.Length == out.Length && out != h && out != wt
    modifies out
    ensures out[..] == Surface(h[..], wt[..])
  {
    var i := 0;
    while i < out.Length
      invariant 0 <= i <= out.Length
      invariant forall k :: 0 <= k < i ==> out[k] == h[k] + wt[k]
    {
      out[i] := h[i] + wt[i];
      i := i + 1;
    }
  }

  /** The smoothing loop: every interior cell of out gets the mean of the 3x3 window of s around it. */
  method SmoothInto(w: nat, s: array<real>, out: array<real>)
    requires s.Length == w * w && out.Length == w * w && s != out
    modifies out
    ensures SmoothedOver(w, out[..], s[..])
  {
    var z := 1;
    while z < w - 1
      invariant 1 <= z && SmoothedBefore(w, s[..], out[..], z)
      decreases w - z
    {
      SmoothRow(w, s, out, z);
      z := z + 1;
    }
    forall zz, xx | Interior(w, zz, xx)
      ensures out[..][Cell(w, zz, xx)] == Smoothed(w, s[..], zz, xx)
    {
    }
  }

  /** Row z of the smoothing loop. */
  method SmoothRow(w: nat, s: array<real>, out: array<real>, z: int)
    requires s.Length == w * w && out.Length == w * w && s != out && 1 <= z < w - 1
    requires SmoothedBefore(w, s[..], out[..], z)
    modifies out
    ensures SmoothedBefore(w, s[..], out[..], z + 1)
  {
    ghost var ss, o0 := s[..], out[..];
    ghost var start := Idx(w, z, 0);
    IdxInRange(w, w, z, 0);
    IdxInRange(w, w, z, w - 1);
    assert start + w <= w * w;
    var x := 1;
    while x < w - 1
      invariant 1 <= x <= w - 1 && s[..] == ss
      invariant out[..start] == o0[..start]
      invariant forall xx :: 1 <= xx < x ==> out[start + xx] == Smoothed(w, ss, z, xx)
    {
      var smoothedHeight := CellSmoothed(w, s, z, x);
      out[Cell(w, z, x)] := smoothedHeight;
      x := x + 1;
    }
    SmoothedKept(w, ss, o0, out[..], z);
    forall zz, xx | 1 <= zz < z + 1 && zz < w - 1 && 1 <= xx < w - 1
      ensures out[Cell(w, zz, xx)] == Smoothed(w, ss, zz, xx)
    {
      if zz == z {
        assert Cell(w, zz, xx) == start + xx;
      }
    }
  }

  /** The mean of the 3x3 window of s around interior cell (z, x). */
  method CellSmoothed(w: nat, s: array<real>, z: int, x: int) returns (r: real)
    requires s.Length == w * w && Interior(w, z, x)
    ensures r == Smoothed(w, s[..], z, x)
  {
    WindowCells(w, z, x);
    r := (s[Cell(w, z - 1, x - 1)] + s[Cell(w, z - 1, x)] + s[Cell(w, z - 1, x + 1)] +
          s[Cell(w, z, x - 1)] + s[Cell(w, z, x)] + s[Cell(w, z, x + 1)] +
          s[Cell(w, z + 1, x - 1)] + s[Cell(w, z + 1, x)] + s[Cell(w, z + 1, x + 1)]) / 9.0;
  }

  // ---------------------------------------------------------------------------
  // The terrain object

  class Terrain {
    var width: int
    var size: int
    var heightmap: array<real>
    var water: array<real>
    var altitude: array<real>
    var maxHeight: real
    var treeIndexes: seq<int>
    var treePositions: seq<Vec3>
    var treesUpdated: bool
    var terrainMesh: HeightMesh
    var waterMesh: HeightMesh

    /** The three vectors are distinct and of the grid's size. */
    predicate Sized()
      reads this`width, this`size, this`heightmap, this`water, this`altitude
    {
      width >= 0 && size == width * width &&
      heightmap.Length == size && water.Length == size && altitude.Length == size &&
      heightmap != water && heightmap != altitude && water != altitude
    }

    /** The two meshes and their buffers are distinct from each other and from the terrain's vectors. */
    predicate Apart()
      reads this`heightmap, this`water, this`altitude, this`terrainMesh, this`waterMesh, terrainMesh, waterMesh
    {
      terrainMesh != waterMesh &&
      terrainMesh.heights != waterMesh.heights && terrainMesh.normals != waterMesh.normals &&
      terrainMesh.indices != waterMesh.indices &&
      terrainMesh.heights != heightmap && terrainMesh.heights != water && terrainMesh.heights != altitude &&
      waterMesh.heights != heightmap && waterMesh.heights != water && waterMesh.heights != altitude
    }

    predicate Valid()
      reads this, terrainMesh, waterMesh, terrainMesh.indices, waterMesh.indices
    {
      Sized() && |treeIndexes| == |treePositions| && Apart() && terrainMesh.Valid() && waterMesh.Valid()
    }

    /** The heightmap has been generated: both meshes span the grid. */
    predicate Meshed()
      reads this`width, this`terrainMesh, this`waterMesh, terrainMesh, waterMesh
    {
      width >= 1 &&
      terrainMesh.xWidth == width && terrainMesh.zWidth == width &&
      waterMesh.xWidth == width && waterMesh.zWidth == width
    }

    /** Something is waiting for upload: either mesh, or the tree positions. */
    predicate NeedMeshSentGPU()
      reads this`terrainMesh, this`waterMesh, this`treesUpdated, terrainMesh, waterMesh
    {
      terrainMesh.needSendGPU || waterMesh.needSendGPU || treesUpdated
    }

    /** The default terrain: no grid yet, no trees, nothing pending. */
    constructor ()
      ensures Valid() && width == 0 && maxHeight == 0.0
      ensures treeIndexes == [] && treePositions == [] && !NeedMeshSentGPU()
      ensures !terrainMesh.generated && !waterMesh.generated
    {
      width := 0;
      size := 0;
      heightmap := new real[0];
      water := new real[0];
      altitude := new real[0];
      maxHeight := 0.0;
      treeIndexes := [];
      treePositions := [];
      treesUpdated := false;
      terrainMesh := new HeightMesh();
      waterMesh := new HeightMesh();
    }

    /**
      Generates a w-by-w heightmap: fresh zeroed vectors, the noise height on
      every interior cell of the heightmap and the altitude, the running
      maximum height, the trees of the new map appended to the tree lists,
      and both meshes set to the new width.
     */
    method GenerateHeightmap(w: int, noise: (int, int) -> real, roll: int -> nat)
      requires Valid() && w >= 1
      requires !terrainMesh.generated || (terrainMesh.xWidth == w && terrainMesh.zWidth == w)
      requires !waterMesh.generated || (waterMesh.xWidth == w && waterMesh.zWidth == w)
      modifies this`width, this`size, this`heightmap, this`water, this`altitude, this`maxHeight
      modifies this`treeIndexes, this`treePositions, this`treesUpdated
      modifies terrainMesh`cellSize, terrainMesh`xWidth, terrainMesh`zWidth
      modifies waterMesh`cellSize, waterMesh`xWidth, waterMesh`zWidth
      ensures Valid() && Meshed() && width == w && size == w * w
      ensures fresh(heightmap) && fresh(water) && fresh(altitude)
      ensures heightmap[..] == Heights(w, noise) && altitude[..] == heightmap[..]
      ensures forall i :: 0 <= i < size ==> water[i] == 0.0
      ensures maxHeight == MaxHeight(w, noise)
      ensures treeIndexes == old(treeIndexes) + Indexes(Trees(w, heightmap[..], roll))
      ensures treePositions == old(treePositions) + Positions(Trees(w, heightmap[..], roll))
      ensures treesUpdated
      ensures terrainMesh.cellSize == 1.0 && waterMesh.cellSize == 1.0
    {
      Allocate(w);
      maxHeight := FillHeights(noise);
      PlaceTrees(roll);
      treesUpdated := true;
      ResizeMeshes();
    }

    /** Sets the width and allocates the three vectors, zeroed. */
    method Allocate(w: int)
      requires Apart() && w >= 1
      modifies this`width, this`size, this`heightmap, this`water, this`altitude
      ensures Sized() && Apart() && width == w
      ensures fresh(heightmap) && fresh(water) && fresh(altitude)
      ensures forall i :: 0 <= i < size ==> heightmap[i] == 0.0 && water[i] == 0.0 && altitude[i] == 0.0
    {
      width := w;
      size := w * w;
      heightmap := new real[size](_ => 0.0);
      water := new real[size](_ => 0.0);
      altitude := new real[size](_ => 0.0);
    }

    /** Both meshes take the terrain's width and unit cells. */
    method ResizeMeshes()
      requires Valid() && width >= 1
      requires !terrainMesh.generated || (terrainMesh.xWidth == width && terrainMesh.zWidth == width)
      requires !waterMesh.generated || (waterMesh.xWidth == width && waterMesh.zWidth == width)
      modifies terrainMesh`cellSize, terrainMesh`xWidth, terrainMesh`zWidth
      modifies waterMesh`cellSize, waterMesh`xWidth, waterMesh`zWidth
      ensures Valid() && Meshed()
      ensures terrainMesh.cellSize == 1.0 && waterMesh.cellSize == 1.0
    {
      terrainMesh.Init(1.0, width, width);
      waterMesh.Init(1.0, width, width);
    }

    /** The loop state after indices 0 .. n - 1: heightmap and altitude generated up to n, running maximum m. */
    ghost predicate FilledTo(noise: (int, int) -> real, n: int, m: real)
      reads this`width, this`size, this`heightmap, this`water, this`altitude, heightmap, altitude
    {
      Sized() && 0 <= n <= size &&
      heightmap[..] == HeightsUpTo(width, noise, n) && altitude[..] == heightmap[..] && m == MaxUpTo(width, noise, n)
    }

    /** The height loop over the interior cells; returns the maximum height. */
    method FillHeights(noise: (int, int) -> real) returns (m: real)
      requires Sized() && width >= 1
      requires forall i :: 0 <= i < size ==> heightmap[i] == 0.0 && altitude[i] == 0.0
      modifies heightmap, altitude
      ensures heightmap[..] == Heights(width, noise) && altitude[..] == heightmap[..]
      ensures m == MaxHeight(width, noise)
    {
      assert heightmap[..] == HeightsUpTo(width, noise, 0);
      assert altitude[..] == HeightsUpTo(width, noise, 0);
      m := 0.0;
      if width == 1 {
        HeightsNarrow(width, noise);
        return;
      }
      HeightsStart(width, noise);
      var z := 1;
      while z < width - 1
        invariant 1 <= z <= Span(width - 1)
        invariant 0 <= Idx(width, z, 1) <= size && FilledTo(noise, Idx(width, z, 1), m)
      {
        m := FillRow(noise, z, m);
        HeightsNextRow(width, noise, z);
        z := z + 1;
      }
      HeightsEnd(width, noise);
    }

    /** Row z of the height loop. */
    method FillRow(noise: (int, int) -> real, z: int, m: real) returns (m': real)
      requires 1 <= z < width - 1 && 0 <= Idx(width, z, 1) && FilledTo(noise, Idx(width, z, 1), m)
      modifies heightmap, altitude
      ensures 0 <= Idx(width, z, width - 1) && FilledTo(noise, Idx(width, z, width - 1), m')
    {
      m' := m;
      var x := 1;
      while x < width - 1
        invariant 1 <= x <= width - 1 && 0 <= Idx(width, z, x) && FilledTo(noise, Idx(width, z, x), m')
      {
        HeightsVisit(width, noise, z, x);
        var cellIndex := Cell(width, z, x);
        var height := noise(z, x);
        heightmap[cellIndex] := height;
        altitude[cellIndex] := height;
        if height > m' {
          m' := height;
        }
        x := x + 1;
      }
    }

    /** The tree loop: appends the trees of the heightmap to both lists. */
    method PlaceTrees(roll: int -> nat)
      requires Sized() && width >= 1
      modifies this`treeIndexes, this`treePositions
      ensures treeIndexes == old(treeIndexes) + Indexes(Trees(width, heightmap[..], roll))
      ensures treePositions == old(treePositions) + Positions(Trees(width, heightmap[..], roll))
    {
      ghost var w, h, i0, p0 := width, heightmap[..], treeIndexes, treePositions;
      ghost var placed: seq<Tree> := [];
      var z := 1;
      while z < width - 1
        invariant w == width && |h| == w * w && h == heightmap[..] && 1 <= z
        invariant placed + TreesFrom(w, h, roll, z) == Trees(w, h, roll)
        invariant treeIndexes == i0 + Indexes(placed) && treePositions == p0 + Positions(placed)
        decreases w - z
      {
        ghost var row := RowTrees(w, h, roll, z, 1);
        TreesStep(w, h, roll, placed, z, i0, p0, treeIndexes, treePositions);
        PlaceRow(roll, z);
        placed := placed + row;
        z := z + TreeMinDistance;
      }
      assert placed == Trees(w, h, roll);
    }

    /** Row z of the tree loop: appends the trees of the row to both lists. */
    method PlaceRow(roll: int -> nat, z: int)
      requires Sized() && 1 <= z < width - 1
      modifies this`treeIndexes, this`treePositions
      ensures treeIndexes == old(treeIndexes) + Indexes(RowTrees(width, heightmap[..], roll, z, 1))
      ensures treePositions == old(treePositions) + Positions(RowTrees(width, heightmap[..], roll, z, 1))
    {
      ghost var w, h, i0, p0 := width, heightmap[..], treeIndexes, treePositions;
      ghost var row: seq<Tree> := [];
      var x := 1;
      while x < width - 1
        invariant w == width && |h| == w * w && h == heightmap[..] && 1 <= x
        invariant row + RowTrees(w, h, roll, z, x) == RowTrees(w, h, roll, z, 1)
        invariant treeIndexes == i0 + Indexes(row) && treePositions == p0 + Positions(row)
        decreases w - x
      {
        RowStep(w, h, roll, row, z, x, i0, p0, treeIndexes, treePositions);
        ghost var grown := if Grows(w, h, roll, z, x) then [TreeAt(w, h, z, x)] else [];
        var cellIndex := Cell(width, z, x);
        if heightmap[cellIndex] < TreeLine {
          if roll(cellIndex) % TreeChance == 0 {
            treeIndexes := treeIndexes + [cellIndex];
            treePositions := treePositions + [Vec3(x as real, heightmap[cellIndex] - TreeSink, z as real)];
          }
        }
        assert treeIndexes == i0 + Indexes(row + grown) && treePositions == p0 + Positions(row + grown);
        row := row + grown;
        x := x + TreeMinDistance;
      }
      assert row == RowTrees(w, h, roll, z, 1);
    }
    /** One visible step of the terrain mesh: heights copied, flags set, the arrays fresh or reused. */
    method GenerateMesh(genWater: bool, grass: int -> real)
      requires Valid() && Meshed()
      modifies terrainMesh`needSendGPU, terrainMesh`generated, terrainMesh`numIndices
      modifies terrainMesh`heights, terrainMesh`normals, terrainMesh`indices
      modifies terrainMesh.heights, terrainMesh.normals, terrainMesh.indices
      modifies waterMesh`needSendGPU, waterMesh`generated, waterMesh`numIndices
      modifies waterMesh`heights, waterMesh`normals, waterMesh`indices
      modifies waterMesh.heights, waterMesh.normals, waterMesh.indices
      modifies this`treeIndexes, this`treePositions, this`treesUpdated
      ensures Valid() && Meshed() && NeedMeshSentGPU()
      ensures terrainMesh.generated && terrainMesh.needSendGPU && terrainMesh.heights[..] == heightmap[..]
      ensures terrainMesh.normals[..] == NormalPass(width, width, heightmap[..], Zeros(width * width))
      ensures genWater ==> waterMesh.generated && waterMesh.needSendGPU && WaterSmoothed()
      ensures genWater ==> waterMesh.normals[..] == NormalPass(width, width, waterMesh.heights[..], Zeros(width * width))
      ensures !genWater ==> unchanged(waterMesh) && waterMesh.heights[..] == old(waterMesh.heights[..])
      ensures treeIndexes == KeptIndexes(old(treeIndexes), grass)
      ensures treePositions == KeptPositions(old(treeIndexes), old(treePositions), grass)
      ensures treesUpdated == (old(treesUpdated) || AnyBare(old(treeIndexes), grass))
    {
      GenerateTerrainMesh();
      GenerateWaterMeshIf(genWater);
      FilterTrees(grass);
    }

    /** The optional water step of the mesh generation. */
    method GenerateWaterMeshIf(genWater: bool)
      requires Valid() && Meshed()
      modifies waterMesh`needSendGPU, waterMesh`generated, waterMesh`numIndices
      modifies waterMesh`heights, waterMesh`normals, waterMesh`indices
      modifies waterMesh.heights, waterMesh.normals, waterMesh.indices
      ensures Valid() && Meshed()
      ensures genWater ==> waterMesh.generated && waterMesh.needSendGPU && WaterSmoothed()
      ensures genWater ==> waterMesh.normals[..] == NormalPass(width, width, waterMesh.heights[..], Zeros(width * width))
      ensures !genWater ==> unchanged(waterMesh) && waterMesh.heights[..] == old(waterMesh.heights[..])
    {
      if genWater {
        GenerateWaterMesh();
      }
    }

    /** Builds the terrain mesh from the heightmap. */
    method GenerateTerrainMesh()
      requires Valid() && Meshed()
      modifies terrainMesh`needSendGPU, terrainMesh`generated, terrainMesh`numIndices
      modifies terrainMesh`heights, terrainMesh`normals, terrainMesh`indices
      modifies terrainMesh.heights, terrainMesh.normals, terrainMesh.indices
      ensures Valid() && Meshed()
      ensures terrainMesh.generated && terrainMesh.needSendGPU && terrainMesh.heights[..] == heightmap[..]
      ensures terrainMesh.normals[..] == NormalPass(width, width, heightmap[..], Zeros(width * width))
    {
      terrainMesh.Generate(heightmap[..]);
    }

    /** Every interior vertex of the water mesh is the smoothed water surface there. */
    ghost predicate WaterSmoothed()
      reads this`width, this`heightmap, this`water, this`waterMesh, heightmap, water, waterMesh, waterMesh.heights
    {
      width >= 0 && heightmap.Length == width * width && water.Length == width * width &&
      waterMesh.heights.Length == width * width &&
      SmoothedOver(width, waterMesh.heights[..], Surface(heightmap[..], water[..]))
    }

    /** Builds the water mesh from the smoothed surface of terrain plus water. */
    method GenerateWaterMesh()
      requires Valid() && Meshed()
      modifies waterMesh`needSendGPU, waterMesh`generated, waterMesh`numIndices
      modifies waterMesh`heights, waterMesh`normals, waterMesh`indices
      modifies waterMesh.heights, waterMesh.normals, waterMesh.indices
      ensures Valid() && Meshed() && waterMesh.generated && waterMesh.needSendGPU && WaterSmoothed()
      ensures waterMesh.normals[..] == NormalPass(width, width, waterMesh.heights[..], Zeros(width * width))
    {
      var smoothedHeights := SmoothedSurface(width, heightmap, water);
      waterMesh.Generate(smoothedHeights[..]);
      assert waterMesh.heights[..] == smoothedHeights[..];
    }

    /**
      The tree filter: walks both lists in lock-step, erasing the entries
      whose grass weight is below 0.5 and stepping past the others.
     */
    method FilterTrees(grass: int -> real)
      requires |treeIndexes| == |treePositions|
      modifies this`treeIndexes, this`treePositions, this`treesUpdated
      ensures treeIndexes == KeptIndexes(old(treeIndexes), grass)
      ensures treePositions == KeptPositions(old(treeIndexes), old(treePositions), grass)
      ensures treesUpdated == (old(treesUpdated) || AnyBare(old(treeIndexes), grass))
    {
      ghost var idx, pos, upd := treeIndexes, treePositions, treesUpdated;
      var i := 0;
      ghost var j := 0;
      while i < |treeIndexes|
        invariant 0 <= i <= |treeIndexes| == |treePositions| && 0 <= j <= |idx| == |pos|
        invariant treeIndexes[..i] == KeptIndexes(idx[..j], grass) && treeIndexes[i..] == idx[j..]
        invariant treePositions[..i] == KeptPositions(idx[..j], pos[..j], grass) && treePositions[i..] == pos[j..]
        invariant treesUpdated == (upd || AnyBare(idx[..j], grass))
        decreases |treeIndexes| - i
      {
        KeptSnoc(idx, pos, grass, j);
        AnyBareSnoc(idx, grass, j);
        var index := treeIndexes[i];
        if grass(index) < GrassThreshold {
          EraseStep(treeIndexes, i, idx, j);
          EraseStep(treePositions, i, pos, j);
          treeIndexes := treeIndexes[..i] + treeIndexes[i + 1..];
          treePositions := treePositions[..i] + treePositions[i + 1..];
          treesUpdated := true;
        } else {
          KeepStep(treeIndexes, i, idx, j);
          KeepStep(treePositions, i, pos, j);
          i := i + 1;
        }
        j := j + 1;
      }
      assert j == |idx| && idx[..j] == idx && pos[..j] == pos;
      assert treeIndexes == treeIndexes[..i] && treePositions == treePositions[..i];
    }

    /** Uploads what is pending; afterwards nothing is. */
    method SendMeshGPU()
      requires Valid()
      modifies terrainMesh`createdOnGPU, terrainMesh`needSendGPU, waterMesh`createdOnGPU, waterMesh`needSendGPU
      modifies this`treesUpdated
      ensures Valid() && !NeedMeshSentGPU()
      ensures terrainMesh.createdOnGPU == (old(terrainMesh.createdOnGPU) || old(terrainMesh.needSendGPU))
      ensures waterMesh.createdOnGPU == (old(waterMesh.createdOnGPU) || old(waterMesh.needSendGPU))
    {
      if terrainMesh.needSendGPU {
        terrainMesh.SendGPU();
      }
      if waterMesh.needSendGPU {
        waterMesh.SendGPU();
      }
      if treesUpdated {
        treesUpdated := false;
      }
    }

    /** Copies the heightmap into the altitude and regenerates the terrain mesh and the tree filter. */
    method UpdateAltitude(grass: int -> real)
      requires Valid() && Meshed()
      modifies altitude
      modifies terrainMesh`needSendGPU, terrainMesh`generated, terrainMesh`numIndices
      modifies terrainMesh`heights, terrainMesh`normals, terrainMesh`indices
      modifies terrainMesh.heights, terrainMesh.normals, terrainMesh.indices
      modifies waterMesh`needSendGPU, waterMesh`generated, waterMesh`numIndices
      modifies waterMesh`heights, waterMesh`normals, waterMesh`indices
      modifies waterMesh.heights, waterMesh.normals, waterMesh.indices
      modifies this`treeIndexes, this`treePositions, this`treesUpdated
      ensures Valid() && Meshed() && NeedMeshSentGPU()
      ensures unchanged(waterMesh) && waterMesh.heights[..] == old(waterMesh.heights[..])
      ensures altitude[..] == heightmap[..] && heightmap[..] == old(heightmap[..])
      ensures terrainMesh.generated && terrainMesh.heights[..] == heightmap[..]
      ensures terrainMesh.normals[..] == NormalPass(width, width, heightmap[..], Zeros(width * width))
      ensures treeIndexes == KeptIndexes(old(treeIndexes), grass)
      ensures treePositions == KeptPositions(old(treeIndexes), old(treePositions), grass)
      ensures treesUpdated == (old(treesUpdated) || AnyBare(old(treeIndexes), grass))
    {
      CopyAltitude();
      GenerateMesh(false, grass);
    }

    /** The copy loop of the altitude. */
    method CopyAltitude()
      requires Sized()
      modifies altitude
      ensures altitude[..] == heightmap[..]
    {
      var i := 0;
      while i < width * width
        invariant 0 <= i <= size
        invariant forall k :: 0 <= k < i ==> altitude[k] == heightmap[k]
      {
        altitude[i] := heightmap[i];
        i := i + 1;
      }
    }

    /** Releases both meshes and empties the tree lists; the tree flag is left as it was. */
    method Clean()
      requires Valid()
      modifies terrainMesh`createdOnGPU, terrainMesh`generated, terrainMesh`needSendGPU, terrainMesh`numIndices
      modifies waterMesh`createdOnGPU, waterMesh`generated, waterMesh`needSendGPU, waterMesh`numIndices
      modifies this`treeIndexes, this`treePositions
      ensures Valid() && treeIndexes == [] && treePositions == []
      ensures !terrainMesh.generated && !terrainMesh.createdOnGPU && !waterMesh.generated && !waterMesh.createdOnGPU
      ensures NeedMeshSentGPU() == treesUpdated
    {
      terrainMesh.Clean();
      waterMesh.Clean();
      treeIndexes := [];
      treePositions := [];
    }
  }
}
