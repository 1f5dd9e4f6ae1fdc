/**
  Reference definition of one thermal-weathering pass of the CPU erosion
  engine (ErosionManager::thermalErosionCPU): every interior cell looks at its
  interior Moore neighbours, keeps those lower than itself by more than the
  talus threshold kT, and moves height into each of them in proportion to its
  drop. Proved here: the pass never divides by zero once kT >= 0, it
  conserves the total of the height out buffer, it writes only interior
  cells, it credits exactly the neighbours whose drop exceeds kT, and every
  credit is non-negative when cT >= 0.
 */
module Thermal {
  import opened Layout
  import opened Hydraulic

  /** A neighbour the cell is steeper than the talus threshold towards: its flat index and the drop. */
  datatype Lower = Lower(n: nat, d: real)

  /** The i-th Moore neighbour of (z, x) lies strictly inside the boundary ring. */
  predicate NeighbourInterior(w: nat, z: int, x: int, i: int)
    requires 0 <= i < 8
  {
    Interior(w, z + DZ[i], x + DX[i])
  }

  /** Height drop from interior cell (z, x) to its i-th neighbour. */
  function Drop(w: nat, h: seq<real>, z: int, x: int, i: int): real
    requires |h| == w * w && Interior(w, z, x) && 0 <= i < 8
  {
    h[Cell(w, z, x)] - h[Neighbour(w, z, x, i)]
  }

  /** The neighbour scan keeps neighbour i. */
  predicate Steeper(kT: real, w: nat, h: seq<real>, z: int, x: int, i: int)
    requires |h| == w * w && Interior(w, z, x) && 0 <= i < 8
  {
    NeighbourInterior(w, z, x, i) && Drop(w, h, z, x, i) > kT
  }

  /** The compacted neighbour list after scanning the first k neighbours, in scan order. */
  function Lowers(kT: real, w: nat, h: seq<real>, z: int, x: int, k: int): (r: seq<Lower>)
    requires |h| == w * w && Interior(w, z, x) && 0 <= k <= 8
    ensures |r| <= k
    ensures forall j :: 0 <= j < |r| ==> r[j].d > kT && r[j].n < w * w
    decreases k
  {
    if k == 0 then []
    else if Steeper(kT, w, h, z, x, k - 1) then
      Lowers(kT, w, h, z, x, k - 1) + [Lower(Neighbour(w, z, x, k - 1), Drop(w, h, z, x, k - 1))]
    else Lowers(kT, w, h, z, x, k - 1)
  }

  /** One more neighbour of the scan: appended, with its drop added to the total, exactly when it is steeper. */
  lemma LowersNext(kT: real, w: nat, h: seq<real>, z: int, x: int, i: int)
    requires |h| == w * w && Interior(w, z, x) && 0 <= i < 8
    ensures var prev := Lowers(kT, w, h, z, x, i);
            var next := Lowers(kT, w, h, z, x, i + 1);
            if Steeper(kT, w, h, z, x, i) then
              next == prev + [Lower(Neighbour(w, z, x, i), Drop(w, h, z, x, i))] &&
              SumDrops(next) == SumDrops(prev) + Drop(w, h, z, x, i)
            else next == prev
  {
    var prev := Lowers(kT, w, h, z, x, i);
    var l := Lower(Neighbour(w, z, x, i), Drop(w, h, z, x, i));
    assert (prev + [l])[..|prev|] == prev;
  }

  /** totalDeltaH: the sum of the kept drops. */
  function SumDrops(ls: seq<Lower>): real
  {
    if |ls| == 0 then 0.0 else SumDrops(ls[..|ls| - 1]) + ls[|ls| - 1].d
  }

  /** Every kept drop is positive and at most the total. */
  predicate DropsWithin(ls: seq<Lower>, total: real)
  {
    forall j :: 0 <= j < |ls| ==> 0.0 < ls[j].d <= total
  }

  /** The height moved to one kept neighbour: cT (d - kT) scaled by the neighbour's share. */
  function Credit(p: Params, d: real, total: real): real
    requires 0.0 < d <= total
  {
    p.cT * (d - p.kT) * (d / total)
  }

  /** The credit loop over the first k kept neighbours: the out heights and the cell's running total. */
  function Credits(p: Params, ls: seq<Lower>, total: real, k: int, outs: seq<real>): (r: (seq<real>, real))
    requires 0 <= k <= |ls| && DropsWithin(ls, total)
    requires forall j :: 0 <= j < |ls| ==> ls[j].n < |outs|
    ensures |r.0| == |outs|
    decreases k
  {
    if k == 0 then (outs, 0.0)
    else
      var prev := Credits(p, ls, total, k - 1, outs);
      var l := ls[k - 1];
      var c := Credit(p, l.d, total);
      (prev.0[l.n := prev.0[l.n] + c], prev.1 - c)
  }

  /** The scan result of flat cell i: the kept list of an interior cell; boundary cells are never visited. */
  function CellLowers(kT: real, w: nat, h: seq<real>, i: int): seq<Lower>
    requires |h| == w * w && 0 <= i
  {
    if InteriorIndex(w, i) then Lowers(kT, w, h, i / w, i % w, 8) else []
  }

  /**
    The scan results of cells 0 .. n - 1. The scan of a cell reads only the
    height in buffer, which the pass never writes, so scanning every cell
    before crediting any gives the same lists as the interleaved loop.
   */
  function Scan(kT: real, w: nat, h: seq<real>, n: int): (r: seq<seq<Lower>>)
    requires |h| == w * w && 0 <= n
    ensures |r| == n
    decreases n
  {
    if n == 0 then [] else Scan(kT, w, h, n - 1) + [CellLowers(kT, w, h, n - 1)]
  }

  /** A kept list whose shares are defined and whose targets are interior cells of the grid. */
  predicate ListValid(w: nat, ls: seq<Lower>)
  {
    DropsWithin(ls, SumDrops(ls)) && forall j :: 0 <= j < |ls| ==> ls[j].n < w * w && InteriorIndex(w, ls[j].n)
  }

  /** One kept list per cell, each valid. */
  predicate ScanValid(w: nat, kept: seq<seq<Lower>>)
  {
    |kept| == w * w && forall i :: 0 <= i < |kept| ==> ListValid(w, kept[i])
  }

  /** One cell of the pass: credit every kept neighbour, then add the running total to the cell. */
  function ThermalCell(p: Params, w: nat, kept: seq<seq<Lower>>, z: int, x: int, outs: seq<real>): (r: seq<real>)
    requires ScanValid(w, kept) && |outs| == w * w && Interior(w, z, x)
    ensures |r| == w * w
  {
    Settle(p, kept[Cell(w, z, x)], Cell(w, z, x), outs)
  }

  /** Credits every listed neighbour, then adds the running total into cell c. */
  function Settle(p: Params, ls: seq<Lower>, c: nat, outs: seq<real>): (r: seq<real>)
    requires DropsWithin(ls, SumDrops(ls)) && c < |outs|
    requires forall j :: 0 <= j < |ls| ==> ls[j].n < |outs|
    ensures |r| == |outs|
  {
    var cr := Credits(p, ls, SumDrops(ls), |ls|, outs);
    cr.0[c := cr.0[c] + cr.1]
  }

  /** Cells (z, 1) .. (z, k - 1) of row z, in order. */
  function ThermalRow(p: Params, w: nat, kept: seq<seq<Lower>>, z: int, k: int, outs: seq<real>): (r: seq<real>)
    requires ScanValid(w, kept) && |outs| == w * w && 1 <= z < w - 1 && 1 <= k <= w - 1
    ensures |r| == w * w
    decreases k
  {
    if k == 1 then outs
    else ThermalCell(p, w, kept, z, k - 1, ThermalRow(p, w, kept, z, k - 1, outs))
  }

  /** Rows 1 .. k - 1, in order. */
  function ThermalRows(p: Params, w: nat, kept: seq<seq<Lower>>, k: int, outs: seq<real>): (r: seq<real>)
    requires ScanValid(w, kept) && |outs| == w * w && 1 <= k <= w - 1
    ensures |r| == w * w
    decreases k
  {
    if k == 1 then outs
    else ThermalRow(p, w, kept, k - 1, w - 1, ThermalRows(p, w, kept, k - 1, outs))
  }

  /** A whole thermal pass over the heights h, accumulating into the out heights. */
  function ThermalPass(p: Params, w: nat, h: seq<real>, outs: seq<real>): (r: seq<real>)
    requires p.kT >= 0.0
    requires |h| == w * w && |outs| == w * w && w >= 2
    ensures |r| == w * w
  {
    ScanIsValid(p.kT, w, h);
    ThermalRows(p, w, Scan(p.kT, w, h, w * w), w - 1, outs)
  }

  // ---------------------------------------------------------------------------
  // The neighbour list

  /** The list holds exactly the interior neighbours steeper than kT, each with its drop. */
  lemma {:induction false} LowersExactly(kT: real, w: nat, h: seq<real>, z: int, x: int, k: int)
    requires |h| == w * w && Interior(w, z, x) && 0 <= k <= 8
    ensures forall i :: 0 <= i < k && Steeper(kT, w, h, z, x, i) ==>
              Lower(Neighbour(w, z, x, i), Drop(w, h, z, x, i)) in Lowers(kT, w, h, z, x, k)
    ensures forall j :: 0 <= j < |Lowers(kT, w, h, z, x, k)| ==>
              exists i :: 0 <= i < k && Steeper(kT, w, h, z, x, i) &&
                Lowers(kT, w, h, z, x, k)[j] == Lower(Neighbour(w, z, x, i), Drop(w, h, z, x, i))
    decreases k
  {
    if k > 0 {
      LowersExactly(kT, w, h, z, x, k - 1);
      var prev := Lowers(kT, w, h, z, x, k - 1);
      var r := Lowers(kT, w, h, z, x, k);
      forall j | 0 <= j < |Lowers(kT, w, h, z, x, k)|
        ensures exists i :: 0 <= i < k && Steeper(kT, w, h, z, x, i) &&
                  Lowers(kT, w, h, z, x, k)[j] == Lower(Neighbour(w, z, x, i), Drop(w, h, z, x, i))
      {
        if j < |prev| {
          assert r[j] == prev[j];
          var i :| 0 <= i < k - 1 && Steeper(kT, w, h, z, x, i) && prev[j] == Lower(Neighbour(w, z, x, i), Drop(w, h, z, x, i));
          assert 0 <= i < k && Steeper(kT, w, h, z, x, i) && r[j] == Lower(Neighbour(w, z, x, i), Drop(w, h, z, x, i));
        } else {
          assert 0 <= k - 1 < k && Steeper(kT, w, h, z, x, k - 1) && r[j] == Lower(Neighbour(w, z, x, k - 1), Drop(w, h, z, x, k - 1));
        }
      }
    } else {
      assert Lowers(kT, w, h, z, x, k) == [];
    }
  }

  /** Every kept neighbour lies strictly inside the boundary ring. */
  lemma {:induction false} LowersInterior(kT: real, w: nat, h: seq<real>, z: int, x: int, k: int)
    requires |h| == w * w && Interior(w, z, x) && 0 <= k <= 8
    ensures forall j :: 0 <= j < |Lowers(kT, w, h, z, x, k)| ==> InteriorIndex(w, Lowers(kT, w, h, z, x, k)[j].n)
    decreases k
  {
    if k > 0 {
      LowersInterior(kT, w, h, z, x, k - 1);
      if Steeper(kT, w, h, z, x, k - 1) {
        InteriorIndexIff(w, z + DZ[k - 1], x + DX[k - 1]);
      }
    }
  }

  /** With kT >= 0 every kept drop is positive and bounded by their sum, so each share is defined. */
  lemma LowersWithin(kT: real, w: nat, h: seq<real>, z: int, x: int)
    requires kT >= 0.0 && |h| == w * w && Interior(w, z, x)
    ensures DropsWithin(Lowers(kT, w, h, z, x, 8), SumDrops(Lowers(kT, w, h, z, x, 8)))
  {
    PositiveDropsWithin(Lowers(kT, w, h, z, x, 8));
  }

  /** Positive drops are each at most their sum. */
  lemma {:induction false} PositiveDropsWithin(ls: seq<Lower>)
    requires forall j :: 0 <= j < |ls| ==> ls[j].d > 0.0
    ensures DropsWithin(ls, SumDrops(ls))
  {
    if |ls| > 0 {
      var k := |ls| - 1;
      PositiveDropsWithin(ls[..k]);
      SumDropsNonNegative(ls[..k]);
      assert forall j :: 0 <= j < k ==> ls[..k][j] == ls[j];
    }
  }

  lemma {:induction false} SumDropsNonNegative(ls: seq<Lower>)
    requires forall j :: 0 <= j < |ls| ==> ls[j].d > 0.0
    ensures SumDrops(ls) >= 0.0
  {
    if |ls| > 0 {
      SumDropsNonNegative(ls[..|ls| - 1]);
    }
  }

  // ---------------------------------------------------------------------------
  // The scan of the whole grid

  lemma {:induction false} ScanAt(kT: real, w: nat, h: seq<real>, n: int, i: int)
    requires |h| == w * w && 0 <= i < n
    ensures Scan(kT, w, h, n)[i] == CellLowers(kT, w, h, i)
    decreases n
  {
    if i < n - 1 {
      ScanAt(kT, w, h, n - 1, i);
    }
  }

  /** The list scanned for interior cell (z, x) is that cell's neighbour list. */
  lemma ScanCell(kT: real, w: nat, h: seq<real>, z: int, x: int)
    requires |h| == w * w && Interior(w, z, x)
    ensures Scan(kT, w, h, w * w)[Cell(w, z, x)] == Lowers(kT, w, h, z, x, 8)
  {
    ScanAt(kT, w, h, w * w, Cell(w, z, x));
    DivMod(w, z, x);
    InteriorIndexIff(w, z, x);
  }

  /** With kT >= 0 every scanned list has defined shares and credits only interior cells. */
  lemma ScanIsValid(kT: real, w: nat, h: seq<real>)
    requires kT >= 0.0 && |h| == w * w
    ensures ScanValid(w, Scan(kT, w, h, w * w))
  {
    var kept := Scan(kT, w, h, w * w);
    forall i | 0 <= i < |kept|
      ensures ListValid(w, kept[i])
    {
      ScanAt(kT, w, h, w * w, i);
      if InteriorIndex(w, i) {
        LowersWithin(kT, w, h, i / w, i % w);
        LowersInterior(kT, w, h, i / w, i % w, 8);
      }
    }
  }

  // ---------------------------------------------------------------------------
  // Credits are non-negative

  lemma ProductNonNegative(a: real, b: real, c: real)
    requires a >= 0.0 && b >= 0.0 && c >= 0.0
    ensures a * b * c >= 0.0
  {
    assert a * b >= 0.0;
  }

  /** With cT >= 0 a credit never takes height away from the neighbour. */
  lemma CreditNonNegative(p: Params, d: real, total: real)
    requires p.cT >= 0.0 && p.kT < d <= total && d > 0.0
    ensures Credit(p, d, total) >= 0.0
  {
    assert d / total > 0.0;
    ProductNonNegative(p.cT, d - p.kT, d / total);
  }

  // ---------------------------------------------------------------------------
  // Conservation

  /** The credit loop moves height out of the running total into the neighbours, exactly. */
  lemma {:induction false} CreditsBalance(p: Params, ls: seq<Lower>, total: real, k: int, outs: seq<real>)
    requires 0 <= k <= |ls| && DropsWithin(ls, total)
    requires forall j :: 0 <= j < |ls| ==> ls[j].n < |outs|
    ensures var r := Credits(p, ls, total, k, outs); Sum(r.0) + r.1 == Sum(outs)
    decreases k
  {
    if k > 0 {
      CreditsBalance(p, ls, total, k - 1, outs);
      var prev := Credits(p, ls, total, k - 1, outs);
      var l := ls[k - 1];
      SumAdd(prev.0, l.n, Credit(p, l.d, total));
    }
  }

  lemma SettleConserves(p: Params, ls: seq<Lower>, c: nat, outs: seq<real>)
    requires DropsWithin(ls, SumDrops(ls)) && c < |outs|
    requires forall j :: 0 <= j < |ls| ==> ls[j].n < |outs|
    ensures Sum(Settle(p, ls, c, outs)) == Sum(outs)
  {
    var cr := Credits(p, ls, SumDrops(ls), |ls|, outs);
    CreditsBalance(p, ls, SumDrops(ls), |ls|, outs);
    SumAdd(cr.0, c, cr.1);
    assert Settle(p, ls, c, outs) == cr.0[c := cr.0[c] + cr.1];
  }

  lemma {:induction false} ThermalRowConserves(p: Params, w: nat, kept: seq<seq<Lower>>, z: int, k: int, outs: seq<real>)
    requires ScanValid(w, kept) && |outs| == w * w && 1 <= z < w - 1 && 1 <= k <= w - 1
    ensures Sum(ThermalRow(p, w, kept, z, k, outs)) == Sum(outs)
    decreases k
  {
    if k > 1 {
      var prev := ThermalRow(p, w, kept, z, k - 1, outs);
      ThermalRowConserves(p, w, kept, z, k - 1, outs);
      var c := Cell(w, z, k - 1);
      SettleConserves(p, kept[c], c, prev);
    }
  }

  lemma {:induction false} ThermalRowsConserve(p: Params, w: nat, kept: seq<seq<Lower>>, k: int, outs: seq<real>)
    requires ScanValid(w, kept) && |outs| == w * w && 1 <= k <= w - 1
    ensures Sum(ThermalRows(p, w, kept, k, outs)) == Sum(outs)
    decreases k
  {
    if k > 1 {
      ThermalRowsConserve(p, w, kept, k - 1, outs);
      ThermalRowConserves(p, w, kept, k - 1, w - 1, ThermalRows(p, w, kept, k - 1, outs));
    }
  }

  /** The thermal pass conserves the total of the out heights. */
  lemma ThermalPassConserves(p: Params, w: nat, h: seq<real>, outs: seq<real>)
    requires p.kT >= 0.0
    requires |h| == w * w && |outs| == w * w && w >= 2
    ensures Sum(ThermalPass(p, w, h, outs)) == Sum(outs)
  {
    ScanIsValid(p.kT, w, h);
    ThermalRowsConserve(p, w, Scan(p.kT, w, h, w * w), w - 1, outs);
  }

  // ---------------------------------------------------------------------------
  // Only interior cells are written

  lemma {:induction false} CreditsKeepOthers(p: Params, ls: seq<Lower>, total: real, k: int, outs: seq<real>, i: int)
    requires 0 <= k <= |ls| && DropsWithin(ls, total)
    requires forall j :: 0 <= j < |ls| ==> ls[j].n < |outs|
    requires 0 <= i < |outs| && forall j :: 0 <= j < |ls| ==> ls[j].n != i
    ensures Credits(p, ls, total, k, outs).0[i] == outs[i]
    decreases k
  {
    if k > 0 {
      CreditsKeepOthers(p, ls, total, k - 1, outs, i);
    }
  }

  lemma ThermalCellKeepsBoundary(p: Params, w: nat, kept: seq<seq<Lower>>, z: int, x: int, outs: seq<real>, i: int)
    requires ScanValid(w, kept) && |outs| == w * w && Interior(w, z, x)
    requires 0 <= i < w * w && !InteriorIndex(w, i)
    ensures ThermalCell(p, w, kept, z, x, outs)[i] == outs[i]
  {
    var c := Cell(w, z, x);
    var ls := kept[c];
    assert ListValid(w, ls);
    CreditsKeepOthers(p, ls, SumDrops(ls), |ls|, outs, i);
    InteriorIndexIff(w, z, x);
  }

  lemma {:induction false} ThermalRowKeepsBoundary(p: Params, w: nat, kept: seq<seq<Lower>>, z: int, k: int, outs: seq<real>, i: int)
    requires ScanValid(w, kept) && |outs| == w * w && 1 <= z < w - 1 && 1 <= k <= w - 1
    requires 0 <= i < w * w && !InteriorIndex(w, i)
    ensures ThermalRow(p, w, kept, z, k, outs)[i] == outs[i]
    decreases k
  {
    if k > 1 {
      ThermalRowKeepsBoundary(p, w, kept, z, k - 1, outs, i);
      ThermalCellKeepsBoundary(p, w, kept, z, k - 1, ThermalRow(p, w, kept, z, k - 1, outs), i);
    }
  }

  lemma {:induction false} ThermalRowsKeepBoundary(p: Params, w: nat, kept: seq<seq<Lower>>, k: int, outs: seq<real>, i: int)
    requires ScanValid(w, kept) && |outs| == w * w && 1 <= k <= w - 1
    requires 0 <= i < w * w && !InteriorIndex(w, i)
    ensures ThermalRows(p, w, kept, k, outs)[i] == outs[i]
    decreases k
  {
    if k > 1 {
      ThermalRowsKeepBoundary(p, w, kept, k - 1, outs, i);
      ThermalRowKeepsBoundary(p, w, kept, k - 1, w - 1, ThermalRows(p, w, kept, k - 1, outs), i);
    }
  }

  /** The thermal pass leaves every boundary entry of the out heights as it was. */
  lemma ThermalPassKeepsBoundary(p: Params, w: nat, h: seq<real>, outs: seq<real>)
    requires p.kT >= 0.0
    requires |h| == w * w && |outs| == w * w && w >= 2
    ensures forall i :: 0 <= i < w * w && !InteriorIndex(w, i) ==> ThermalPass(p, w, h, outs)[i] == outs[i]
  {
    ScanIsValid(p.kT, w, h);
    forall i | 0 <= i < w * w && !InteriorIndex(w, i)
      ensures ThermalPass(p, w, h, outs)[i] == outs[i]
    {
      ThermalRowsKeepBoundary(p, w, Scan(p.kT, w, h, w * w), w - 1, outs, i);
    }
  }

  // ---------------------------------------------------------------------------
  // A cell with no steeper neighbour

  /** A cell none of whose neighbours is steeper than kT moves nothing. */
  lemma ThermalFlatCellInert(p: Params, w: nat, kept: seq<seq<Lower>>, z: int, x: int, outs: seq<real>)
    requires ScanValid(w, kept) && |outs| == w * w && Interior(w, z, x)
    requires kept[Cell(w, z, x)] == []
    ensures ThermalCell(p, w, kept, z, x, outs) == outs
  {
  }
}
