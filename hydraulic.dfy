/**
  Reference definition of one hydraulic pass of the CPU erosion engine
  (ErosionManager::hydraulicErosionCPU), as pure functions over the in and
  out buffers, and the facts proved about it: every share divides by a
  positive total, a dry cell contributes nothing, the water that leaves a
  cell is at most the water it holds, and the pass conserves both the total
  water and the total of height plus suspended sediment over the grid.
 */
module Hydraulic {
  import opened Layout

  /** Erosion parameters (the public fields of ErosionManager). */
  datatype Params = Params(
    nSteps: int,
    hydraulicEnabled: bool,
    kC: real,   // sediment capacity
    kD: real,   // deposition rate
    kS: real,   // dissolving rate
    kE: real,   // evaporation multiplier
    rain: real,
    rainFrequency: int,
    thermalEnabled: bool,
    kT: real,   // talus angle
    cT: real)   // thermal weathering rate

  /** The defaults the engine starts with. */
  const DefaultParams: Params :=
    Params(2500, true, 0.75, 0.015, 0.15, 1.0, 0.15, 0, true, 0.6, 0.05)

  /** Moore-neighbourhood offset tables, in the order the engine scans them. */
  const DX: seq<int> := [-1, 0, 1, -1, 1, -1, 0, 1]
  const DZ: seq<int> := [-1, -1, -1, 0, 0, 1, 1, 1]

  /** One generation of the per-cell fields. */
  datatype Buffers = Buffers(height: seq<real>, water: seq<real>, sediment: seq<real>)

  predicate Sized(w: nat, b: Buffers)
  {
    |b.height| == w * w && |b.water| == w * w && |b.sediment| == w * w
  }

  /** Flat index of the i-th Moore neighbour of an interior cell. */
  function Neighbour(w: nat, z: int, x: int, i: int): (r: nat)
    requires Interior(w, z, x) && 0 <= i < 8
    ensures r < w * w && r == Idx(w, z + DZ[i], x + DX[i])
  {
    Cell(w, z + DZ[i], x + DX[i])
  }

  /** Drop in water level (terrain plus water) from cell (z, x) to its i-th neighbour. */
  function DeltaH(w: nat, ins: Buffers, z: int, x: int, i: int): real
    requires Sized(w, ins) && Interior(w, z, x) && 0 <= i < 8
  {
    var c := Cell(w, z, x);
    var n := Neighbour(w, z, x, i);
    (ins.height[c] + ins.water[c]) - (ins.height[n] + ins.water[n])
  }

  function Pos(a: real): real
  {
    if a > 0.0 then a else 0.0
  }

  /** totalDeltaH after scanning the first n neighbours: the sum of the downhill drops. */
  function TotalDown(w: nat, ins: Buffers, z: int, x: int, n: int): real
    requires Sized(w, ins) && Interior(w, z, x) && 0 <= n <= 8
  {
    if n == 0 then 0.0 else TotalDown(w, ins, z, x, n - 1) + Pos(DeltaH(w, ins, z, x, n - 1))
  }

  /** Every downhill drop is bounded by the total of the downhill drops. */
  lemma {:induction false} TotalDownCovers(w: nat, ins: Buffers, z: int, x: int, i: int, n: int)
    requires Sized(w, ins) && Interior(w, z, x) && 0 <= i < n <= 8
    ensures DeltaH(w, ins, z, x, i) > 0.0 ==> DeltaH(w, ins, z, x, i) <= TotalDown(w, ins, z, x, n)
  {
    TotalDownNonNegative(w, ins, z, x, n - 1);
    if i < n - 1 {
      TotalDownCovers(w, ins, z, x, i, n - 1);
    }
  }

  lemma {:induction false} TotalDownNonNegative(w: nat, ins: Buffers, z: int, x: int, n: int)
    requires Sized(w, ins) && Interior(w, z, x) && 0 <= n <= 8
    ensures TotalDown(w, ins, z, x, n) >= 0.0
  {
    if n > 0 {
      TotalDownNonNegative(w, ins, z, x, n - 1);
    }
  }

  /** When no neighbour is downhill, the total is zero, and conversely. */
  lemma {:induction false} TotalDownZero(w: nat, ins: Buffers, z: int, x: int, n: int)
    requires Sized(w, ins) && Interior(w, z, x) && 0 < n <= 8
    requires TotalDown(w, ins, z, x, n) == 0.0
    ensures TotalDown(w, ins, z, x, n - 1) == 0.0 && DeltaH(w, ins, z, x, n - 1) <= 0.0
  {
    TotalDownNonNegative(w, ins, z, x, n - 1);
  }

  /** The out buffers being accumulated for one cell, with its three running totals. */
  datatype CellFlow = CellFlow(outs: Buffers, dH: real, dS: real, dW: real)

  /** Water, sediment and height moved by cell (z, x) towards its i-th neighbour. */
  function FlowNeighbour(p: Params, w: nat, ins: Buffers, z: int, x: int, i: int, total: real, acc: CellFlow): (r: CellFlow)
    requires Sized(w, ins) && Sized(w, acc.outs) && Interior(w, z, x) && 0 <= i < 8
    requires DeltaH(w, ins, z, x, i) > 0.0 ==> DeltaH(w, ins, z, x, i) <= total
    ensures Sized(w, r.outs) && r.outs.height == acc.outs.height
  {
    var c := Cell(w, z, x);
    var n := Neighbour(w, z, x, i);
    var deltaH := DeltaH(w, ins, z, x, i);
    var deltaW := Min(ins.water[c], deltaH);
    if deltaW <= 0.0 then
      // the neighbour stands level or higher: deposit here if the ground is not higher
      if ins.height[c] <= ins.height[n] then
        var deposit := p.kD * ins.sediment[c];
        acc.(dH := acc.dH + deposit, dS := acc.dS - deposit)
      else
        acc
    else
      var t := Carry(p, ins.water[c], ins.sediment[c], deltaH, total);
      Send(acc, n, t.flow, t.sed, t.dh, t.ds)
  }

  /** What one downhill transfer moves: water to the neighbour, sediment to the neighbour, and
      the changes to the cell's height and sediment totals. */
  datatype Transfer = Transfer(flow: real, sed: real, dh: real, ds: real)

  /** The downhill transfer from a cell holding water wc and sediment sc, for a drop deltaH
      out of a total downhill drop total: either the sediment above capacity is partly
      deposited, or the missing capacity is dissolved from the terrain. */
  function Carry(p: Params, wc: real, sc: real, deltaH: real, total: real): (t: Transfer)
    requires 0.0 < Min(wc, deltaH) && deltaH <= total
    ensures t.sed + t.dh + t.ds == 0.0
    ensures t.flow == Portion(wc, deltaH, total)
  {
    var share := deltaH / total;
    var flow := Min(wc, deltaH) * share;
    var deltaS := sc * share;
    var sCap := flow * p.kC;
    if deltaS >= sCap then
      var toDeposit := p.kD * (deltaS - sCap);
      Transfer(flow, sCap, toDeposit, -(toDeposit + sCap))
    else
      var erosion := p.kS * (sCap - deltaS);
      Transfer(flow, deltaS + erosion, -erosion, -deltaS)
  }

  /** Moves flow water and sed sediment into neighbour n and adjusts the cell's running totals. */
  function Send(acc: CellFlow, n: nat, flow: real, sed: real, dh: real, ds: real): (r: CellFlow)
    requires n < |acc.outs.water| && n < |acc.outs.sediment|
    ensures |r.outs.water| == |acc.outs.water| && |r.outs.sediment| == |acc.outs.sediment|
    ensures r.outs.height == acc.outs.height
  {
    CellFlow(Buffers(acc.outs.height,
                     acc.outs.water[n := acc.outs.water[n] + flow],
                     acc.outs.sediment[n := acc.outs.sediment[n] + sed]),
             acc.dH + dh, acc.dS + ds, acc.dW - flow)
  }

  /** Water is always balanced by a send; mass is balanced exactly when the three amounts cancel. */
  lemma SendBalances(acc: CellFlow, n: nat, flow: real, sed: real, dh: real, ds: real)
    requires n < |acc.outs.water| && n < |acc.outs.sediment|
    ensures var r := Send(acc, n, flow, sed, dh, ds);
            Sum(r.outs.water) + r.dW == Sum(acc.outs.water) + acc.dW &&
            (Mass(r.outs) + r.dH + r.dS == Mass(acc.outs) + acc.dH + acc.dS <==> sed + dh + ds == 0.0)
  {
    SumAdd(acc.outs.water, n, flow);
    SumAdd(acc.outs.sediment, n, sed);
  }

  /** The second neighbour scan of cell (z, x), over the first n neighbours. */
  function FlowNeighbours(p: Params, w: nat, ins: Buffers, z: int, x: int, n: int, acc: CellFlow): (r: CellFlow)
    requires Sized(w, ins) && Sized(w, acc.outs) && Interior(w, z, x) && 0 <= n <= 8
    ensures Sized(w, r.outs) && r.outs.height == acc.outs.height
    decreases n
  {
    if n == 0 then acc
    else
      var prev := FlowNeighbours(p, w, ins, z, x, n - 1, acc);
      TotalDownCovers(w, ins, z, x, n - 1, 8);
      FlowNeighbour(p, w, ins, z, x, n - 1, TotalDown(w, ins, z, x, 8), prev)
  }

  /** The neighbour scans of one cell, followed by its own three updates. */
  function HydraulicCell(p: Params, w: nat, ins: Buffers, z: int, x: int, outs: Buffers): (r: Buffers)
    requires Sized(w, ins) && Sized(w, outs) && Interior(w, z, x)
    ensures Sized(w, r)
  {
    var c := Cell(w, z, x);
    if ins.water[c] == 0.0 then outs
    else CloseCell(FlowNeighbours(p, w, ins, z, x, 8, CellFlow(outs, 0.0, 0.0, 0.0)), c)
  }

  /** Adds a cell's running totals into its own out entries. */
  function CloseCell(f: CellFlow, c: nat): (r: Buffers)
    requires c < |f.outs.height| && c < |f.outs.water| && c < |f.outs.sediment|
    ensures |r.height| == |f.outs.height| && |r.water| == |f.outs.water| && |r.sediment| == |f.outs.sediment|
  {
    Buffers(f.outs.height[c := f.outs.height[c] + f.dH],
            f.outs.water[c := f.outs.water[c] + f.dW],
            f.outs.sediment[c := f.outs.sediment[c] + f.dS])
  }

  /** Closing a cell moves its running totals into the grid sums. */
  lemma CloseCellSums(f: CellFlow, c: nat)
    requires c < |f.outs.height| && c < |f.outs.water| && c < |f.outs.sediment|
    ensures var r := CloseCell(f, c);
            Sum(r.water) == Sum(f.outs.water) + f.dW && Mass(r) == Mass(f.outs) + f.dH + f.dS
  {
    SumAdd(f.outs.height, c, f.dH);
    SumAdd(f.outs.water, c, f.dW);
    SumAdd(f.outs.sediment, c, f.dS);
  }

  /** Cells (z, 1) .. (z, k - 1) of row z, in order. */
  function HydraulicRow(p: Params, w: nat, ins: Buffers, z: int, k: int, outs: Buffers): (r: Buffers)
    requires Sized(w, ins) && Sized(w, outs) && 1 <= z < w - 1 && 1 <= k <= w - 1
    ensures Sized(w, r)
    decreases k
  {
    if k == 1 then outs
    else HydraulicCell(p, w, ins, z, k - 1, HydraulicRow(p, w, ins, z, k - 1, outs))
  }

  /** Rows 1 .. k - 1, in order. */
  function HydraulicRows(p: Params, w: nat, ins: Buffers, k: int, outs: Buffers): (r: Buffers)
    requires Sized(w, ins) && Sized(w, outs) && 1 <= k <= w - 1
    ensures Sized(w, r)
    decreases k
  {
    if k == 1 then outs
    else HydraulicRow(p, w, ins, k - 1, w - 1, HydraulicRows(p, w, ins, k - 1, outs))
  }

  /** A whole hydraulic pass: every interior cell scatters into the out buffers. */
  function HydraulicPass(p: Params, w: nat, ins: Buffers, outs: Buffers): (r: Buffers)
    requires Sized(w, ins) && Sized(w, outs) && w >= 2
    ensures Sized(w, r)
  {
    HydraulicRows(p, w, ins, w - 1, outs)
  }

  // ---------------------------------------------------------------------------
  // Conservation

  /** Height plus suspended sediment over the whole grid. */
  function Mass(b: Buffers): real
  {
    Sum(b.height) + Sum(b.sediment)
  }

  /** Each of the three branches balances: what leaves the running totals arrives in a neighbour. */
  lemma FlowNeighbourBalances(p: Params, w: nat, ins: Buffers, z: int, x: int, i: int, total: real, acc: CellFlow)
    requires Sized(w, ins) && Sized(w, acc.outs) && Interior(w, z, x) && 0 <= i < 8
    requires DeltaH(w, ins, z, x, i) > 0.0 ==> DeltaH(w, ins, z, x, i) <= total
    ensures var r := FlowNeighbour(p, w, ins, z, x, i, total, acc);
            Sum(r.outs.water) + r.dW == Sum(acc.outs.water) + acc.dW &&
            Mass(r.outs) + r.dH + r.dS == Mass(acc.outs) + acc.dH + acc.dS
  {
    var c := Cell(w, z, x);
    var n := Neighbour(w, z, x, i);
    var deltaH := DeltaH(w, ins, z, x, i);
    var deltaW := Min(ins.water[c], deltaH);
    if deltaW > 0.0 {
      var t := Carry(p, ins.water[c], ins.sediment[c], deltaH, total);
      SendBalances(acc, n, t.flow, t.sed, t.dh, t.ds);
    }
  }

  lemma {:induction false} FlowNeighboursBalance(p: Params, w: nat, ins: Buffers, z: int, x: int, n: int, acc: CellFlow)
    requires Sized(w, ins) && Sized(w, acc.outs) && Interior(w, z, x) && 0 <= n <= 8
    ensures var r := FlowNeighbours(p, w, ins, z, x, n, acc);
            Sum(r.outs.water) + r.dW == Sum(acc.outs.water) + acc.dW &&
            Mass(r.outs) + r.dH + r.dS == Mass(acc.outs) + acc.dH + acc.dS
    decreases n
  {
    if n > 0 {
      FlowNeighboursBalance(p, w, ins, z, x, n - 1, acc);
      var prev := FlowNeighbours(p, w, ins, z, x, n - 1, acc);
      TotalDownCovers(w, ins, z, x, n - 1, 8);
      FlowNeighbourBalances(p, w, ins, z, x, n - 1, TotalDown(w, ins, z, x, 8), prev);
    }
  }

  /** b holds the same total water, and the same height plus sediment, as a. */
  predicate Balanced(b: Buffers, a: Buffers)
  {
    Sum(b.water) == Sum(a.water) && Mass(b) == Mass(a)
  }

  lemma BalancedTrans(c: Buffers, b: Buffers, a: Buffers)
    requires Balanced(c, b) && Balanced(b, a)
    ensures Balanced(c, a)
  {
  }

  /** One cell's scatter conserves total water and total height plus sediment. */
  lemma HydraulicCellConserves(p: Params, w: nat, ins: Buffers, z: int, x: int, outs: Buffers)
    requires Sized(w, ins) && Sized(w, outs) && Interior(w, z, x)
    ensures Balanced(HydraulicCell(p, w, ins, z, x, outs), outs)
  {
    var c := Cell(w, z, x);
    if ins.water[c] != 0.0 {
      var acc := CellFlow(outs, 0.0, 0.0, 0.0);
      FlowNeighboursBalance(p, w, ins, z, x, 8, acc);
      CloseCellSums(FlowNeighbours(p, w, ins, z, x, 8, acc), c);
    }
  }

  lemma {:induction false} HydraulicRowConserves(p: Params, w: nat, ins: Buffers, z: int, k: int, outs: Buffers)
    requires Sized(w, ins) && Sized(w, outs) && 1 <= z < w - 1 && 1 <= k <= w - 1
    ensures Balanced(HydraulicRow(p, w, ins, z, k, outs), outs)
    decreases k
  {
    if k > 1 {
      var prev := HydraulicRow(p, w, ins, z, k - 1, outs);
      HydraulicRowConserves(p, w, ins, z, k - 1, outs);
      HydraulicCellConserves(p, w, ins, z, k - 1, prev);
      BalancedTrans(HydraulicCell(p, w, ins, z, k - 1, prev), prev, outs);
    }
  }

  lemma {:induction false} HydraulicRowsConserve(p: Params, w: nat, ins: Buffers, k: int, outs: Buffers)
    requires Sized(w, ins) && Sized(w, outs) && 1 <= k <= w - 1
    ensures Balanced(HydraulicRows(p, w, ins, k, outs), outs)
    decreases k
  {
    if k > 1 {
      var prev := HydraulicRows(p, w, ins, k - 1, outs);
      HydraulicRowsConserve(p, w, ins, k - 1, outs);
      HydraulicRowConserves(p, w, ins, k - 1, w - 1, prev);
      BalancedTrans(HydraulicRow(p, w, ins, k - 1, w - 1, prev), prev, outs);
    }
  }

  /** The hydraulic pass conserves the water summed over the whole grid, and height plus sediment. */
  lemma HydraulicPassConserves(p: Params, w: nat, ins: Buffers, outs: Buffers)
    requires Sized(w, ins) && Sized(w, outs) && w >= 2
    ensures var r := HydraulicPass(p, w, ins, outs);
            Sum(r.water) == Sum(outs.water) &&
            Sum(r.height) + Sum(r.sediment) == Sum(outs.height) + Sum(outs.sediment)
  {
    HydraulicRowsConserve(p, w, ins, w - 1, outs);
  }

  // ---------------------------------------------------------------------------
  // Outflow of one cell

  /** The water a cell holding wc sends down a drop d, out of a total downhill drop total:
      the smaller of wc and d, scaled by the drop's share of the total. */
  function Portion(wc: real, d: real, total: real): (r: real)
    requires d > 0.0 ==> d <= total
    ensures r >= 0.0
  {
    var m := Min(wc, d);
    if m <= 0.0 then 0.0
    else
      assert d / total > 0.0;
      m * (d / total)
  }

  /** a scaled by t is at most c scaled by b. */
  predicate ScaledAtMost(a: real, t: real, c: real, b: real)
  {
    a * t <= c * b
  }

  /** A portion is at most the cell's water times the drop's share. */
  lemma PortionBounded(wc: real, d: real, total: real)
    requires d > 0.0 ==> d <= total
    ensures ScaledAtMost(Portion(wc, d, total), total, Pos(wc), Pos(d))
    ensures d <= 0.0 ==> Portion(wc, d, total) == 0.0
  {
    var m := Min(wc, d);
    if m > 0.0 {
      assert (d / total) * total == d;
      assert m * (d / total) * total == m * d;
      assert m * d <= wc * d;
    }
  }

  /** Sum of the downhill parts of a list of drops. */
  function SumPos(ds: seq<real>): (r: real)
    ensures r >= 0.0
  {
    if |ds| == 0 then 0.0 else SumPos(ds[..|ds| - 1]) + Pos(ds[|ds| - 1])
  }

  /** The portions sent down each of a list of drops, summed. */
  function PortionSum(wc: real, ds: seq<real>, total: real): real
    requires forall i :: 0 <= i < |ds| ==> ds[i] > 0.0 ==> ds[i] <= total
  {
    if |ds| == 0 then 0.0
    else PortionSum(wc, ds[..|ds| - 1], total) + Portion(wc, ds[|ds| - 1], total)
  }

  /** Summed portions: non-negative, scaled by the total at most the water times the summed
      drops, and zero when no drop is downhill. */
  lemma {:induction false} PortionSumBounded(wc: real, ds: seq<real>, total: real)
    requires forall i :: 0 <= i < |ds| ==> ds[i] > 0.0 ==> ds[i] <= total
    ensures var o := PortionSum(wc, ds, total);
            o >= 0.0 && ScaledAtMost(o, total, Pos(wc), SumPos(ds)) && (SumPos(ds) == 0.0 ==> o == 0.0)
  {
    if |ds| > 0 {
      var k := |ds| - 1;
      PortionSumBounded(wc, ds[..k], total);
      PortionBounded(wc, ds[k], total);
      AddBound(PortionSum(wc, ds[..k], total), Portion(wc, ds[k], total), total, Pos(wc), SumPos(ds[..k]), Pos(ds[k]),
               PortionSum(wc, ds, total), SumPos(ds));
    }
  }

  lemma CancelPositive(a: real, b: real, s: real, t: real)
    requires t > 0.0 && s == t && ScaledAtMost(a, t, b, s)
    ensures a <= b
  {
  }

  lemma AddBound(a: real, b: real, t: real, c: real, x: real, y: real, s: real, u: real)
    requires ScaledAtMost(a, t, c, x) && ScaledAtMost(b, t, c, y)
    requires s == a + b && u == x + y
    ensures ScaledAtMost(s, t, c, u)
  {
    assert s * t == a * t + b * t;
    assert c * u == c * x + c * y;
  }

  /** When the drops' downhill parts add up to total, the portions add up to at most the water. */
  lemma PortionSumWithinWater(wc: real, ds: seq<real>, total: real)
    requires forall i :: 0 <= i < |ds| ==> ds[i] > 0.0 ==> ds[i] <= total
    requires total == SumPos(ds)
    ensures 0.0 <= PortionSum(wc, ds, total) <= Pos(wc)
  {
    PortionSumBounded(wc, ds, total);
    if total > 0.0 {
      CancelPositive(PortionSum(wc, ds, total), Pos(wc), SumPos(ds), total);
    }
  }

  /** The first n drops of cell (z, x), in scan order. */
  function Drops(w: nat, ins: Buffers, z: int, x: int, n: int): (r: seq<real>)
    requires Sized(w, ins) && Interior(w, z, x) && 0 <= n <= 8
    ensures |r| == n
    ensures forall i :: 0 <= i < n ==> r[i] == DeltaH(w, ins, z, x, i)
  {
    if n == 0 then [] else Drops(w, ins, z, x, n - 1) + [DeltaH(w, ins, z, x, n - 1)]
  }

  /** The water the scan has sent to the first n neighbours. */
  function OutflowTotal(w: nat, ins: Buffers, z: int, x: int, n: int): real
    requires Sized(w, ins) && Interior(w, z, x) && 0 <= n <= 8
  {
    if n == 0 then 0.0
    else
      TotalDownCovers(w, ins, z, x, n - 1, 8);
      OutflowTotal(w, ins, z, x, n - 1) +
        Portion(ins.water[Cell(w, z, x)], DeltaH(w, ins, z, x, n - 1), TotalDown(w, ins, z, x, 8))
  }

  /** The scan takes from the cell's water exactly the water it sends to the neighbours. */
  lemma {:induction false} FlowNeighboursTakes(p: Params, w: nat, ins: Buffers, z: int, x: int, n: int, acc: CellFlow)
    requires Sized(w, ins) && Sized(w, acc.outs) && Interior(w, z, x) && 0 <= n <= 8
    ensures acc.dW - FlowNeighbours(p, w, ins, z, x, n, acc).dW == OutflowTotal(w, ins, z, x, n)
    decreases n
  {
    if n > 0 {
      FlowNeighboursTakes(p, w, ins, z, x, n - 1, acc);
    }
  }

  /** The per-cell folds agree with the list forms. */
  lemma {:induction false} FoldsAreSums(w: nat, ins: Buffers, z: int, x: int, n: int)
    requires Sized(w, ins) && Interior(w, z, x) && 0 <= n <= 8
    ensures forall i :: 0 <= i < n ==> Drops(w, ins, z, x, n)[i] > 0.0 ==> Drops(w, ins, z, x, n)[i] <= TotalDown(w, ins, z, x, 8)
    ensures TotalDown(w, ins, z, x, n) == SumPos(Drops(w, ins, z, x, n))
    ensures OutflowTotal(w, ins, z, x, n) == PortionSum(ins.water[Cell(w, z, x)], Drops(w, ins, z, x, n), TotalDown(w, ins, z, x, 8))
  {
    var ds := Drops(w, ins, z, x, n);
    forall i | 0 <= i < n
      ensures ds[i] > 0.0 ==> ds[i] <= TotalDown(w, ins, z, x, 8)
    {
      TotalDownCovers(w, ins, z, x, i, 8);
    }
    if n > 0 {
      FoldsAreSums(w, ins, z, x, n - 1);
      assert ds[..n - 1] == Drops(w, ins, z, x, n - 1);
    }
  }

  /** The water a cell's scan takes from it is at most the water it holds. */
  lemma HydraulicCellOutflowBounded(p: Params, w: nat, ins: Buffers, z: int, x: int, outs: Buffers)
    requires Sized(w, ins) && Sized(w, outs) && Interior(w, z, x)
    ensures var f := FlowNeighbours(p, w, ins, z, x, 8, CellFlow(outs, 0.0, 0.0, 0.0));
            0.0 <= -f.dW <= Pos(ins.water[Cell(w, z, x)])
  {
    FlowNeighboursTakes(p, w, ins, z, x, 8, CellFlow(outs, 0.0, 0.0, 0.0));
    FoldsAreSums(w, ins, z, x, 8);
    PortionSumWithinWater(ins.water[Cell(w, z, x)], Drops(w, ins, z, x, 8), TotalDown(w, ins, z, x, 8));
  }

  /** A cell holding no water changes nothing. */
  lemma HydraulicDryCellInert(p: Params, w: nat, ins: Buffers, z: int, x: int, outs: Buffers)
    requires Sized(w, ins) && Sized(w, outs) && Interior(w, z, x)
    requires ins.water[Cell(w, z, x)] == 0.0
    ensures HydraulicCell(p, w, ins, z, x, outs) == outs
  {
  }
}
