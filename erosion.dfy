/**
  The CPU erosion engine (class ErosionManager): the six buffers over a
  width-by-width grid, the initial fill, the rain injection, the hydraulic
  and thermal passes, the evaporation-and-rotation sweep, the run loop with
  its step counter and eroding flag, and the roughness score. Every loop is
  proved against the reference functions of modules Passes, Hydraulic and
  Thermal, whose properties are proved there.

  The in buffers heightIn and waterIn are the terrain's heightmap and water
  vectors; the manager is given them when it is initialised.
 */
module Erosion {
  import opened Layout
  import opened Hydraulic
  import opened Thermal
  import opened Passes
  import opened Roughness

  /**
    Number of iterations of the erosion loop `while (eroding && step < nSteps)`
    entered with flag `eroding` and counter `step`, when a stop request is
    observed after the iteration that brings the counter to j exactly when
    j is in `stops`.
   */
  function Iterations(eroding: bool, step: int, nSteps: int, stops: set<int>): (k: nat)
    ensures eroding && step < nSteps ==> 1 <= k <= nSteps - step
    ensures !(eroding && step < nSteps) ==> k == 0
    decreases nSteps - step
  {
    if eroding && step < nSteps then 1 + Iterations(step + 1 !in stops, step + 1, nSteps, stops) else 0
  }

  /** The eroding flag when the loop exits: true exactly when it ran out of steps without a stop request. */
  function ErodingAtExit(eroding: bool, step: int, nSteps: int, stops: set<int>): bool
    decreases nSteps - step
  {
    if eroding && step < nSteps then ErodingAtExit(step + 1 !in stops, step + 1, nSteps, stops) else eroding
  }

  /**
    The meshes the loop asks the terrain for during k iterations started at
    counter `start`: after the iteration that brings the counter to j, one
    regeneration with water shown as showWater when the terrain shows the
    erosion and has no mesh waiting for upload (j not in `pending`).
   */
  function LoopMeshes(start: int, k: nat, showErosion: bool, showWater: bool, pending: set<int>): (r: seq<bool>)
    ensures |r| <= k && (!showErosion ==> r == [])
    ensures forall i :: 0 <= i < |r| ==> r[i] == showWater
    decreases k
  {
    if k == 0 then []
    else LoopMeshes(start, k - 1, showErosion, showWater, pending) +
         (if showErosion && start + k !in pending then [showWater] else [])
  }

  /** One more iteration keeps the loop's accounting: counter, exit flag and mesh requests. */
  lemma LoopAdvances(e0: bool, s0: int, step: int, nSteps: int, stops: set<int>,
                     showErosion: bool, showWater: bool, pending: set<int>, meshes: seq<bool>)
    requires s0 <= step < nSteps
    requires Iterations(e0, s0, nSteps, stops) == step - s0 + Iterations(true, step, nSteps, stops)
    requires ErodingAtExit(e0, s0, nSteps, stops) == ErodingAtExit(true, step, nSteps, stops)
    requires meshes == LoopMeshes(s0, step - s0, showErosion, showWater, pending)
    ensures Iterations(e0, s0, nSteps, stops) == step + 1 - s0 + Iterations(step + 1 !in stops, step + 1, nSteps, stops)
    ensures ErodingAtExit(e0, s0, nSteps, stops) == ErodingAtExit(step + 1 !in stops, step + 1, nSteps, stops)
    ensures meshes + (if showErosion && step + 1 !in pending then [showWater] else []) ==
            LoopMeshes(s0, step + 1 - s0, showErosion, showWater, pending)
  {
  }

  /** A loop with no stop request in its remaining steps runs them all and exits still eroding. */
  lemma {:induction false} UnstoppedRunsToEnd(step: int, nSteps: int, stops: set<int>)
    requires step <= nSteps && forall j :: step < j <= nSteps ==> j !in stops
    ensures Iterations(true, step, nSteps, stops) == nSteps - step
    ensures ErodingAtExit(true, step, nSteps, stops)
    decreases nSteps - step
  {
    if step < nSteps {
      UnstoppedRunsToEnd(step + 1, nSteps, stops);
    }
  }

  /** A loop that exits with the flag still set has counted up to nSteps. */
  lemma {:induction false} ErodingExitMeansDone(eroding: bool, step: int, nSteps: int, stops: set<int>)
    requires step <= nSteps
    ensures ErodingAtExit(eroding, step, nSteps, stops) <==> eroding && step + Iterations(eroding, step, nSteps, stops) == nSteps && (step < nSteps ==> nSteps !in stops)
    decreases nSteps - step
  {
    if eroding && step < nSteps {
      ErodingExitMeansDone(step + 1 !in stops, step + 1, nSteps, stops);
    }
  }

  /**
    Where the pipeline loop stands, as a value: after the iterations from
    counter s0 and flag e0 with buffers g0, the loop is at counter `step`
    with flag `eroding`, buffers g and mesh requests `meshes`; the rest of
    the loop makes up the whole.
   */
  ghost predicate LoopAt(p: Params, maxH: real, w: nat, stops: set<int>, showErosion: bool, showWater: bool,
                         pending: set<int>, eroding: bool, step: int, g: Grid, meshes: seq<bool>,
                         e0: bool, s0: int, g0: Grid)
  {
    StepDefined(p, maxH) && w >= 2 && GridSized(w, g0) && s0 <= step &&
    Iterations(e0, s0, p.nSteps, stops) == step - s0 + Iterations(eroding, step, p.nSteps, stops) &&
    ErodingAtExit(e0, s0, p.nSteps, stops) == ErodingAtExit(eroding, step, p.nSteps, stops) &&
    g == Run(p, maxH, w, s0, step - s0, g0) &&
    meshes == LoopMeshes(s0, step - s0, showErosion, showWater, pending)
  }

  /** One iteration of the loop body keeps the loop where LoopAt says, one step further on. */
  lemma LoopAtNext(p: Params, maxH: real, w: nat, stops: set<int>, showErosion: bool, showWater: bool,
                   pending: set<int>, step: int, g: Grid, meshes: seq<bool>, e0: bool, s0: int, g0: Grid)
    requires LoopAt(p, maxH, w, stops, showErosion, showWater, pending, true, step, g, meshes, e0, s0, g0)
    requires step < p.nSteps
    ensures GridSized(w, g)
    ensures LoopAt(p, maxH, w, stops, showErosion, showWater, pending, step + 1 !in stops, step + 1,
                   Step(p, maxH, w, step, g),
                   meshes + (if showErosion && step + 1 !in pending then [showWater] else []), e0, s0, g0)
  {
    LoopAdvances(e0, s0, step, p.nSteps, stops, showErosion, showWater, pending, meshes);
    assert Step(p, maxH, w, step, g) == Run(p, maxH, w, s0, step + 1 - s0, g0);
  }

  class ErosionManager {
    /** The erosion parameters (nSteps, hydraulicEnabled, kC, kD, kS, kE, rain, rainFrequency, thermalEnabled, kT, cT). */
    var params: Params
    var eroding: bool
    var step: int
    var width: nat
    var size: nat

    /** The terrain's heightmap and water vectors. */
    var heightIn: array<real>
    var waterIn: array<real>
    var sedimentIn: array<real>
    var heightOut: array<real>
    var waterOut: array<real>
    var sedimentOut: array<real>

    /** Six buffers of one cell per grid cell, no two of them the same vector. */
    predicate Valid()
      reads this`width, this`size, this`heightIn, this`waterIn, this`sedimentIn, this`heightOut, this`waterOut, this`sedimentOut
    {
      width >= 2 && size == width * width &&
      heightIn.Length == size && waterIn.Length == size && sedimentIn.Length == size &&
      heightOut.Length == size && waterOut.Length == size && sedimentOut.Length == size &&
      heightIn != waterIn && heightIn != sedimentIn && heightIn != heightOut && heightIn != waterOut && heightIn != sedimentOut &&
      waterIn != sedimentIn && waterIn != heightOut && waterIn != waterOut && waterIn != sedimentOut &&
      sedimentIn != heightOut && sedimentIn != waterOut && sedimentIn != sedimentOut &&
      heightOut != waterOut && heightOut != sedimentOut && waterOut != sedimentOut
    }

    function Ins(): Buffers
      reads this`heightIn, this`waterIn, this`sedimentIn, heightIn, waterIn, sedimentIn
    {
      Buffers(heightIn[..], waterIn[..], sedimentIn[..])
    }

    function Outs(): Buffers
      reads this`heightOut, this`waterOut, this`sedimentOut, heightOut, waterOut, sedimentOut
    {
      Buffers(heightOut[..], waterOut[..], sedimentOut[..])
    }

    /** The six buffers as one value. */
    function State(): Grid
      reads this`heightIn, this`waterIn, this`sedimentIn, this`heightOut, this`waterOut, this`sedimentOut, heightIn, waterIn, sedimentIn, heightOut, waterOut, sedimentOut
    {
      Grid(Ins(), Outs())
    }

    /**
      Default construction, then the first init: the default parameters, a
      cleared flag and a zero counter; the grid width and size come from
      the terrain, whose heightmap and water become the in buffers; the
      other four buffers are new and zero.
     */
    constructor Init(w: int, heightmap: array<real>, water: array<real>)
      requires w >= 2 && heightmap.Length == w * w && water.Length == w * w && heightmap != water
      ensures Valid() && params == DefaultParams && !eroding && step == 0
      ensures width == w && size == w * w && heightIn == heightmap && waterIn == water
      ensures fresh(sedimentIn) && fresh(heightOut) && fresh(waterOut) && fresh(sedimentOut)
      ensures forall i :: 0 <= i < size ==>
                sedimentIn[i] == 0.0 && heightOut[i] == 0.0 && waterOut[i] == 0.0 && sedimentOut[i] == 0.0
    {
      params := DefaultParams;
      eroding := false;
      step := 0;
      width := w;
      size := w * w;
      heightIn := heightmap;
      waterIn := water;
      heightOut := new real[w * w](_ => 0.0);
      sedimentIn := new real[w * w](_ => 0.0);
      sedimentOut := new real[w * w](_ => 0.0);
      waterOut := new real[w * w](_ => 0.0);
    }

    /**
      init on a manager that has already run, as after a new heightmap is
      generated: width, size and the in buffers come from the terrain and
      the other four buffers are new and zero. Neither clean nor init
      resets the parameters, the counter or the flag, so they stay as the
      last run and the menu left them.
     */
    method Reinit(w: int, heightmap: array<real>, water: array<real>)
      requires w >= 2 && heightmap.Length == w * w && water.Length == w * w && heightmap != water
      modifies this`width, this`size, this`heightIn, this`waterIn, this`sedimentIn, this`heightOut, this`waterOut, this`sedimentOut
      ensures Valid() && params == old(params) && eroding == old(eroding) && step == old(step)
      ensures width == w && size == w * w && heightIn == heightmap && waterIn == water
      ensures fresh(sedimentIn) && fresh(heightOut) && fresh(waterOut) && fresh(sedimentOut)
      ensures forall i :: 0 <= i < size ==>
                sedimentIn[i] == 0.0 && heightOut[i] == 0.0 && waterOut[i] == 0.0 && sedimentOut[i] == 0.0
    {
      width := w;
      size := w * w;
      heightIn := heightmap;
      waterIn := water;
      heightOut := new real[w * w](_ => 0.0);
      sedimentIn := new real[w * w](_ => 0.0);
      sedimentOut := new real[w * w](_ => 0.0);
      waterOut := new real[w * w](_ => 0.0);
    }

    // -------------------------------------------------------------------------
    // The single-cell sweeps

    /**
      One sweep over the interior cells in row-major order, z from 1 while
      z < width - 1 and x likewise, applying the loop body of the sweep to
      each cell: the fill before the first step, the rain injection, or the
      evaporation and rotation at the end of a step.
     */
    method RunSweep(sw: Sweep)
      requires Valid() && Defined(sw)
      modifies heightIn, waterIn, sedimentIn, heightOut, waterOut, sedimentOut
      ensures State() == SweepPass(sw, width, old(State()))
    {
      ghost var g := State();
      SweepStarts(sw, width, g);
      var z := 1;
      while z < width - 1
        invariant 1 <= z <= Span(width - 1)
        invariant 0 <= Idx(width, z, 1) <= width * width && State() == SweepUpTo(sw, width, g, Idx(width, z, 1))
      {
        SweepRow(sw, z, g);
        SweepNextRow(sw, width, g, z);
        z := z + 1;
      }
      SweepEnds(sw, width, g);
    }

    /** Row z of a sweep: cells (z, 1) .. (z, width - 2). */
    method SweepRow(sw: Sweep, z: int, ghost g: Grid)
      requires Valid() && Defined(sw) && 1 <= z < width - 1 && GridSized(width, g)
      requires 0 <= Idx(width, z, 1) <= width * width && State() == SweepUpTo(sw, width, g, Idx(width, z, 1))
      modifies heightIn, waterIn, sedimentIn, heightOut, waterOut, sedimentOut
      ensures 0 <= Idx(width, z, width - 1) <= width * width
      ensures State() == SweepUpTo(sw, width, g, Idx(width, z, width - 1))
    {
      var x := 1;
      while x < width - 1
        invariant 1 <= x <= width - 1 && 0 <= Idx(width, z, x) <= width * width
        invariant State() == SweepUpTo(sw, width, g, Idx(width, z, x))
      {
        SweepVisits(sw, width, g, z, x);
        SweepCell(sw, z, x);
        x := x + 1;
      }
    }

    /** The loop body of a sweep on interior cell (z, x). */
    method SweepCell(sw: Sweep, z: int, x: int)
      requires Valid() && Defined(sw) && Interior(width, z, x)
      modifies heightIn, waterIn, sedimentIn, heightOut, waterOut, sedimentOut
      ensures var c := Cell(width, z, x);
              State() == Put(width, old(State()), c, Apply(sw, At(width, old(State()), c)))
    {
      match sw
      case Fill(rain, maxHeight) => FillCell(z, x, rain, maxHeight);
      case Rain(rain, maxHeight) => RainCell(z, x, rain, maxHeight);
      case Evaporate(kE) => EvaporateCell(z, x, kE);
    }

    method FillCell(z: int, x: int, rain: real, maxHeight: real)
      requires Valid() && maxHeight != 0.0 && Interior(width, z, x)
      modifies waterIn, sedimentIn, heightOut, waterOut, sedimentOut
      ensures var c := Cell(width, z, x);
              State() == Put(width, old(State()), c, Apply(Fill(rain, maxHeight), At(width, old(State()), c)))
    {
      var cellIndex := Cell(width, z, x);
      ghost var g := State();
      ghost var v := Apply(Fill(rain, maxHeight), At(width, g, cellIndex));
      waterIn[cellIndex] := rain * (heightIn[cellIndex] / maxHeight);
      sedimentIn[cellIndex] := 0.0;
      waterOut[cellIndex] := waterIn[cellIndex];
      sedimentOut[cellIndex] := 0.0;
      heightOut[cellIndex] := heightIn[cellIndex];
      assert waterIn[cellIndex] == v.wIn;
      assert g.ins.height[cellIndex := v.hIn] == heightIn[..];
      assert g.ins.water[cellIndex := v.wIn] == waterIn[..];
      assert g.ins.sediment[cellIndex := v.sIn] == sedimentIn[..];
      assert g.outs.height[cellIndex := v.hOut] == heightOut[..];
      assert g.outs.water[cellIndex := v.wOut] == waterOut[..];
      assert g.outs.sediment[cellIndex := v.sOut] == sedimentOut[..];
    }

    method RainCell(z: int, x: int, rain: real, maxHeight: real)
      requires Valid() && maxHeight != 0.0 && Interior(width, z, x)
      modifies waterIn, waterOut
      ensures var c := Cell(width, z, x);
              State() == Put(width, old(State()), c, Apply(Rain(rain, maxHeight), At(width, old(State()), c)))
    {
      var cellIndex := Cell(width, z, x);
      ghost var g := State();
      ghost var v := Apply(Rain(rain, maxHeight), At(width, g, cellIndex));
      waterIn[cellIndex] := waterIn[cellIndex] + rain * (heightIn[cellIndex] / maxHeight);
      waterOut[cellIndex] := waterIn[cellIndex];
      assert waterIn[cellIndex] == v.wIn;
      assert g.ins.water[cellIndex := v.wIn] == waterIn[..];
      assert g.outs.water[cellIndex := v.wOut] == waterOut[..];
      assert g.ins.height[cellIndex := v.hIn] == heightIn[..];
      assert g.ins.sediment[cellIndex := v.sIn] == sedimentIn[..];
      assert g.outs.height[cellIndex := v.hOut] == heightOut[..];
      assert g.outs.sediment[cellIndex := v.sOut] == sedimentOut[..];
    }

    method EvaporateCell(z: int, x: int, kE: real)
      requires Valid() && Interior(width, z, x)
      modifies heightIn, waterIn, sedimentIn, heightOut, waterOut, sedimentOut
      ensures var c := Cell(width, z, x);
              State() == Put(width, old(State()), c, Apply(Evaporate(kE), At(width, old(State()), c)))
    {
      var cellIndex := Cell(width, z, x);
      ghost var g := State();
      ghost var v := Evaporated(kE, At(width, g, cellIndex));
      EvaporateOut(cellIndex, kE);
      RotateCell(cellIndex);
      PutPut(width, g, cellIndex, v, Rotated(v));
    }

    /** Evaporation on the out buffers of cell c. */
    method EvaporateOut(c: int, kE: real)
      requires Valid() && 0 <= c < width * width
      modifies heightOut, waterOut, sedimentOut
      ensures State() == Put(width, old(State()), c, Evaporated(kE, At(width, old(State()), c)))
    {
      ghost var g := State();
      ghost var v := Evaporated(kE, At(width, g, c));
      waterOut[c] := waterOut[c] * kE;
      if waterOut[c] < DryThreshold {
        heightOut[c] := heightOut[c] + sedimentIn[c];
        sedimentOut[c] := 0.0;
        waterOut[c] := 0.0;
      }
      assert heightOut[c] == v.hOut && waterOut[c] == v.wOut && sedimentOut[c] == v.sOut;
      assert g.ins.height[c := v.hIn] == heightIn[..];
      assert g.ins.water[c := v.wIn] == waterIn[..];
      assert g.ins.sediment[c := v.sIn] == sedimentIn[..];
      assert g.outs.height[c := v.hOut] == heightOut[..];
      assert g.outs.water[c := v.wOut] == waterOut[..];
      assert g.outs.sediment[c := v.sOut] == sedimentOut[..];
    }

    /** The in buffers of cell c take its out values. */
    method RotateCell(c: int)
      requires Valid() && 0 <= c < width * width
      modifies heightIn, waterIn, sedimentIn
      ensures State() == Put(width, old(State()), c, Rotated(At(width, old(State()), c)))
    {
      ghost var g := State();
      ghost var v := Rotated(At(width, g, c));
      heightIn[c] := heightOut[c];
      waterIn[c] := waterOut[c];
      sedimentIn[c] := sedimentOut[c];
      assert g.ins.height[c := v.hIn] == heightIn[..];
      assert g.ins.water[c := v.wIn] == waterIn[..];
      assert g.ins.sediment[c := v.sIn] == sedimentIn[..];
      assert g.outs.height[c := v.hOut] == heightOut[..];
      assert g.outs.water[c := v.wOut] == waterOut[..];
      assert g.outs.sediment[c := v.sOut] == sedimentOut[..];
    }

    // -------------------------------------------------------------------------
    // The hydraulic pass

    /**
      Every interior cell holding water shares it out among its downhill
      neighbours in proportion to their drops, carrying, depositing or
      dissolving sediment as it goes; all writes go to the out buffers.
     */
    method HydraulicErosion()
      requires Valid()
      modifies heightOut, waterOut, sedimentOut
      ensures Outs() == HydraulicPass(params, width, Ins(), old(Outs()))
    {
      ghost var o0 := Outs();
      var z := 1;
      while z < width - 1
        invariant 1 <= z <= width - 1
        invariant Outs() == HydraulicRows(params, width, Ins(), z, o0)
      {
        HydraulicRowStep(z);
        z := z + 1;
      }
    }

    /** Row z of the hydraulic pass, cells (z, 1) .. (z, width - 2) in order. */
    method HydraulicRowStep(z: int)
      requires Valid() && 1 <= z < width - 1
      modifies heightOut, waterOut, sedimentOut
      ensures Outs() == HydraulicRow(params, width, Ins(), z, width - 1, old(Outs()))
    {
      ghost var o0 := Outs();
      var x := 1;
      while x < width - 1
        invariant 1 <= x <= width - 1
        invariant Outs() == HydraulicRow(params, width, Ins(), z, x, o0)
      {
        HydraulicCellStep(z, x);
        x := x + 1;
      }
    }

    /** One interior cell: skipped when dry, otherwise the two neighbour scans and the three closing writes. */
    method HydraulicCellStep(z: int, x: int)
      requires Valid() && Interior(width, z, x)
      modifies heightOut, waterOut, sedimentOut
      ensures Outs() == HydraulicCell(params, width, Ins(), z, x, old(Outs()))
    {
      var cellIndex := Cell(width, z, x);
      if waterIn[cellIndex] == 0.0 {
        return;
      }
      var neighbours, neighboursDeltaH, totalDeltaH := ScanNeighbours(z, x);
      var cellTotalDeltaH, cellTotalDeltaS, cellTotalDeltaW := FlowNeighboursStep(z, x, neighbours, neighboursDeltaH, totalDeltaH);
      CloseCellStep(cellIndex, cellTotalDeltaH, cellTotalDeltaS, cellTotalDeltaW);
    }

    /** The second neighbour scan: the flow towards each of the eight neighbours, with the cell's running totals. */
    method FlowNeighboursStep(z: int, x: int, neighbours: array<int>, neighboursDeltaH: array<real>, totalDeltaH: real)
      returns (cellTotalDeltaH: real, cellTotalDeltaS: real, cellTotalDeltaW: real)
      requires Valid() && Interior(width, z, x)
      requires neighbours.Length == 8 && neighboursDeltaH.Length == 8
      requires neighboursDeltaH != waterOut && neighboursDeltaH != sedimentOut
      requires Scanned(z, x, neighbours, neighboursDeltaH, totalDeltaH, 8)
      modifies waterOut, sedimentOut
      ensures CellFlow(Outs(), cellTotalDeltaH, cellTotalDeltaS, cellTotalDeltaW) ==
              FlowNeighbours(params, width, Ins(), z, x, 8, CellFlow(old(Outs()), 0.0, 0.0, 0.0))
    {
      ghost var acc0 := CellFlow(Outs(), 0.0, 0.0, 0.0);
      cellTotalDeltaH, cellTotalDeltaS, cellTotalDeltaW := 0.0, 0.0, 0.0;
      var n := 0;
      while n < 8
        invariant 0 <= n <= 8
        invariant CellFlow(Outs(), cellTotalDeltaH, cellTotalDeltaS, cellTotalDeltaW) ==
                  FlowNeighbours(params, width, Ins(), z, x, n, acc0)
      {
        cellTotalDeltaH, cellTotalDeltaS, cellTotalDeltaW :=
          FlowNext(z, x, n, neighbours[n], neighboursDeltaH[n], totalDeltaH, cellTotalDeltaH, cellTotalDeltaS, cellTotalDeltaW, acc0);
        n := n + 1;
      }
    }

    /** The first neighbour scan: neighbour indices, drops in water level, and the total downhill drop. */
    method ScanNeighbours(z: int, x: int) returns (neighbours: array<int>, neighboursDeltaH: array<real>, totalDeltaH: real)
      requires Valid() && Interior(width, z, x)
      ensures fresh(neighbours) && fresh(neighboursDeltaH)
      ensures neighbours.Length == 8 && neighboursDeltaH.Length == 8
      ensures Scanned(z, x, neighbours, neighboursDeltaH, totalDeltaH, 8)
    {
      neighbours := new int[8];
      neighboursDeltaH := new real[8];
      totalDeltaH := 0.0;
      var i := 0;
      while i < 8
        invariant 0 <= i <= 8
        invariant Scanned(z, x, neighbours, neighboursDeltaH, totalDeltaH, i)
      {
        totalDeltaH := ScanNeighbour(z, x, i, neighbours, neighboursDeltaH, totalDeltaH);
        i := i + 1;
      }
    }

    /** The first i neighbours have been scanned into the two buffers and the running total. */
    ghost predicate Scanned(z: int, x: int, neighbours: array<int>, neighboursDeltaH: array<real>, totalDeltaH: real, i: int)
      requires Valid() && Interior(width, z, x) && 0 <= i <= 8
      reads this, heightIn, waterIn, sedimentIn, neighbours, neighboursDeltaH
    {
      neighbours.Length == 8 && neighboursDeltaH.Length == 8 &&
      (forall j :: 0 <= j < i ==> neighbours[j] == Neighbour(width, z, x, j)) &&
      (forall j :: 0 <= j < i ==> neighboursDeltaH[j] == DeltaH(width, Ins(), z, x, j)) &&
      totalDeltaH == TotalDown(width, Ins(), z, x, i)
    }

    method ScanNeighbour(z: int, x: int, i: int, neighbours: array<int>, neighboursDeltaH: array<real>, totalDeltaH: real)
      returns (totalDeltaH': real)
      requires Valid() && Interior(width, z, x) && 0 <= i < 8
      requires neighboursDeltaH != heightIn && neighboursDeltaH != waterIn && neighboursDeltaH != sedimentIn
      requires Scanned(z, x, neighbours, neighboursDeltaH, totalDeltaH, i)
      modifies neighbours, neighboursDeltaH
      ensures Scanned(z, x, neighbours, neighboursDeltaH, totalDeltaH', i + 1)
    {
      var cellIndex := Cell(width, z, x);
      var nCellIndex := Neighbour(width, z, x, i);
      var deltaH := (heightIn[cellIndex] + waterIn[cellIndex]) - (heightIn[nCellIndex] + waterIn[nCellIndex]);
      totalDeltaH' := totalDeltaH;
      if deltaH > 0.0 {
        totalDeltaH' := totalDeltaH' + deltaH;
      }
      neighboursDeltaH[i] := deltaH;
      neighbours[i] := nCellIndex;
    }

    /** Neighbour i of the second scan, as one more step of the scan over the first i neighbours. */
    method FlowNext(z: int, x: int, i: int, nCellIndex: int, deltaH: real, totalDeltaH: real,
                    dH: real, dS: real, dW: real, ghost acc0: CellFlow) returns (dH': real, dS': real, dW': real)
      requires Valid() && Interior(width, z, x) && 0 <= i < 8 && Sized(width, acc0.outs)
      requires nCellIndex == Neighbour(width, z, x, i) && deltaH == DeltaH(width, Ins(), z, x, i)
      requires totalDeltaH == TotalDown(width, Ins(), z, x, 8)
      requires CellFlow(Outs(), dH, dS, dW) == FlowNeighbours(params, width, Ins(), z, x, i, acc0)
      modifies waterOut, sedimentOut
      ensures CellFlow(Outs(), dH', dS', dW') == FlowNeighbours(params, width, Ins(), z, x, i + 1, acc0)
    {
      TotalDownCovers(width, Ins(), z, x, i, 8);
      dH', dS', dW' := FlowStep(z, x, i, nCellIndex, deltaH, totalDeltaH, dH, dS, dW);
    }

    method FlowStep(z: int, x: int, i: int, nCellIndex: int, deltaH: real, totalDeltaH: real,
                    dH: real, dS: real, dW: real) returns (dH': real, dS': real, dW': real)
      requires Valid() && Interior(width, z, x) && 0 <= i < 8
      requires nCellIndex == Neighbour(width, z, x, i) && deltaH == DeltaH(width, Ins(), z, x, i)
      requires deltaH > 0.0 ==> deltaH <= totalDeltaH
      modifies waterOut, sedimentOut
      ensures CellFlow(Outs(), dH', dS', dW') ==
              FlowNeighbour(params, width, Ins(), z, x, i, totalDeltaH, CellFlow(old(Outs()), dH, dS, dW))
    {
      var cellIndex := Cell(width, z, x);
      dH', dS', dW' := dH, dS, dW;
      var deltaW := Min(waterIn[cellIndex], deltaH);
      if deltaW <= 0.0 {
        if heightIn[cellIndex] <= heightIn[nCellIndex] {
          var sedDeposit := params.kD * sedimentIn[cellIndex];
          dH' := dH' + sedDeposit;
          dS' := dS' - sedDeposit;
        }
      } else {
        // the share of the water, and the sediment carried, deposited or dissolved with it
        var t := Carry(params, waterIn[cellIndex], sedimentIn[cellIndex], deltaH, totalDeltaH);
        ghost var o := Outs();
        waterOut[nCellIndex] := waterOut[nCellIndex] + t.flow;
        dW' := dW' - t.flow;
        sedimentOut[nCellIndex] := sedimentOut[nCellIndex] + t.sed;
        dH' := dH' + t.dh;
        dS' := dS' + t.ds;
        assert o.water[nCellIndex := o.water[nCellIndex] + t.flow] == waterOut[..];
        assert o.sediment[nCellIndex := o.sediment[nCellIndex] + t.sed] == sedimentOut[..];
      }
    }

    /** The cell's own three updates: its running totals are added into its out entries. */
    method CloseCellStep(c: int, dH: real, dS: real, dW: real)
      requires Valid() && 0 <= c < size
      modifies heightOut, waterOut, sedimentOut
      ensures Outs() == CloseCell(CellFlow(old(Outs()), dH, dS, dW), c)
    {
      heightOut[c] := heightOut[c] + dH;
      sedimentOut[c] := sedimentOut[c] + dS;
      waterOut[c] := waterOut[c] + dW;
    }

    // -------------------------------------------------------------------------
    // The thermal pass

    /**
      Every interior cell moves height into each interior neighbour lower than
      itself by more than the talus threshold kT, in proportion to the drops;
      the heights are read from heightIn and accumulated into heightOut.
     */
    method ThermalErosion()
      requires Valid() && params.kT >= 0.0
      modifies heightOut
      ensures heightOut[..] == ThermalPass(params, width, heightIn[..], old(heightOut[..]))
    {
      ghost var o0 := heightOut[..];
      ghost var kept := Scan(params.kT, width, heightIn[..], width * width);
      ScanIsValid(params.kT, width, heightIn[..]);
      var z := 1;
      while z < width - 1
        invariant 1 <= z <= width - 1
        invariant heightOut[..] == ThermalRows(params, width, kept, z, o0)
      {
        ThermalRowStep(z, kept);
        z := z + 1;
      }
    }

    /** Row z of the thermal pass, cells (z, 1) .. (z, width - 2) in order. */
    method ThermalRowStep(z: int, ghost kept: seq<seq<Lower>>)
      requires Valid() && params.kT >= 0.0 && 1 <= z < width - 1
      requires kept == Scan(params.kT, width, heightIn[..], width * width) && ScanValid(width, kept)
      modifies heightOut
      ensures heightOut[..] == ThermalRow(params, width, kept, z, width - 1, old(heightOut[..]))
    {
      ghost var o0 := heightOut[..];
      var x := 1;
      while x < width - 1
        invariant 1 <= x <= width - 1
        invariant heightOut[..] == ThermalRow(params, width, kept, z, x, o0)
      {
        var neighbours, neighboursDeltaH, totalDeltaH, totalLowerNeighbours := ScanLower(z, x, kept);
        ThermalCellStep(z, x, neighbours, neighboursDeltaH, totalDeltaH, totalLowerNeighbours, kept[Cell(width, z, x)]);
        x := x + 1;
      }
    }

    /**
      The credits of one interior cell, from the neighbour list its scan left in the scratch arrays,
      then the cell's own running total.
     */
    method ThermalCellStep(z: int, x: int, neighbours: array<int>, neighboursDeltaH: array<real>,
                           totalDeltaH: real, totalLowerNeighbours: int, ghost ls: seq<Lower>)
      requires Valid() && Interior(width, z, x) && ListValid(width, ls) && neighboursDeltaH != heightOut
      requires totalLowerNeighbours == |ls| && totalDeltaH == SumDrops(ls) && Listed(neighbours, neighboursDeltaH, ls)
      modifies heightOut
      ensures heightOut[..] == Settle(params, ls, Cell(width, z, x), old(heightOut[..]))
    {
      var cellIndex := Cell(width, z, x);
      ghost var cr := Credits(params, ls, SumDrops(ls), |ls|, heightOut[..]);
      var cellTotalDeltaH := CreditLower(neighbours, neighboursDeltaH, totalDeltaH, totalLowerNeighbours, ls);
      SettleStep(cellIndex, cellTotalDeltaH, cr.0);
    }

    /** The cell's own running total, added after the credits. */
    method SettleStep(cellIndex: nat, cellTotalDeltaH: real, ghost credited: seq<real>)
      requires Valid() && cellIndex < size && heightOut[..] == credited
      modifies heightOut
      ensures heightOut[..] == credited[cellIndex := credited[cellIndex] + cellTotalDeltaH]
    {
      heightOut[cellIndex] := heightOut[cellIndex] + cellTotalDeltaH;
    }

    /** The scratch arrays hold the kept list, target indices in one and drops in the other. */
    ghost predicate Listed(neighbours: array<int>, neighboursDeltaH: array<real>, ls: seq<Lower>)
      reads neighbours, neighboursDeltaH
    {
      |ls| <= neighbours.Length && |ls| <= neighboursDeltaH.Length &&
      forall j :: 0 <= j < |ls| ==> neighbours[j] == ls[j].n && neighboursDeltaH[j] == ls[j].d
    }

    /** After the first i neighbours of the scan, the arrays and counters hold the list kept so far. */
    ghost predicate LowerScanned(z: int, x: int, h: seq<real>, neighbours: array<int>, neighboursDeltaH: array<real>,
                                 totalDeltaH: real, totalLowerNeighbours: int, i: int)
      requires Valid() && Interior(width, z, x) && |h| == width * width && 0 <= i <= 8
      reads this, neighbours, neighboursDeltaH
    {
      var ls := Lowers(params.kT, width, h, z, x, i);
      neighbours.Length == 8 && neighboursDeltaH.Length == 8 &&
      totalLowerNeighbours == |ls| && totalDeltaH == SumDrops(ls) && Listed(neighbours, neighboursDeltaH, ls)
    }

    /** The neighbour scan: the interior neighbours lower by more than kT, compacted in scan order, and their total drop. */
    method ScanLower(z: int, x: int, ghost kept: seq<seq<Lower>>)
      returns (neighbours: array<int>, neighboursDeltaH: array<real>, totalDeltaH: real, totalLowerNeighbours: int)
      requires Valid() && Interior(width, z, x)
      requires kept == Scan(params.kT, width, heightIn[..], width * width) && ScanValid(width, kept)
      ensures fresh(neighbours) && fresh(neighboursDeltaH)
      ensures var ls := kept[Cell(width, z, x)];
              ListValid(width, ls) && totalLowerNeighbours == |ls| && totalDeltaH == SumDrops(ls) &&
              Listed(neighbours, neighboursDeltaH, ls)
    {
      neighbours := new int[8];
      neighboursDeltaH := new real[8];
      ghost var h := heightIn[..];
      totalDeltaH := 0.0;
      totalLowerNeighbours := 0;
      var i := 0;
      while i < 8
        invariant 0 <= i <= 8
        invariant LowerScanned(z, x, h, neighbours, neighboursDeltaH, totalDeltaH, totalLowerNeighbours, i)
      {
        totalDeltaH, totalLowerNeighbours := ScanLowerOne(z, x, i, neighbours, neighboursDeltaH, totalDeltaH, totalLowerNeighbours, h);
        i := i + 1;
      }
      ScanCell(params.kT, width, h, z, x);
    }

    /** Neighbour i of the scan: kept, and appended to the arrays, when it is interior and lower by more than kT. */
    method ScanLowerOne(z: int, x: int, i: int, neighbours: array<int>, neighboursDeltaH: array<real>,
                        totalDeltaH: real, totalLowerNeighbours: int, ghost h: seq<real>)
      returns (totalDeltaH': real, totalLowerNeighbours': int)
      requires Valid() && Interior(width, z, x) && 0 <= i < 8 && h == heightIn[..] && neighboursDeltaH != heightIn
      requires LowerScanned(z, x, h, neighbours, neighboursDeltaH, totalDeltaH, totalLowerNeighbours, i)
      modifies neighbours, neighboursDeltaH
      ensures LowerScanned(z, x, h, neighbours, neighboursDeltaH, totalDeltaH', totalLowerNeighbours', i + 1)
    {
      ghost var prev := Lowers(params.kT, width, h, z, x, i);
      LowersNext(params.kT, width, h, z, x, i);
      totalDeltaH', totalLowerNeighbours' := totalDeltaH, totalLowerNeighbours;
      if z + DZ[i] > 0 && z + DZ[i] < width - 1 && x + DX[i] > 0 && x + DX[i] < width - 1 {
        var cellIndex := Cell(width, z, x);
        var nCellIndex := Neighbour(width, z, x, i);
        var deltaH := heightIn[cellIndex] - heightIn[nCellIndex];
        assert deltaH == Drop(width, h, z, x, i);
        if deltaH > params.kT {
          totalDeltaH' := totalDeltaH' + deltaH;
          AppendLower(neighbours, neighboursDeltaH, totalLowerNeighbours', nCellIndex, deltaH, prev);
          totalLowerNeighbours' := totalLowerNeighbours' + 1;
        }
      }
    }

    /** Writes one more kept neighbour at the end of the list held by the scratch arrays. */
    method AppendLower(neighbours: array<int>, neighboursDeltaH: array<real>, totalLowerNeighbours: int,
                       nCellIndex: nat, deltaH: real, ghost prev: seq<Lower>)
      requires totalLowerNeighbours == |prev| < neighbours.Length && |prev| < neighboursDeltaH.Length
      requires Listed(neighbours, neighboursDeltaH, prev)
      modifies neighbours, neighboursDeltaH
      ensures Listed(neighbours, neighboursDeltaH, prev + [Lower(nCellIndex, deltaH)])
    {
      neighboursDeltaH[totalLowerNeighbours] := deltaH;
      neighbours[totalLowerNeighbours] := nCellIndex;
    }

    /** The credit loop: each kept neighbour receives its share, which leaves the cell's running total. */
    method CreditLower(neighbours: array<int>, neighboursDeltaH: array<real>, totalDeltaH: real, totalLowerNeighbours: int,
                       ghost ls: seq<Lower>) returns (cellTotalDeltaH: real)
      requires Valid() && ListValid(width, ls) && neighboursDeltaH != heightOut
      requires totalLowerNeighbours == |ls| && totalDeltaH == SumDrops(ls) && Listed(neighbours, neighboursDeltaH, ls)
      modifies heightOut
      ensures (heightOut[..], cellTotalDeltaH) == Credits(params, ls, SumDrops(ls), |ls|, old(heightOut[..]))
    {
      ghost var o0 := heightOut[..];
      cellTotalDeltaH := 0.0;
      var i := 0;
      while i < totalLowerNeighbours
        invariant 0 <= i <= totalLowerNeighbours && |o0| == width * width
        invariant (heightOut[..], cellTotalDeltaH) == Credits(params, ls, totalDeltaH, i, o0)
      {
        cellTotalDeltaH := CreditOne(neighbours[i], neighboursDeltaH[i], totalDeltaH, cellTotalDeltaH, ls, i, o0);
        i := i + 1;
      }
    }

    /** One pass of the credit loop: neighbour i of the list receives its share. */
    method CreditOne(nCellIndex: int, deltaHi: real, totalDeltaH: real, cellTotalDeltaH: real,
                     ghost ls: seq<Lower>, ghost i: int, ghost o0: seq<real>) returns (cellTotalDeltaH': real)
      requires Valid() && ListValid(width, ls) && totalDeltaH == SumDrops(ls) && |o0| == width * width
      requires 0 <= i < |ls| && nCellIndex == ls[i].n && deltaHi == ls[i].d
      requires (heightOut[..], cellTotalDeltaH) == Credits(params, ls, totalDeltaH, i, o0)
      modifies heightOut
      ensures (heightOut[..], cellTotalDeltaH') == Credits(params, ls, totalDeltaH, i + 1, o0)
    {
      ghost var prev := heightOut[..];
      var deltaH := Credit(params, deltaHi, totalDeltaH);
      cellTotalDeltaH' := cellTotalDeltaH - deltaH;
      heightOut[nCellIndex] := heightOut[nCellIndex] + deltaH;
      assert heightOut[..] == prev[nCellIndex := prev[nCellIndex] + deltaH];
    }

    // -------------------------------------------------------------------------
    // The run loop

    /** The rain injection: interior cells gain their rain depth in waterIn, and waterOut takes the new waterIn. */
    method DistributeRain(maxH: real)
      requires Valid() && maxH != 0.0
      modifies heightIn, waterIn, sedimentIn, heightOut, waterOut, sedimentOut
      ensures State() == SweepPass(Rain(params.rain, maxH), width, old(State()))
    {
      RunSweep(Rain(params.rain, maxH));
    }

    /** One iteration of the erosion loop at counter `step`: rain when due, the enabled passes, then evaporation and rotation. */
    method ErosionStep(maxH: real)
      requires Valid() && StepDefined(params, maxH)
      modifies heightIn, waterIn, sedimentIn, heightOut, waterOut, sedimentOut
      ensures State() == Step(params, maxH, width, step, old(State()))
    {
      ghost var g := State();
      if params.hydraulicEnabled {
        if params.rainFrequency != 0 {
          if step % params.rainFrequency == 0 {
            DistributeRain(maxH);
          }
        }
        ghost var gr := State();
        HydraulicErosion();
        assert State() == Grid(gr.ins, HydraulicPass(params, width, gr.ins, gr.outs));
      }
      assert State() == HydraulicStage(params, maxH, width, step, g);
      ghost var g1 := State();
      if params.thermalEnabled {
        ThermalErosion();
        assert State() == Grid(g1.ins, g1.outs.(height := ThermalPass(params, width, g1.ins.height, g1.outs.height)));
      }
      assert State() == ThermalStage(params, width, g1);
      RunSweep(Evaporate(params.kE));
    }

    /**
      The CPU pipeline: the fill, then the loop while eroding and step <
      nSteps, each iteration followed by a mesh request when the terrain
      shows the erosion and has no mesh waiting; a loop that ran out of steps
      asks for a final mesh with water; the flag is cleared on exit. A stop
      request seen by the loop test while the counter is j (j in `stops`) is
      stopErosion clearing the flag: j equal to the counter on entry is a
      request that arrived before the first test (during the fill, or right
      after the run was started), any larger j one that arrived during the
      iteration that brought the counter to j. j in `pending` is the
      terrain's needMeshSentGPU at that point. Returns the water flags of the
      mesh requests, in order.
     */
    method ErosionPipeline(maxH: real, stops: set<int>, showErosion: bool, showWater: bool, pending: set<int>)
      returns (meshes: seq<bool>)
      requires Valid() && maxH != 0.0 && StepDefined(params, maxH)
      modifies this`eroding, this`step, heightIn, waterIn, sedimentIn, heightOut, waterOut, sedimentOut
      ensures Valid() && !eroding
      ensures step == old(step) + Iterations(old(eroding) && old(step) !in stops, old(step), params.nSteps, stops)
      ensures State() == Run(params, maxH, width, old(step), step - old(step),
                             SweepPass(Fill(params.rain, maxH), width, old(State())))
      ensures meshes == LoopMeshes(old(step), step - old(step), showErosion, showWater, pending) +
                        (if ErodingAtExit(old(eroding) && old(step) !in stops, old(step), params.nSteps, stops)
                         then [true] else [])
    {
      RunSweep(Fill(params.rain, maxH));
      ghost var g1 := State();
      PollStop(stops);
      ghost var e1 := eroding;
      assert State() == g1;
      meshes := ErosionLoop(maxH, stops, showErosion, showWater, pending);
      assert eroding == ErodingAtExit(e1, old(step), params.nSteps, stops);
      if eroding {
        meshes := meshes + [true];
      }
      eroding := false;
    }

    /** The loop of the pipeline: steps while eroding and step < nSteps. */
    method ErosionLoop(maxH: real, stops: set<int>, showErosion: bool, showWater: bool, pending: set<int>)
      returns (meshes: seq<bool>)
      requires Valid() && StepDefined(params, maxH)
      modifies this`eroding, this`step, heightIn, waterIn, sedimentIn, heightOut, waterOut, sedimentOut
      ensures Valid() && step == old(step) + Iterations(old(eroding), old(step), params.nSteps, stops)
      ensures eroding == ErodingAtExit(old(eroding), old(step), params.nSteps, stops)
      ensures State() == Run(params, maxH, width, old(step), step - old(step), old(State()))
      ensures meshes == LoopMeshes(old(step), step - old(step), showErosion, showWater, pending)
    {
      ghost var e0, s0, g0 := eroding, step, State();
      meshes := [];
      while eroding && step < params.nSteps
        invariant Looping(maxH, stops, showErosion, showWater, pending, meshes, e0, s0, g0)
        decreases params.nSteps - step
      {
        meshes := PipelineIteration(maxH, stops, showErosion, showWater, pending, meshes, e0, s0, g0);
      }
    }

    /**
      Where the pipeline loop stands after the iterations from counter s0
      and flag e0 with buffers g0: the counter is s0 plus the iterations
      done, the rest of the loop makes up the whole, the buffers are the run
      of those iterations, and the mesh requests are theirs.
     */
    ghost predicate Looping(maxH: real, stops: set<int>, showErosion: bool, showWater: bool, pending: set<int>,
                            meshes: seq<bool>, e0: bool, s0: int, g0: Grid)
      reads this, heightIn, waterIn, sedimentIn, heightOut, waterOut, sedimentOut
    {
      Valid() &&
      LoopAt(params, maxH, width, stops, showErosion, showWater, pending, eroding, step, State(), meshes, e0, s0, g0)
    }

    /** One pass of the pipeline loop: the step, the counter increment, the mesh request and the stop request. */
    method PipelineIteration(maxH: real, stops: set<int>, showErosion: bool, showWater: bool, pending: set<int>,
                             meshes: seq<bool>, ghost e0: bool, ghost s0: int, ghost g0: Grid) returns (meshes': seq<bool>)
      requires Looping(maxH, stops, showErosion, showWater, pending, meshes, e0, s0, g0) && eroding && step < params.nSteps
      modifies this`eroding, this`step, heightIn, waterIn, sedimentIn, heightOut, waterOut, sedimentOut
      ensures Looping(maxH, stops, showErosion, showWater, pending, meshes', e0, s0, g0)
      ensures step == old(step) + 1
    {
      LoopAtNext(params, maxH, width, stops, showErosion, showWater, pending, step, State(), meshes, e0, s0, g0);
      ErosionStep(maxH);
      step := step + 1;
      meshes' := meshes + (if showErosion && step !in pending then [showWater] else []);
      PollStop(stops);
    }

    /** A stop request that arrived by counter `step` clears the flag; otherwise it stays as it is. */
    method PollStop(stops: set<int>)
      modifies this`eroding
      ensures eroding == (old(eroding) && step !in stops)
    {
      if step in stops {
        StopErosion();
      }
    }

    /** Starts a CPU run: the counter restarts at 0, the flag is set, and the pipeline runs. */
    method StartErosion(maxH: real, stops: set<int>, showErosion: bool, showWater: bool, pending: set<int>)
      returns (meshes: seq<bool>)
      requires Valid() && maxH != 0.0 && StepDefined(params, maxH)
      modifies this`eroding, this`step, heightIn, waterIn, sedimentIn, heightOut, waterOut, sedimentOut
      ensures Valid() && !eroding
      ensures step == Iterations(0 !in stops, 0, params.nSteps, stops)
      ensures State() == Run(params, maxH, width, 0, step, SweepPass(Fill(params.rain, maxH), width, old(State())))
      ensures meshes == LoopMeshes(0, step, showErosion, showWater, pending) +
                        (if ErodingAtExit(0 !in stops, 0, params.nSteps, stops) then [true] else [])
      ensures 0 in stops ==> step == 0 && meshes == [] && State() == SweepPass(Fill(params.rain, maxH), width, old(State()))
    {
      step := 0;
      eroding := true;
      meshes := ErosionPipeline(maxH, stops, showErosion, showWater, pending);
    }

    /** Clears the eroding flag, and nothing else. */
    method StopErosion()
      modifies this`eroding
      ensures !eroding
    {
      eroding := false;
    }

    // -------------------------------------------------------------------------
    // The roughness score

    /**
      The roughness score of the heightmap. Nothing of the manager changes.
      The square root is a parameter.
     */
    method CalculateScore(sqrt: real -> real) returns (score: Option<real>)
      requires Valid()
      ensures score == Score(width, heightIn[..], sqrt)
    {
      score := GridScore(heightIn, width, sqrt);
    }
  }
}
