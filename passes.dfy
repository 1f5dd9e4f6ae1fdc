/**
  The single-cell sweeps of the CPU erosion loop (the initial fill, the rain
  injection and the evaporation-and-rotation sweep of
  ErosionManager::erosionPipelineCPU / distributeRainCPU) and the composition
  of one erosion step and of a run of steps, as reference functions over the
  six buffers. Proved here: each sweep changes exactly the interior cells, in
  the way the engine's loop body says; a step never changes the boundary
  ring of the in buffers; after a step the in buffers equal the out buffers
  on every interior cell; evaporation with 0 <= kE <= 1 never adds water.
 */
module Passes {
  import opened Layout
  import opened Hydraulic
  import opened Thermal

  /** The engine's six buffers: the in generation (heightmap, water, sedimentIn) and the out generation. */
  datatype Grid = Grid(ins: Buffers, outs: Buffers)

  predicate GridSized(w: nat, g: Grid)
  {
    Sized(w, g.ins) && Sized(w, g.outs)
  }

  /** The six values one cell holds. */
  datatype Vals = Vals(hIn: real, wIn: real, sIn: real, hOut: real, wOut: real, sOut: real)

  function At(w: nat, g: Grid, i: int): Vals
    requires GridSized(w, g) && 0 <= i < w * w
  {
    Vals(g.ins.height[i], g.ins.water[i], g.ins.sediment[i], g.outs.height[i], g.outs.water[i], g.outs.sediment[i])
  }

  function Put(w: nat, g: Grid, i: int, v: Vals): (r: Grid)
    requires GridSized(w, g) && 0 <= i < w * w
    ensures GridSized(w, r)
  {
    Grid(Buffers(g.ins.height[i := v.hIn], g.ins.water[i := v.wIn], g.ins.sediment[i := v.sIn]),
         Buffers(g.outs.height[i := v.hOut], g.outs.water[i := v.wOut], g.outs.sediment[i := v.sOut]))
  }

  /** Putting a cell twice keeps the second values. */
  lemma PutPut(w: nat, g: Grid, i: int, u: Vals, v: Vals)
    requires GridSized(w, g) && 0 <= i < w * w
    ensures At(w, Put(w, g, i, u), i) == u && Put(w, Put(w, g, i, u), i, v) == Put(w, g, i, v)
  {
  }

  /** Putting cell i's values changes cell i and no other cell. */
  lemma PutAt(w: nat, g: Grid, i: int, v: Vals, j: int)
    requires GridSized(w, g) && 0 <= i < w * w && 0 <= j < w * w
    ensures At(w, Put(w, g, i, v), j) == (if j == i then v else At(w, g, j))
  {
  }

  /** The three loops of a run whose body touches only its own cell. */
  datatype Sweep =
    | Fill(rain: real, maxH: real)
    | Rain(rain: real, maxH: real)
    | Evaporate(kE: real)

  /** Fill and rain divide by the terrain's maximum height. */
  predicate Defined(sw: Sweep)
  {
    !sw.Evaporate? ==> sw.maxH != 0.0
  }

  /** Below this much water a cell counts as dry and drops its sediment. */
  const DryThreshold: real := 0.000001

  /** Rain depth of a cell: the rain amount scaled by the cell's relative height. */
  function RainDepth(rain: real, h: real, maxH: real): real
    requires maxH != 0.0
  {
    rain * (h / maxH)
  }

  /** The loop body of a sweep, on one interior cell. */
  function Apply(sw: Sweep, v: Vals): Vals
    requires Defined(sw)
  {
    match sw
    case Fill(rain, maxH) =>
      var wi := RainDepth(rain, v.hIn, maxH);
      Vals(v.hIn, wi, 0.0, v.hIn, wi, 0.0)
    case Rain(rain, maxH) =>
      var wi := v.wIn + RainDepth(rain, v.hIn, maxH);
      v.(wIn := wi, wOut := wi)
    case Evaporate(kE) => Rotated(Evaporated(kE, v))
  }

  /** Evaporation on the out buffers: a cell left with less than the dry threshold drops the in sediment onto its height. */
  function Evaporated(kE: real, v: Vals): Vals
  {
    var wo := v.wOut * kE;
    if wo < DryThreshold then v.(hOut := v.hOut + v.sIn, wOut := 0.0, sOut := 0.0) else v.(wOut := wo)
  }

  /** The out values become the in values. */
  function Rotated(v: Vals): Vals
  {
    v.(hIn := v.hOut, wIn := v.wOut, sIn := v.sOut)
  }

  /** The sweep applied to the interior cells among flat indices 0 .. n - 1, in row-major order. */
  function SweepUpTo(sw: Sweep, w: nat, g: Grid, n: int): (r: Grid)
    requires Defined(sw) && GridSized(w, g) && 0 <= n <= w * w
    ensures GridSized(w, r)
    decreases n
  {
    if n == 0 then g
    else
      var prev := SweepUpTo(sw, w, g, n - 1);
      if InteriorIndex(w, n - 1) then Put(w, prev, n - 1, Apply(sw, At(w, prev, n - 1))) else prev
  }

  /** After the sweep has passed indices 0 .. n - 1, exactly the interior cells among them hold the loop body's values. */
  lemma {:induction false} SweepUpToAt(sw: Sweep, w: nat, g: Grid, n: int, i: int)
    requires Defined(sw) && GridSized(w, g) && 0 <= n <= w * w && 0 <= i < w * w
    ensures At(w, SweepUpTo(sw, w, g, n), i) ==
            (if i < n && InteriorIndex(w, i) then Apply(sw, At(w, g, i)) else At(w, g, i))
    decreases n
  {
    if n > 0 {
      var prev := SweepUpTo(sw, w, g, n - 1);
      SweepUpToAt(sw, w, g, n - 1, i);
      if InteriorIndex(w, n - 1) {
        SweepUpToAt(sw, w, g, n - 1, n - 1);
        PutAt(w, prev, n - 1, Apply(sw, At(w, prev, n - 1)), i);
      }
    }
  }

  /** A whole sweep: every interior cell gets the loop body, every boundary cell is left alone. */
  function SweepPass(sw: Sweep, w: nat, g: Grid): (r: Grid)
    requires Defined(sw) && GridSized(w, g)
    ensures GridSized(w, r)
  {
    SweepUpTo(sw, w, g, w * w)
  }

  /** A whole sweep gives every interior cell the loop body's values and leaves every boundary cell alone. */
  lemma SweepPassAt(sw: Sweep, w: nat, g: Grid, i: int)
    requires Defined(sw) && GridSized(w, g) && 0 <= i < w * w
    ensures At(w, SweepPass(sw, w, g), i) == (if InteriorIndex(w, i) then Apply(sw, At(w, g, i)) else At(w, g, i))
  {
    SweepUpToAt(sw, w, g, w * w, i);
  }

  /** Boundary cells are skipped: sweeping indices a .. b - 1, none of them interior, changes nothing. */
  lemma {:induction false} SweepSkips(sw: Sweep, w: nat, g: Grid, a: int, b: int)
    requires Defined(sw) && GridSized(w, g) && 0 <= a <= b <= w * w
    requires forall i :: a <= i < b ==> !InteriorIndex(w, i)
    ensures SweepUpTo(sw, w, g, b) == SweepUpTo(sw, w, g, a)
    decreases b
  {
    if b > a {
      SweepSkips(sw, w, g, a, b - 1);
    }
  }

  /** The loop over rows 1 .. w - 2 starts at cell (1, 1), after the whole first row and cell (1, 0). */
  lemma SweepStarts(sw: Sweep, w: nat, g: Grid)
    requires Defined(sw) && GridSized(w, g) && w >= 2
    ensures 0 <= Idx(w, 1, 1) <= w * w && SweepUpTo(sw, w, g, Idx(w, 1, 1)) == g
  {
    forall i | 0 <= i < Idx(w, 1, 1)
      ensures !InteriorIndex(w, i)
    {
      RingBeforeFirst(w, i);
    }
    MulMono(2, w, w);
    SweepSkips(sw, w, g, 0, Idx(w, 1, 1));
  }

  /** Between the last interior cell of row z and the first of row z + 1 lie two boundary cells. */
  lemma SweepNextRow(sw: Sweep, w: nat, g: Grid, z: int)
    requires Defined(sw) && GridSized(w, g) && 1 <= z < w - 1
    ensures 0 <= Idx(w, z, w - 1) < Idx(w, z + 1, 1) <= w * w
    ensures SweepUpTo(sw, w, g, Idx(w, z + 1, 1)) == SweepUpTo(sw, w, g, Idx(w, z, w - 1))
  {
    IdxNextRow(w, z);
    forall i | Idx(w, z, w - 1) <= i < Idx(w, z + 1, 1)
      ensures !InteriorIndex(w, i)
    {
      RingBetweenRows(w, z, i);
    }
    IdxInRange(w, w, z + 1, 1);
    SweepSkips(sw, w, g, Idx(w, z, w - 1), Idx(w, z + 1, 1));
  }

  /** After the last interior row only boundary cells remain: the loop has done the whole sweep. */
  lemma SweepEnds(sw: Sweep, w: nat, g: Grid)
    requires Defined(sw) && GridSized(w, g) && w >= 2
    ensures 0 <= Idx(w, Span(w - 1), 1) <= w * w
    ensures SweepUpTo(sw, w, g, Idx(w, Span(w - 1), 1)) == SweepPass(sw, w, g)
  {
    var z := Span(w - 1);
    IdxInRange(w, w, z, 1);
    forall i | Idx(w, z, 1) <= i < w * w
      ensures !InteriorIndex(w, i)
    {
      RingAfterLast(w, i);
    }
    SweepSkips(sw, w, g, Idx(w, z, 1), w * w);
  }

  /** Visiting interior cell (z, x) applies the loop body to it. */
  lemma SweepVisits(sw: Sweep, w: nat, g: Grid, z: int, x: int)
    requires Defined(sw) && GridSized(w, g) && Interior(w, z, x)
    ensures 0 <= Idx(w, z, x) < w * w
    ensures var n := Idx(w, z, x); var prev := SweepUpTo(sw, w, g, n);
            SweepUpTo(sw, w, g, n + 1) == Put(w, prev, n, Apply(sw, At(w, prev, n)))
  {
    IdxInRange(w, w, z, x);
    InteriorIndexIff(w, z, x);
  }

  // ---------------------------------------------------------------------------
  // One step and a run of steps

  /** Rain falls at this step: a zero frequency never rains, otherwise every rainFrequency-th step does. */
  predicate RainDue(p: Params, step: int)
  {
    p.rainFrequency != 0 && step % p.rainFrequency == 0
  }

  /** What the engine needs for a step to be defined over the reals. */
  predicate StepDefined(p: Params, maxH: real)
  {
    (p.hydraulicEnabled && p.rainFrequency != 0 ==> maxH != 0.0) && (p.thermalEnabled ==> p.kT >= 0.0)
  }

  /** Optional rain, then the hydraulic pass from the in buffers into the out buffers. */
  function HydraulicStage(p: Params, maxH: real, w: nat, step: int, g: Grid): (r: Grid)
    requires StepDefined(p, maxH) && GridSized(w, g) && w >= 2
    ensures GridSized(w, r)
  {
    if !p.hydraulicEnabled then g
    else
      var gr := if RainDue(p, step) then SweepPass(Rain(p.rain, maxH), w, g) else g;
      Grid(gr.ins, HydraulicPass(p, w, gr.ins, gr.outs))
  }

  /** The thermal pass, reading the in heights and accumulating into the out heights. */
  function ThermalStage(p: Params, w: nat, g: Grid): (r: Grid)
    requires (p.thermalEnabled ==> p.kT >= 0.0) && GridSized(w, g) && w >= 2
    ensures GridSized(w, r)
  {
    if !p.thermalEnabled then g
    else Grid(g.ins, g.outs.(height := ThermalPass(p, w, g.ins.height, g.outs.height)))
  }

  /** One iteration of the erosion loop with step counter `step`. */
  function Step(p: Params, maxH: real, w: nat, step: int, g: Grid): (r: Grid)
    requires StepDefined(p, maxH) && GridSized(w, g) && w >= 2
    ensures GridSized(w, r)
  {
    SweepPass(Evaporate(p.kE), w, ThermalStage(p, w, HydraulicStage(p, maxH, w, step, g)))
  }

  /** k iterations of the loop, the first one with step counter `start`. */
  function Run(p: Params, maxH: real, w: nat, start: int, k: nat, g: Grid): (r: Grid)
    requires StepDefined(p, maxH) && GridSized(w, g) && w >= 2
    ensures GridSized(w, r)
    decreases k
  {
    if k == 0 then g else Step(p, maxH, w, start + k - 1, Run(p, maxH, w, start, k - 1, g))
  }

  // ---------------------------------------------------------------------------
  // Properties of the sweeps

  /** After the fill every interior cell holds its rain depth in both water buffers, no sediment, and heightOut == heightIn. */
  lemma FillSets(rain: real, maxH: real, w: nat, g: Grid, i: int)
    requires maxH != 0.0 && GridSized(w, g) && 0 <= i < w * w && InteriorIndex(w, i)
    ensures var r := SweepPass(Fill(rain, maxH), w, g);
            r.ins.water[i] == r.outs.water[i] == rain * (g.ins.height[i] / maxH) &&
            r.ins.sediment[i] == r.outs.sediment[i] == 0.0 &&
            r.ins.height[i] == r.outs.height[i] == g.ins.height[i]
  {
    SweepPassAt(Fill(rain, maxH), w, g, i);
  }

  /** Rain adds the rain depth to waterIn of an interior cell and copies the result into waterOut; nothing else moves. */
  lemma RainAdds(rain: real, maxH: real, w: nat, g: Grid, i: int)
    requires maxH != 0.0 && GridSized(w, g) && 0 <= i < w * w && InteriorIndex(w, i)
    ensures var r := SweepPass(Rain(rain, maxH), w, g);
            r.ins.water[i] == r.outs.water[i] == g.ins.water[i] + rain * (g.ins.height[i] / maxH) &&
            r.ins.height[i] == g.ins.height[i] && r.ins.sediment[i] == g.ins.sediment[i] &&
            r.outs.height[i] == g.outs.height[i] && r.outs.sediment[i] == g.outs.sediment[i]
  {
    SweepPassAt(Rain(rain, maxH), w, g, i);
  }

  /**
    Evaporation scales waterOut by kE; a cell left with less than the dry
    threshold drops its in sediment onto heightOut and loses its water and
    sediment; then the in buffers take the out values.
   */
  lemma EvaporateRotates(kE: real, w: nat, g: Grid, i: int)
    requires GridSized(w, g) && 0 <= i < w * w && InteriorIndex(w, i)
    ensures var r := SweepPass(Evaporate(kE), w, g);
            var wo := g.outs.water[i] * kE;
            r.ins.height[i] == r.outs.height[i] && r.ins.water[i] == r.outs.water[i] &&
            r.ins.sediment[i] == r.outs.sediment[i] &&
            (wo < DryThreshold ==>
               r.outs.height[i] == g.outs.height[i] + g.ins.sediment[i] && r.outs.water[i] == 0.0 && r.outs.sediment[i] == 0.0) &&
            (wo >= DryThreshold ==>
               r.outs.height[i] == g.outs.height[i] && r.outs.water[i] == wo && r.outs.sediment[i] == g.outs.sediment[i])
  {
    SweepPassAt(Evaporate(kE), w, g, i);
  }

  /** With 0 <= kE <= 1 and no negative water, evaporation takes water away cell by cell and in total. */
  lemma EvaporationNeverAddsWater(kE: real, w: nat, g: Grid)
    requires GridSized(w, g) && 0.0 <= kE <= 1.0
    requires forall i :: 0 <= i < w * w ==> g.outs.water[i] >= 0.0
    ensures var r := SweepPass(Evaporate(kE), w, g);
            (forall i :: 0 <= i < w * w ==> 0.0 <= r.outs.water[i] <= g.outs.water[i]) &&
            Sum(r.outs.water) <= Sum(g.outs.water)
  {
    var r := SweepPass(Evaporate(kE), w, g);
    forall i | 0 <= i < w * w
      ensures 0.0 <= r.outs.water[i] <= g.outs.water[i]
    {
      SweepPassAt(Evaporate(kE), w, g, i);
      EvaporateCellWater(kE, At(w, g, i));
    }
    SumMono(r.outs.water, g.outs.water);
  }

  /** One cell's evaporation keeps its out water between zero and what it was. */
  lemma EvaporateCellWater(kE: real, v: Vals)
    requires 0.0 <= kE <= 1.0 && v.wOut >= 0.0
    ensures 0.0 <= Apply(Evaporate(kE), v).wOut <= v.wOut
  {
    MulLeft(v.wOut, kE, 1.0);
    MulLeft(v.wOut, 0.0, kE);
    var e := Evaporated(kE, v);
    assert e.wOut == 0.0 || 0.0 <= e.wOut == v.wOut * kE <= v.wOut;
    assert Apply(Evaporate(kE), v).wOut == e.wOut;
  }

  lemma MulLeft(x: real, a: real, b: real)
    requires x >= 0.0 && a <= b
    ensures x * a <= x * b
  {
    assert x * b - x * a == x * (b - a);
  }

  // ---------------------------------------------------------------------------
  // Properties of a step and of a run

  /** The in buffers' boundary ring: the hydraulic and thermal stages never write the in buffers. */
  predicate SameInBoundary(w: nat, a: Grid, b: Grid)
    requires GridSized(w, a) && GridSized(w, b)
  {
    forall i :: 0 <= i < w * w && !InteriorIndex(w, i) ==>
      a.ins.height[i] == b.ins.height[i] && a.ins.water[i] == b.ins.water[i] && a.ins.sediment[i] == b.ins.sediment[i]
  }

  /** A step leaves every boundary cell of heightmap, water and sediment as it was. */
  lemma StepKeepsBoundary(p: Params, maxH: real, w: nat, step: int, g: Grid)
    requires StepDefined(p, maxH) && GridSized(w, g) && w >= 2
    ensures SameInBoundary(w, Step(p, maxH, w, step, g), g)
  {
    var g1 := HydraulicStage(p, maxH, w, step, g);
    var g2 := ThermalStage(p, w, g1);
    var r := SweepPass(Evaporate(p.kE), w, g2);
    forall i | 0 <= i < w * w && !InteriorIndex(w, i)
      ensures r.ins.height[i] == g.ins.height[i] && r.ins.water[i] == g.ins.water[i] && r.ins.sediment[i] == g.ins.sediment[i]
    {
      SweepPassAt(Evaporate(p.kE), w, g2, i);
      if p.hydraulicEnabled && RainDue(p, step) {
        SweepPassAt(Rain(p.rain, maxH), w, g, i);
      }
    }
  }

  /** A run of any length leaves every boundary cell of heightmap, water and sediment as it was. */
  lemma {:induction false} RunKeepsBoundary(p: Params, maxH: real, w: nat, start: int, k: nat, g: Grid)
    requires StepDefined(p, maxH) && GridSized(w, g) && w >= 2
    ensures SameInBoundary(w, Run(p, maxH, w, start, k, g), g)
    decreases k
  {
    if k > 0 {
      var prev := Run(p, maxH, w, start, k - 1, g);
      RunKeepsBoundary(p, maxH, w, start, k - 1, g);
      StepKeepsBoundary(p, maxH, w, start + k - 1, prev);
    }
  }

  /** After a step the in buffers equal the out buffers on every interior cell. */
  lemma StepRotates(p: Params, maxH: real, w: nat, step: int, g: Grid, i: int)
    requires StepDefined(p, maxH) && GridSized(w, g) && w >= 2
    requires 0 <= i < w * w && InteriorIndex(w, i)
    ensures var r := Step(p, maxH, w, step, g);
            r.ins.height[i] == r.outs.height[i] && r.ins.water[i] == r.outs.water[i] &&
            r.ins.sediment[i] == r.outs.sediment[i]
  {
    EvaporateRotates(p.kE, w, ThermalStage(p, w, HydraulicStage(p, maxH, w, step, g)), i);
  }

  /** Without hydraulic erosion, or without a due rain step, the water in buffer is untouched before evaporation. */
  lemma NoRainUnlessDue(p: Params, maxH: real, w: nat, step: int, g: Grid)
    requires StepDefined(p, maxH) && GridSized(w, g) && w >= 2
    requires !p.hydraulicEnabled || !RainDue(p, step)
    ensures HydraulicStage(p, maxH, w, step, g).ins == g.ins
  {
  }
}
