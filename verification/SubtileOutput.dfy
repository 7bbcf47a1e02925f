/** The subtile kernel's stores and the runner's plan for them, from one configuration. */
module SubtileOutput {
  import opened CheckedArith
  import opened SubtileConfig
  import Stage = SubtileStage
  import Dataflow = SubtileDataflow
  import Output = OutputLayout

  /** What the runner is given for a configuration: MFMA on 64-lane waves. */
  function ArgsOf(cfg: Config): Output.Args {
    Output.Args(cfg.m, cfg.n, cfg.bm, cfg.bn, cfg.waveM, cfg.waveN, 64, false)
  }

  /**
   The runner plans the output of an accepted configuration if and only if the extents are multiples of 16 and the
   elements fit an int, and the plan has the kernel's own block counts.
   */
  lemma PlanIsKernels(cfg: Config)
    requires cfg.Ok() && ArgsOf(cfg).Positive()
    ensures Output.MakePlan(ArgsOf(cfg)).Value? <==> cfg.m % 16 == 0 && cfg.n % 16 == 0 && cfg.m * cfg.n <= INT_MAX
    ensures Output.MakePlan(ArgsOf(cfg)).Value? ==>
              && cfg.BlockMTiles() > 0 && cfg.BlockNTiles() > 0
              && Output.MakePlan(ArgsOf(cfg)).value
                 == Output.Plan(cfg.m * cfg.n, cfg.m, cfg.n, cfg.MBlocks(), cfg.NBlocks(), cfg.bm, cfg.bn,
                                cfg.waveM, cfg.waveN, 4, false)
  {
    Dataflow.EvenTiles(cfg);
    Dataflow.BlocksDivide(cfg.m, cfg.BlockMTiles());
    Dataflow.BlocksDivide(cfg.n, cfg.BlockNTiles());
    Nonnegative(cfg, 0);
    Output.MakePlanExact(ArgsOf(cfg));
    hide Config.Validate, Output.MakePlan;
  }

  /** Offset of a store, in the kernel's own terms (`_store_results`, `_store_fragment_f16`). */
  function KernelStore(cfg: Config, wgM: nat, wgN: nat, wave: nat, i: nat, j: nat, lane: nat, reg: nat): int
    requires cfg.BlockNTiles() > 0
  {
    var tilesPerWave := cfg.waveM * cfg.waveN;
    var ctaOff := wgM * (cfg.NBlocks() * cfg.Waves() * tilesPerWave * 256) + wgN * (cfg.Waves() * tilesPerWave * 256);
    ctaOff + wave * (tilesPerWave * 256) + (i * cfg.waveN + j) * 256 + lane * 4 + reg
  }

  /** Row (for A) or column (for B) tile that tile `i` of a wave belongs to. */
  function AxisTile(cfg: Config, isA: bool, wg: nat, wave: nat, i: nat): int
    requires cfg.Ok() && wave < cfg.Waves()
  {
    Dataflow.OperandRow(GeometryOf(cfg, wave), isA, wg, i, 0) / 16
  }

  lemma AxisTileIs(cfg: Config, isA: bool, wg: nat, wave: nat, i: nat)
    requires cfg.Ok() && wave < cfg.Waves()
    ensures cfg.bn > 0
    ensures AxisTile(cfg, isA, wg, wave, i)
         == if isA then wg * cfg.BlockMTiles() + wave / cfg.bn * cfg.waveM + i
            else wg * cfg.BlockNTiles() + wave % cfg.bn * cfg.waveN + i
  {
    AcceptedK(cfg);
    Nonnegative(cfg, wave);
    hide Config.Validate;
  }

  /**
   What the kernel stores for tile (i, j) the runner reads back in the rows of the A tile and the columns of the
   B tile that the tile's MMAs were fed from.
   */
  lemma StoresReadBack(cfg: Config, wgM: nat, wgN: nat, wave: nat, i: nat, j: nat, lane: nat, reg: nat)
    requires cfg.Ok() && ArgsOf(cfg).Positive() && Output.MakePlan(ArgsOf(cfg)).Value?
    requires cfg.BlockMTiles() > 0 && cfg.BlockNTiles() > 0 && wave < cfg.Waves()
    requires wgM < cfg.MBlocks() && wgN < cfg.NBlocks() && i < cfg.waveM && j < cfg.waveN && lane < 64 && reg < 4
    ensures var p := Output.MakePlan(ArgsOf(cfg)).value;
            && p.CtaElements() > 0 && p.WaveElements() > 0 && p.bn > 0
            && var at := KernelStore(cfg, wgM, wgN, wave, i, j, lane, reg);
            && 0 <= at < cfg.m * cfg.n
            && Output.OutputCoordinate(at, p)
               == Output.Coordinate(AxisTile(cfg, true, wgM, wave, i) * 16 + lane / 16 * 4 + reg,
                                    AxisTile(cfg, false, wgN, wave, j) * 16 + lane % 16)
  {
    PlanIsKernels(cfg);
    Output.MadePlanValid(ArgsOf(cfg));
    AxisTileIs(cfg, true, wgM, wave, i);
    AxisTileIs(cfg, false, wgN, wave, j);
    var p := Output.MakePlan(ArgsOf(cfg)).value;
    StoreIsPlans(cfg, p, wgM, wgN, wave, i, j, lane, reg);
    hide Config.Validate, Output.MakePlan, Output.Plan.Valid, AxisTile, KernelStore, Output.StoreOffset,
         Output.OutputCoordinate;
    Output.StoreDecodes(p, wgM, wgN, wave, i, j, lane, reg);
  }

  lemma StoreIsPlans(cfg: Config, p: Output.Plan, wgM: nat, wgN: nat, wave: nat, i: nat, j: nat, lane: nat, reg: nat)
    requires cfg.BlockNTiles() > 0 && p.nBlocks == cfg.NBlocks()
    requires p.bm == cfg.bm && p.bn == cfg.bn && p.waveM == cfg.waveM && p.waveN == cfg.waveN && p.valuesPerLane == 4
    ensures KernelStore(cfg, wgM, wgN, wave, i, j, lane, reg)
         == Output.StoreOffset(p, wgM, wgN, wave, i, j, lane, reg)
  {}
}
