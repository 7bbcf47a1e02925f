/**
 The tile-level values of the pipeline, read down to bytes: what the operands of every MMA are, for
 any accepted configuration, workgroup, wave, step, k-tile, tile pair and lane.
 */
module SubtileDataflow {
  import CheckedArith
  import opened Prelude
  import MixedRadix
  import Blocking
  import SubtileMachine
  import Stage = SubtileStage
  import opened SubtileConfig
  import opened SubtileLayout
  import opened SubtileDataStage
  import Scales = SubtileScales
  import Host = SubtileScaleHost

  /** Scale layout of one operand, as the kernel's configuration gives it. */
  function ScaleLayout(cfg: Config, isA: bool): Scales.Layout
    requires cfg.Ok()
  {
    AcceptedK(cfg);
    Nonnegative(cfg, 0);
    BlocksFit(cfg.m, cfg.BlockMTiles());
    BlocksFit(cfg.n, cfg.BlockNTiles());
    Scales.Layout(if isA then cfg.m else cfg.n, cfg.MBlocks(), cfg.NBlocks(),
                  if isA then cfg.bm else cfg.bn, if isA then cfg.waveM else cfg.waveN,
                  cfg.waveK, cfg.VirtualKSteps(), isA)
  }

  function PanelOf(cfg: Config, isA: bool): Panel
    requires cfg.Ok()
  {
    if isA then PanelA(cfg) else PanelB(cfg)
  }

  function Data(isA: bool): SubtileMachine.Buffer {
    if isA then SubtileMachine.DataA else SubtileMachine.DataB
  }

  /** Pipeline geometry, data layout and scale layout speak of the same operand of the same kernel. */
  predicate Linked(g: Stage.Geometry, p: Panel, l: Scales.Layout, isA: bool) {
    && g.Valid() && p.Valid() && l.Valid() && l.isA == isA
    && p.rows == l.rows && p.blocks == l.Blocks() && p.steps == l.steps == g.steps
    && p.tiles == l.BlockTiles() == g.BlockTiles(Data(isA))
    && p.waveK == l.waveK == g.waveK && p.waves == g.waves
    && l.waveTiles == g.WaveTiles(Data(isA)) && l.blockWaves == g.Partitions(Data(isA))
    && g.FirstTile(Data(isA)) == g.Partition(Data(isA)) * l.waveTiles
    && l.Groups() == g.Groups(Data(isA)) && p.Slots() == g.Slots(Data(isA))
  }

  /** Every accepted configuration gives three views that agree, for each operand and wave. */
  lemma AcceptedLinked(cfg: Config, wave: nat, isA: bool)
    requires cfg.Ok() && wave < cfg.Waves()
    ensures Linked(GeometryOf(cfg, wave), PanelOf(cfg, isA), ScaleLayout(cfg, isA), isA)
  {
    AcceptedGeometry(cfg, wave);
    AcceptedPanels(cfg);
    ScaleLayoutValid(cfg, isA);
    hide Config.Validate, Stage.Geometry.Valid, Panel.Valid, Scales.Layout.Valid;
  }

  lemma ScaleLayoutValid(cfg: Config, isA: bool)
    requires cfg.Ok()
    ensures ScaleLayout(cfg, isA).Valid()
  {
    AcceptedK(cfg);
    EvenTiles(cfg);
    hide Config.Validate;
    var extent, tiles := if isA then cfg.m else cfg.n, if isA then cfg.BlockMTiles() else cfg.BlockNTiles();
    BlocksFit(extent, tiles);
    var l := ScaleLayout(cfg, isA);
    assert l.BlockTiles() == tiles && l.Blocks() == extent / (16 * tiles);
    BlockRows(l.Blocks(), tiles);
  }

  lemma BlockRows(blocks: nat, tiles: nat)
    ensures blocks * tiles * 16 == blocks * (16 * tiles)
  {}

  lemma EvenTiles(cfg: Config)
    requires cfg.Ok()
    ensures cfg.Positive() && cfg.waveM % 2 == 0 && cfg.waveN % 2 == 0 && cfg.waveK % 2 == 0
    ensures Divides(cfg.BlockMTiles(), cfg.m / 16) && Divides(cfg.BlockNTiles(), cfg.n / 16)
  {}

  /** Operand row of lane `lane` of tile `i` of the wave. */
  function OperandRow(g: Stage.Geometry, isA: bool, wg: nat, i: nat, lane: nat): nat {
    (wg * g.BlockTiles(Data(isA)) + g.FirstTile(Data(isA)) + i) * 16 + lane % 16
  }

  /** 32-element K block of lane `lane` of k-tile `k` of `step`. */
  function KBlock(g: Stage.Geometry, step: nat, k: nat, lane: nat): nat {
    (step * g.waveK + k) * 4 + lane / 16
  }

  /**
   What lane `wi % 64` brings to the MMA of tile `i` in k-tile `k` of `step`: the sixteen packed
   bytes of one 32-element block of one row, and the canonical scale of that same block and row.
   */
  lemma MmaOperand(g: Stage.Geometry, p: Panel, l: Scales.Layout, isA: bool, wg: nat, step: nat, k: nat, i: nat,
                   wi: nat)
    requires Linked(g, p, l, isA) && k < g.waveK && i < g.WaveTiles(Data(isA))
    ensures Fetched(p, wg, step, Stage.ReadSlot(g, Data(isA), k, i), wi)
            == OperandRow(g, isA, wg, i, wi % 64) * p.StorageK() + KBlock(g, step, k, wi % 64) * 16
    ensures var d := Scales.Digits(wg, step, g.Partition(Data(isA)), Stage.ScaleGroup(g, i, k), wi % 64,
                                   i % 2 + 2 * (k % 2));
            Scales.CanonicalIndex(l, d) == KBlock(g, step, k, wi % 64) * l.rows + OperandRow(g, isA, wg, i, wi % 64)
  {
    FragmentPart(g, p, l, isA, wg, step, k, i, wi);
    ScalePart(g, p, l, isA, wg, step, k, i, wi % 64);
    hide Linked, Fetched, Scales.CanonicalIndex, OperandRow, KBlock;
  }

  lemma FragmentPart(g: Stage.Geometry, p: Panel, l: Scales.Layout, isA: bool, wg: nat, step: nat, k: nat, i: nat,
                     wi: nat)
    requires Linked(g, p, l, isA) && k < g.waveK && i < g.WaveTiles(Data(isA))
    ensures Fetched(p, wg, step, Stage.ReadSlot(g, Data(isA), k, i), wi)
            == OperandRow(g, isA, wg, i, wi % 64) * p.StorageK() + KBlock(g, step, k, wi % 64) * 16
  {
    hide Stage.Geometry.Valid, Panel.Valid, Scales.Layout.Valid, Fetched, Panel.StorageK;
    var tile := g.FirstTile(Data(isA)) + i;
    TileInBlock(g, isA, i);
    FragmentFetched(p, wg, step, k, tile, wi);
    LaneOfWave(wi);
    BlockBytes(step * p.waveK + k, wi % 64 / 16);
  }

  lemma LaneOfWave(wi: nat)
    ensures wi % 64 % 16 == wi % 16
  {}

  lemma BlockBytes(tile: nat, block: nat)
    ensures tile * 64 + block * 16 == (tile * 4 + block) * 16
  {}

  lemma TileInBlock(g: Stage.Geometry, isA: bool, i: nat)
    requires g.Valid() && i < g.WaveTiles(Data(isA))
    ensures g.FirstTile(Data(isA)) + i < g.BlockTiles(Data(isA))
  {}

  lemma ScalePart(g: Stage.Geometry, p: Panel, l: Scales.Layout, isA: bool, wg: nat, step: nat, k: nat, i: nat,
                  lane: nat)
    requires Linked(g, p, l, isA) && k < g.waveK && i < g.WaveTiles(Data(isA)) && lane < 64
    ensures var d := Scales.Digits(wg, step, g.Partition(Data(isA)), Stage.ScaleGroup(g, i, k), lane,
                                   i % 2 + 2 * (k % 2));
            Scales.CanonicalIndex(l, d) == KBlock(g, step, k, lane) * l.rows + OperandRow(g, isA, wg, i, lane)
  {
    Scales.SelectedScale(l, wg, step, g.Partition(Data(isA)), i, k, lane);
    hide Stage.Geometry.Valid, Panel.Valid, Scales.Layout.Valid, Scales.CanonicalIndex;
  }

  // ------------------------------------------- the values of an MMA, read as bytes of LDS

  function OperandOf(v: SubtileMachine.Value, isA: bool): SubtileMachine.Value
    requires v.Mma?
  {
    if isA then v.a else v.b
  }

  function ScaleOf(v: SubtileMachine.Value, isA: bool): SubtileMachine.Value
    requires v.Mma?
  {
    if isA then v.aScale else v.bScale
  }

  function SelectorOf(v: SubtileMachine.Value, isA: bool): nat
    requires v.Mma?
  {
    if isA then v.aSel else v.bSel
  }

  /** Byte of LDS at which a lane reads the fragment that a data value stands for: its first cell is the slot. */
  function DataAt(p: Panel, v: SubtileMachine.Value, wi: nat): nat
    requires v.Loaded?
  {
    DataRead(p, v.step, v.first, wi) * 4
  }

  /** Byte of LDS at which a lane reads the dword that a scale value stands for, four cells to a group. */
  function ScaleDwordAt(l: Scales.Layout, v: SubtileMachine.Value, lane: nat): nat
    requires v.Loaded? && l.Groups() > 0
  {
    4 * Scales.ScaleRead(l, v.step, v.first / 4 / l.Groups(), v.first / 4 % l.Groups(), lane)
  }

  /** Index in the canonical array of the scale of a lane's row and block. */
  function ScaleIndex(g: Stage.Geometry, l: Scales.Layout, isA: bool, wg: nat, step: nat, k: nat, i: nat, lane: nat)
      : nat
  {
    KBlock(g, step, k, lane) * l.rows + OperandRow(g, isA, wg, i, lane)
  }

  function ScaleData(isA: bool): SubtileMachine.Buffer {
    if isA then SubtileMachine.ScaleA else SubtileMachine.ScaleB
  }

  /** What the MMA of tile (i, j) takes for one operand; `t` is its tile of that operand. */
  lemma MmaTakes(g: Stage.Geometry, isA: bool, step: nat, k: nat, i: nat, j: nat, acc: SubtileMachine.Value, t: nat)
    requires t == if isA then i else j
    ensures var v := Stage.StageMma(g, step, k, i, j, acc);
            && v.Mma? && v.acc == acc
            && OperandOf(v, isA) == SubtileMachine.Loaded(Data(isA), Stage.ReadSlot(g, Data(isA), k, t), step)
            && ScaleOf(v, isA)
               == SubtileMachine.Loaded(ScaleData(isA), Stage.ScaleFirst(g, Data(isA), Stage.ScaleGroup(g, t, k)), step)
            && SelectorOf(v, isA) == t % 2 + 2 * (k % 2)
  {}

  /** The cell of a scale value gives back its partition and group. */
  lemma CellOfGroup(g: Stage.Geometry, l: Scales.Layout, isA: bool, group: nat)
    requires l.Groups() == g.Groups(Data(isA)) && group < l.Groups()
    ensures var first := Stage.ScaleFirst(g, Data(isA), group);
            first / 4 / l.Groups() == g.Partition(Data(isA)) && first / 4 % l.Groups() == group
  {
    MixedRadix.Split(g.Partition(Data(isA)), group, l.Groups());
    MixedRadix.Split(g.Partition(Data(isA)) * l.Groups() + group, 0, 4);
  }

  /**
   End to end for the scales: once a stage is staged, by either path, the byte that the MMA's own selector picks
   from the dword its scale value stands for is the canonical scale of the row and block whose sixteen bytes the
   lane brings, and lies in the step's own stage. For A of tile (i, j) the tile is i, for B it is j.
   */
  lemma MmaScaleByte(g: Stage.Geometry, p: Panel, l: Scales.Layout, isA: bool, lds: seq<Byte>, canonical: seq<Byte>,
                     wg: nat, step: nat, k: nat, i: nat, j: nat, acc: SubtileMachine.Value, lane: nat)
    requires l.Valid() && Scales.Staged(l, lds, canonical, wg, step, g.Partition(Data(isA)), l.Groups())
    requires k < g.waveK && i < g.waveM && j < g.waveN && lane < 64 && Linked(g, p, l, isA)
    ensures var v := Stage.StageMma(g, step, k, i, j, acc);
            && v.Mma? && ScaleOf(v, isA).Loaded? && l.Groups() > 0 && SelectorOf(v, isA) < 4
            && var at := ScaleDwordAt(l, ScaleOf(v, isA), lane) + SelectorOf(v, isA);
            && Scales.Delivers(lds, at, canonical, ScaleIndex(g, l, isA, wg, step, k, if isA then i else j, lane))
            && step % 2 * l.StepBytes() <= at < (step % 2 + 1) * l.StepBytes()
  {
    var t := if isA then i else j;
    MmaTakes(g, isA, step, k, i, j, acc, t);
    ScalePart(g, p, l, isA, wg, step, k, t, lane);
    GroupInRange(g, l, isA, t, k);
    CellOfGroup(g, l, isA, Stage.ScaleGroup(g, t, k));
    var d := Scales.Digits(wg, step, g.Partition(Data(isA)), Stage.ScaleGroup(g, t, k), lane, t % 2 + 2 * (k % 2));
    PartitionInRange(g, l, isA);
    hide Stage.Geometry.Valid, Panel.Valid, Scales.Layout.Valid, Scales.CanonicalIndex, Scales.ScaleRead, Scales.ByteAt,
         KBlock, OperandRow, Scales.Layout.Groups, Scales.Layout.StepBytes, Stage.ScaleGroup, Scales.Delivers,
         Scales.Staged, Linked, Stage.StageMma, OperandOf, ScaleOf, SelectorOf, Stage.ScaleFirst;
    Scales.StagedDword(l, lds, canonical, d);
    Scales.ScaleReadIs(l, d);
  }

  /**
   End to end for the data: once the DMA of a stage is carried out, the sixteen bytes of LDS that the MMA's data
   value stands for are the packed bytes of that same row and block, and lie in the step's own stage.
   */
  lemma MmaDataBytes(g: Stage.Geometry, p: Panel, l: Scales.Layout, isA: bool, lds: seq<Byte>, packed: seq<Byte>,
                     wg: nat, step: nat, k: nat, i: nat, j: nat, acc: SubtileMachine.Value, wi: nat)
    requires Linked(g, p, l, isA) && k < g.waveK && i < g.waveM && j < g.waveN
    requires DataStaged(p, lds, packed, wg, step, p.Slots())
    ensures var v := Stage.StageMma(g, step, k, i, j, acc);
            && v.Mma? && OperandOf(v, isA).Loaded?
            && var t, at := if isA then i else j, DataAt(p, OperandOf(v, isA), wi);
            && Sixteen(lds, at, packed,
                       OperandRow(g, isA, wg, t, wi % 64) * p.StorageK() + KBlock(g, step, k, wi % 64) * 16)
            && SlotBase(p, step, 0) <= at && at + 16 <= SlotBase(p, step, p.Slots())
  {
    var t := if isA then i else j;
    var slot := Stage.ReadSlot(g, Data(isA), k, t);
    MmaTakes(g, isA, step, k, i, j, acc, t);
    SlotInRange(g, p, l, isA, k, t);
    FragmentPart(g, p, l, isA, wg, step, k, t, wi);
    FetchedIs(p, wg, step, slot, wi);
    FragmentStaged(p, lds, packed, wg, step, slot, wi);
    hide Stage.Geometry.Valid, Panel.Valid, Scales.Layout.Valid, Linked, Stage.StageMma, OperandOf, ScaleOf, SelectorOf,
         Stage.ReadSlot, OperandRow, KBlock, DataRead, SlotBase, Sixteen, Address, TileRow, TileCol, Fetched,
         Panel.StorageK;
  }

  lemma SlotInRange(g: Stage.Geometry, p: Panel, l: Scales.Layout, isA: bool, k: nat, i: nat)
    requires Linked(g, p, l, isA) && k < g.waveK && i < g.WaveTiles(Data(isA))
    ensures p.Valid() && p.tiles > 0 && p.waves > 0 && Stage.ReadSlot(g, Data(isA), k, i) < p.Slots()
  {
    TileInBlock(g, isA, i);
    Stage.ReadSlotBound(g, Data(isA), k, i);
  }

  lemma FetchedIs(p: Panel, wg: nat, step: nat, slot: nat, wi: nat)
    requires p.Valid() && slot < p.Slots()
    ensures Fetched(p, wg, step, slot, wi)
            == Address(p, TileRow(p, wg, slot, wi % 16), TileCol(p, step, slot, wi % 64 / 16))
  {
    FragmentBytes(p, wg, step, slot, wi);
    hide DataSrc, DataDest, DataRead, Address, TileRow, TileCol, Writer, Panel.Slots;
  }

  lemma PartitionInRange(g: Stage.Geometry, l: Scales.Layout, isA: bool)
    requires g.Valid() && l.blockWaves == g.Partitions(Data(isA))
    ensures g.Partition(Data(isA)) < l.blockWaves
  {}

  lemma GroupInRange(g: Stage.Geometry, l: Scales.Layout, isA: bool, i: nat, k: nat)
    requires g.Valid() && k < g.waveK && i < g.WaveTiles(Data(isA)) && l.Groups() == g.Groups(Data(isA))
    ensures Stage.ScaleGroup(g, i, k) < l.Groups()
  {
    Stage.ScaleGroupInRange(g, if isA then i else 0, if isA then 0 else i, k);
  }

  // ---------------------------------------------------------------- the host's layout

  function TilesOf(cfg: Config): Blocking.Tiles {
    Blocking.Tiles(cfg.m, cfg.n, cfg.k, cfg.bm, cfg.bn, cfg.waveM, cfg.waveN, cfg.waveK)
  }

  /** A whole number of blocks covers an extent exactly when its 16-row tiles do. */
  lemma BlocksDivide(extent: int, tiles: int)
    requires extent > 0 && Divides(tiles, extent / 16)
    ensures 16 * tiles > 0 && (extent % (16 * tiles) == 0 <==> extent % 16 == 0)
  {
    BlocksFit(extent, tiles);
    MixedRadix.Quotient(extent, 16 * tiles);
  }

  /** For an accepted configuration the runner's blocking demands only whole 16-row tiles and room for the threads. */
  lemma RunnerDivides(cfg: Config)
    requires cfg.Ok() && TilesOf(cfg).Positive()
    ensures Blocking.Divides(TilesOf(cfg), 64, 128)
            <==> cfg.m % 16 == 0 && cfg.n % 16 == 0 && cfg.bm * cfg.bn * 64 <= CheckedArith.INT_MAX
  {
    EvenTiles(cfg);
    BlocksDivide(cfg.m, cfg.BlockMTiles());
    BlocksDivide(cfg.n, cfg.BlockNTiles());
    TripCountAgrees(cfg);
    hide Config.Validate;
  }

  /**
   The host derives the kernel's own layout. It refuses an accepted configuration if and only if the extents are
   not multiples of 16, or the threads or the bytes of a workgroup exceed an int.
   */
  lemma HostLayoutIsKernels(cfg: Config, isA: bool)
    requires cfg.Ok() && TilesOf(cfg).Positive()
    ensures Host.HostLayout(TilesOf(cfg), isA).Value?
            <==> && cfg.m % 16 == 0 && cfg.n % 16 == 0 && cfg.bm * cfg.bn * 64 <= CheckedArith.INT_MAX
                 && ScaleLayout(cfg, isA).CtaBytes() <= CheckedArith.INT_MAX
    ensures Host.HostLayout(TilesOf(cfg), isA).Value? ==>
              Host.HostLayout(TilesOf(cfg), isA).value.layout == ScaleLayout(cfg, isA)
  {
    RunnerDivides(cfg);
    EvenTiles(cfg);
    Host.HostLayoutExact(TilesOf(cfg), isA);
    TripCountAgrees(cfg);
    if Blocking.Divides(TilesOf(cfg), 64, 128) {
      WantedIsKernels(cfg, isA);
    }
    hide Config.Validate, Blocking.Divides, Host.HostLayout, ScaleLayout, Host.WantedLayout;
  }

  lemma WantedIsKernels(cfg: Config, isA: bool)
    requires cfg.Ok() && TilesOf(cfg).Positive() && Blocking.Divides(TilesOf(cfg), 64, 128)
    ensures Host.WantedLayout(TilesOf(cfg), isA) == ScaleLayout(cfg, isA)
  {
    TripCountAgrees(cfg);
    AcceptedK(cfg);
    hide Config.Validate, Blocking.Divides;
  }
}
