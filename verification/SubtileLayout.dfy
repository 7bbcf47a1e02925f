/**
 Where the bytes of one operand travel: packed matrix -> LDS slot by DMA -> fragment by LDS read.
 Lane l of a 16-byte LDS DMA writes at the destination plus 16 * l; index expressions are exact.
 */
module SubtileLayout {
  import MixedRadix
  import opened SubtileConfig

  /** One operand as the kernel sees it: `blocks` workgroup blocks of `tiles` 16-row tiles each. */
  datatype Panel = Panel(rows: nat, blocks: nat, tiles: nat, waveK: nat, steps: nat, waves: nat) {
    predicate Valid() {
      && tiles > 0 && waveK > 0 && steps > 0 && waves > 0
      && blocks * (16 * tiles) <= rows
      && Slots() % waves == 0
    }

    function Slots(): nat { waveK * tiles }
    function StorageK(): nat { 64 * (steps * waveK) }
    function StageDwords(): nat { Slots() * 256 }
    function Bytes(): nat { rows * StorageK() }
  }

  function PanelA(cfg: Config): Panel
    requires cfg.Ok()
  {
    AcceptedK(cfg);
    Nonnegative(cfg, 0);
    BlocksFit(cfg.m, cfg.BlockMTiles());
    Panel(cfg.m, cfg.MBlocks(), cfg.BlockMTiles(), cfg.waveK, cfg.VirtualKSteps(), cfg.Waves())
  }

  function PanelB(cfg: Config): Panel
    requires cfg.Ok()
  {
    AcceptedK(cfg);
    Nonnegative(cfg, 0);
    BlocksFit(cfg.n, cfg.BlockNTiles());
    Panel(cfg.n, cfg.NBlocks(), cfg.BlockNTiles(), cfg.waveK, cfg.VirtualKSteps(), cfg.Waves())
  }

  /** Accepted configurations give valid panels over the real matrices; blocks cover all rows iff 16 divides them. */
  lemma AcceptedPanels(cfg: Config)
    requires cfg.Ok()
    ensures PanelA(cfg).Valid() && PanelB(cfg).Valid()
    ensures PanelA(cfg).StorageK() == cfg.StorageK() == PanelB(cfg).StorageK()
    ensures PanelA(cfg).blocks * (16 * PanelA(cfg).tiles) == cfg.m <==> cfg.m % 16 == 0
    ensures PanelB(cfg).blocks * (16 * PanelB(cfg).tiles) == cfg.n <==> cfg.n % 16 == 0
  {
    AcceptedK(cfg);
    Nonnegative(cfg, 0);
    BlocksFit(cfg.m, cfg.BlockMTiles());
    BlocksFit(cfg.n, cfg.BlockNTiles());
  }

  // -------------------------------------------------------------------- xor

  function Xor(a: nat, b: nat): nat {
    if a == 0 && b == 0 then 0 else (if a % 2 == b % 2 then 0 else 1) + 2 * Xor(a / 2, b / 2)
  }

  /** Xor by the same operand twice is the identity; two-bit operands give a two-bit result. */
  lemma {:induction false} XorUndoes(a: nat, b: nat)
    ensures Xor(a, Xor(a, b)) == b
  {
    if a != 0 || b != 0 {
      XorUndoes(a / 2, b / 2);
      XorZero(b);
      assert Xor(a, b) / 2 == Xor(a / 2, b / 2);
    }
  }

  lemma {:induction false} XorZero(b: nat)
    ensures Xor(0, b) == b
  {
    if b != 0 {
      XorZero(b / 2);
    }
  }

  lemma XorTwoBits(a: nat, b: nat)
    requires a < 4 && b < 4
    ensures Xor(a, b) < 4
  {
    assert Xor(a / 4, b / 4) == 0;
    assert Xor(a / 2, b / 2) < 2 by {
      assert a / 2 / 2 == 0 && b / 2 / 2 == 0;
    }
  }

  lemma {:induction false} XorCancels(a: nat, b: nat, c: nat)
    requires Xor(a, c) == Xor(b, c)
    ensures a == b
    decreases a + b + c
  {
    if a != 0 || b != 0 {
      assert Xor(a, c) / 2 == Xor(a / 2, c / 2) && Xor(b, c) / 2 == Xor(b / 2, c / 2);
      XorCancels(a / 2, b / 2, c / 2);
    }
  }

  /** `_logical_col` */
  function LogicalCol(row: nat, physicalCol: nat): nat {
    Xor(row / 2 % 4, physicalCol)
  }

  // ------------------------------------------------------------ index expressions

  /** `_major_minor` */
  function MajorMinor(slot: nat, rows: nat): (nat, int)
    requires rows > 0
  {
    (slot / rows, slot - slot / rows * rows)
  }

  function Slot(p: Panel, slotPerWave: nat, wave: nat): nat {
    slotPerWave * p.waves + wave
  }

  /** Byte offset a lane's DMA reads from the packed matrix (`a_src`, `b_src`). */
  function DataSrc(p: Panel, wg: nat, step: nat, slotPerWave: nat, wi: nat): int
    requires p.tiles > 0
  {
    var lane := wi % 64;
    var srcRow := lane / 4;
    var (kTile, tile) := MajorMinor(Slot(p, slotPerWave, wi / 64), p.tiles);
    wg * (p.tiles * 16 * p.StorageK()) + tile * (16 * p.StorageK()) + (step * p.waveK + kTile) * 64
    + srcRow * p.StorageK() + LogicalCol(srcRow, lane % 4) * 16
  }

  /** Dword offset a wave's DMA writes to (`data_dest`), before the lane's own 16 bytes. */
  function DataDest(p: Panel, step: nat, slotPerWave: nat, wave: nat): nat {
    step % 2 * p.StageDwords() + Slot(p, slotPerWave, wave) * 256
  }

  /** Dword offset of a lane's 16-byte fragment read (`data_read`). */
  function DataRead(p: Panel, step: nat, slot: nat, wi: nat): nat {
    step % 2 * p.StageDwords() + slot * 256 + wi % 16 * 16 + LogicalCol(wi % 16, wi % 64 / 16) * 4
  }

  // ------------------------------------------------------------------ coordinates

  function Address(p: Panel, row: nat, col: nat): nat {
    row * p.StorageK() + col
  }

  function TileRow(p: Panel, wg: nat, slot: nat, row: nat): nat
    requires p.tiles > 0
  {
    (wg * p.tiles + slot % p.tiles) * 16 + row
  }

  function TileCol(p: Panel, step: nat, slot: nat, kGroup: nat): nat
    requires p.tiles > 0
  {
    (step * p.waveK + slot / p.tiles) * 64 + kGroup * 16
  }

  /** The slot assignment is a bijection: every slot has exactly one (request, wave). */
  lemma SlotOwner(p: Panel, slot: nat, slotPerWave: nat, wave: nat)
    requires p.Valid() && wave < p.waves
    ensures slot < p.Slots() ==>
      slot / p.waves < p.Slots() / p.waves && Slot(p, slot / p.waves, slot % p.waves) == slot
    ensures Slot(p, slotPerWave, wave) < p.Slots() <==> slotPerWave < p.Slots() / p.waves
    ensures Slot(p, slotPerWave, wave) == slot <==> slotPerWave == slot / p.waves && wave == slot % p.waves
  {
    var n := p.Slots() / p.waves;
    MixedRadix.ExactQuotient(p.Slots(), p.waves);
    MixedRadix.Split(slotPerWave, wave, p.waves);
    if slot < p.Slots() {
      MixedRadix.Compose(slot, n, p.waves);
    }
    if slotPerWave < n {
      MixedRadix.Below(slotPerWave, n, wave, p.waves);
    } else {
      MixedRadix.Monotone(n, slotPerWave, p.waves);
    }
  }

  lemma Distribute(wg: nat, tiles: nat, tile: nat, row: nat, k: nat)
    ensures wg * (tiles * 16 * k) + tile * (16 * k) + row * k == ((wg * tiles + tile) * 16 + row) * k
  {
    assert wg * (tiles * 16 * k) == wg * tiles * 16 * k;
    assert tile * (16 * k) == tile * 16 * k;
    assert (wg * tiles * 16 + tile * 16 + row) * k == wg * tiles * 16 * k + tile * 16 * k + row * k;
  }

  /** A DMA lane reads its tile's row and the k-group its physical column stands for. */
  lemma DataSrcIs(p: Panel, wg: nat, step: nat, slotPerWave: nat, wi: nat)
    requires p.tiles > 0
    ensures var slot := Slot(p, slotPerWave, wi / 64);
            DataSrc(p, wg, step, slotPerWave, wi)
            == Address(p, TileRow(p, wg, slot, wi % 64 / 4),
                       TileCol(p, step, slot, LogicalCol(wi % 64 / 4, wi % 4)))
  {
    hide Slot, LogicalCol, Panel.StorageK;
    var slot := Slot(p, slotPerWave, wi / 64);
    assert wi % 64 % 4 == wi % 4;
    assert slot - slot / p.tiles * p.tiles == slot % p.tiles;
    Distribute(wg, p.tiles, slot % p.tiles, wi % 64 / 4, p.StorageK());
  }

  lemma RowBound(p: Panel, wg: nat, slot: nat, row: nat)
    requires p.Valid() && wg < p.blocks && row < 16
    ensures TileRow(p, wg, slot, row) < p.rows
  {
    MixedRadix.Below(wg, p.blocks, slot % p.tiles, p.tiles);
    assert p.blocks * p.tiles * 16 == p.blocks * (16 * p.tiles);
  }

  lemma ColBound(p: Panel, step: nat, slot: nat, kGroup: nat)
    requires p.Valid() && step < p.steps && slot < p.Slots() && kGroup < 4
    ensures TileCol(p, step, slot, kGroup) + 16 <= p.StorageK()
  {
    MixedRadix.Compose(slot, p.waveK, p.tiles);
    MixedRadix.Below(step, p.steps, slot / p.tiles, p.waveK);
  }

  /** Sixteen bytes at a coordinate inside the matrix are inside the buffer. */
  lemma AddressBound(p: Panel, row: nat, col: nat)
    requires row < p.rows && col + 16 <= p.StorageK()
    ensures Address(p, row, col) + 16 <= p.Bytes()
  {
    MixedRadix.Monotone(row + 1, p.rows, p.StorageK());
    assert (row + 1) * p.StorageK() == row * p.StorageK() + p.StorageK();
  }

  /**
   The range declared for a DMA source is true, with its 16-byte access width, for every
   workgroup, lane, request and step.
   */
  lemma DataSrcInBuffer(p: Panel, wg: nat, step: nat, slotPerWave: nat, wi: nat)
    requires p.Valid() && wg < p.blocks && step < p.steps
    requires slotPerWave < p.Slots() / p.waves && wi < 64 * p.waves
    ensures 0 <= DataSrc(p, wg, step, slotPerWave, wi)
    ensures DataSrc(p, wg, step, slotPerWave, wi) + 16 <= p.Bytes()
  {
    var slot := Slot(p, slotPerWave, wi / 64);
    SlotOwner(p, slot, slotPerWave, wi / 64);
    var row, col := wi % 64 / 4, LogicalCol(wi % 64 / 4, wi % 4);
    XorTwoBits(row / 2 % 4, wi % 4);
    DataSrcIs(p, wg, step, slotPerWave, wi);
    RowBound(p, wg, slot, row);
    ColBound(p, step, slot, col);
    AddressBound(p, TileRow(p, wg, slot, row), TileCol(p, step, slot, col));
  }

  /** Every byte of a slot stays inside its own stage of the double-buffered allocation. */
  lemma SlotInStage(p: Panel, step: nat, slot: nat, byte: nat)
    requires p.Valid() && slot < p.Slots() && byte < 1024
    ensures var at := (step % 2 * p.StageDwords() + slot * 256) * 4 + byte;
            && step % 2 * (p.StageDwords() * 4) <= at < (step % 2 + 1) * (p.StageDwords() * 4)
            && at < 2 * p.StageDwords() * 4
  {
    if step % 2 == 0 {
    } else {
      assert step % 2 == 1;
    }
  }

  /** The workitem whose DMA wrote the sixteen bytes that `wi` reads from `slot`. */
  function Writer(p: Panel, slot: nat, wi: nat): nat
    requires p.waves > 0
  {
    slot % p.waves * 64 + wi % 16 * 4 + LogicalCol(wi % 16, wi % 64 / 16)
  }

  /**
   The swizzle on write is undone on read: lane (row, k-group) of a fragment read of `slot` gets
   exactly that row and k-group of the slot's source tile, from the one lane that wrote there.
   */
  lemma FragmentBytes(p: Panel, wg: nat, step: nat, slot: nat, wi: nat)
    requires p.Valid() && slot < p.Slots()
    ensures var w := Writer(p, slot, wi);
            && w < 64 * p.waves && w / 64 == slot % p.waves
            && DataDest(p, step, slot / p.waves, w / 64) * 4 + w % 64 * 16 == DataRead(p, step, slot, wi) * 4
            && DataSrc(p, wg, step, slot / p.waves, w)
               == Address(p, TileRow(p, wg, slot, wi % 16), TileCol(p, step, slot, wi % 64 / 16))
  {
    var row, group := wi % 16, wi % 64 / 16;
    var col := LogicalCol(row, group);
    XorTwoBits(row / 2 % 4, group);
    XorUndoes(row / 2 % 4, group);
    SlotOwner(p, slot, slot / p.waves, slot % p.waves);
    WorkitemDigits(slot % p.waves, row, col);
    DataSrcIs(p, wg, step, slot / p.waves, Writer(p, slot, wi));
    hide DataSrc, Slot, Panel.StageDwords, TileRow, TileCol, Panel.Valid, Xor;
  }

  /**
   What the swizzle is for: of eight adjacent rows that read one k-group no two read the same 16-byte column of
   the sixteen that repeat through LDS. Without it rows four apart would.
   */
  lemma ReadsSpread(p: Panel, step: nat, slot: nat, wi: nat, wi': nat)
    requires wi % 64 / 16 == wi' % 64 / 16 && wi % 16 / 8 == wi' % 16 / 8 && wi % 16 != wi' % 16
    ensures DataRead(p, step, slot, wi) / 4 % 16 != DataRead(p, step, slot, wi') / 4 % 16
  {
    hide *;
    ReadColumn(p, step, slot, wi);
    ReadColumn(p, step, slot, wi');
    RowsDiffer(wi % 16, wi' % 16, wi % 64 / 16);
    QuadsDiffer(wi % 16 % 4, LogicalCol(wi % 16, wi % 64 / 16), wi' % 16 % 4, LogicalCol(wi' % 16, wi % 64 / 16));
  }

  lemma QuadsDiffer(row: nat, col: nat, row': nat, col': nat)
    requires col < 4 && col' < 4 && (row != row' || col != col')
    ensures row * 4 + col != row' * 4 + col'
  {}

  /** Rows of one octet agree modulo four only when the swizzle tells them apart. */
  lemma RowsDiffer(row: nat, row': nat, group: nat)
    requires row / 8 == row' / 8 && row != row'
    ensures row % 4 != row' % 4 || LogicalCol(row, group) != LogicalCol(row', group)
  {
    hide LogicalCol;
    OctetDigits(row);
    OctetDigits(row');
    if row % 4 == row' % 4 {
      ColumnsDiffer(row, row', group);
    }
  }

  lemma OctetDigits(row: nat)
    ensures row == row / 8 * 8 + row % 8 && row % 4 == row % 8 % 4 && row / 2 % 4 == row % 8 / 2
  {
    var q, a := row / 8, row % 8;
    assert row == q * 8 + a;
    MixedRadix.Split(2 * q + a / 4, a % 4, 4);
    MixedRadix.Split(q, a / 2, 4);
  }

  lemma ColumnsDiffer(row: nat, row': nat, group: nat)
    requires row / 2 % 4 != row' / 2 % 4
    ensures LogicalCol(row, group) != LogicalCol(row', group)
  {
    if Xor(row / 2 % 4, group) == Xor(row' / 2 % 4, group) {
      XorCancels(row / 2 % 4, row' / 2 % 4, group);
    }
  }

  /** The 16-byte column of a read: four per row, the row's swizzled group among them. */
  lemma ReadColumn(p: Panel, step: nat, slot: nat, wi: nat)
    ensures LogicalCol(wi % 16, wi % 64 / 16) < 4
    ensures DataRead(p, step, slot, wi) / 4 % 16 == wi % 16 % 4 * 4 + LogicalCol(wi % 16, wi % 64 / 16)
  {
    var row, col := wi % 16, LogicalCol(wi % 16, wi % 64 / 16);
    XorTwoBits(row / 2 % 4, wi % 64 / 16);
    var whole: nat := step % 2 * p.Slots() + slot;
    ReadWhole(step % 2, p.Slots(), slot, row, col);
    hide LogicalCol;
    assert DataRead(p, step, slot, wi) == (whole * 64 + row * 4 + col) * 4;
    assert row == row / 4 * 4 + row % 4;
    MixedRadix.Split(whole * 4 + row / 4, row % 4 * 4 + col, 16);
  }

  lemma ReadWhole(stage: nat, slots: nat, slot: nat, row: nat, col: nat)
    ensures stage * (slots * 256) + slot * 256 + row * 16 + col * 4 == ((stage * slots + slot) * 64 + row * 4 + col) * 4
  {
    MixedRadix.Associates(stage, slots, 256);
  }

  /** Offset in the packed matrix of the sixteen bytes that `wi` reads from `slot`. */
  function Fetched(p: Panel, wg: nat, step: nat, slot: nat, wi: nat): int
    requires p.waves > 0 && p.tiles > 0
  {
    DataSrc(p, wg, step, slot / p.waves, Writer(p, slot, wi))
  }

  lemma WorkitemDigits(wave: nat, row: nat, col: nat)
    requires row < 16 && col < 4
    ensures var w := wave * 64 + row * 4 + col;
            w / 64 == wave && w % 64 == row * 4 + col && w % 64 / 4 == row && w % 4 == col
  {
    MixedRadix.Split(wave, row * 4 + col, 64);
    MixedRadix.Split(row, col, 4);
    MixedRadix.Split(wave * 16 + row, col, 4);
  }

  /** No other lane of any DMA of the stage writes those bytes. */
  lemma WriterIsUnique(p: Panel, step: nat, slot: nat, wi: nat, slotPerWave: nat, w: nat, byte: nat, byte': nat)
    requires p.Valid() && slot < p.Slots() && w < 64 * p.waves && byte < 16 && byte' < 16
    requires DataDest(p, step, slotPerWave, w / 64) * 4 + w % 64 * 16 + byte == DataRead(p, step, slot, wi) * 4 + byte'
    ensures slotPerWave == slot / p.waves && w == Writer(p, slot, wi) && byte == byte'
  {
    var row, group := wi % 16, wi % 64 / 16;
    var col := LogicalCol(row, group);
    XorTwoBits(row / 2 % 4, group);
    var s := Slot(p, slotPerWave, w / 64);
    MixedRadix.Unique(s, w % 64 * 16 + byte, slot, row * 64 + col * 16 + byte', 1024);
    SlotOwner(p, slot, slotPerWave, w / 64);
    assert w % 64 == row * 4 + col && byte == byte';
  }

  /**
   Fragment (i, k) of a wave holds, in lane (row, k-group), sixteen bytes of row-tile `first + i`
   of its workgroup block and of raw K tile step * waveK + k.
   */
  lemma FragmentTile(p: Panel, wg: nat, step: nat, k: nat, tile: nat, wi: nat)
    requires p.Valid() && k < p.waveK && tile < p.tiles
    ensures var slot := k * p.tiles + tile;
            && slot < p.Slots()
            && TileRow(p, wg, slot, wi % 16) == (wg * p.tiles + tile) * 16 + wi % 16
            && TileCol(p, step, slot, wi % 64 / 16) == (step * p.waveK + k) * 64 + wi % 64 / 16 * 16
  {
    MixedRadix.Below(k, p.waveK, tile, p.tiles);
    MixedRadix.Split(k, tile, p.tiles);
  }

  lemma FragmentFetched(p: Panel, wg: nat, step: nat, k: nat, tile: nat, wi: nat)
    requires p.Valid() && k < p.waveK && tile < p.tiles
    ensures Fetched(p, wg, step, k * p.tiles + tile, wi)
            == Address(p, (wg * p.tiles + tile) * 16 + wi % 16, (step * p.waveK + k) * 64 + wi % 64 / 16 * 16)
  {
    hide Panel.Valid, DataSrc, DataDest, DataRead, Writer, TileRow, TileCol, Panel.Slots, Address;
    FragmentTile(p, wg, step, k, tile, wi);
    FragmentBytes(p, wg, step, k * p.tiles + tile, wi);
  }
}
