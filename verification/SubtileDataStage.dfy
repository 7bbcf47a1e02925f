/**
 The data DMA of a stage carried out on the bytes of LDS: what a fragment read finds there is what
 the packed matrix holds at its own row and K tile.
 */
module SubtileDataStage {
  import MixedRadix
  import opened Prelude
  import opened SubtileLayout
  import opened SubtileScales

  /** Byte at which a slot of the stage of `step` begins. */
  function SlotBase(p: Panel, step: nat, slot: nat): nat { (step % 2 * p.StageDwords() + slot * 256) * 4 }

  /** Where the lanes of a wave read from in one request. */
  function Sources(p: Panel, wg: nat, step: nat, slotPerWave: nat, wave: nat): (r: seq<int>)
    requires p.tiles > 0
    ensures |r| == 64
  {
    seq(64, lane requires lane >= 0 => DataSrc(p, wg, step, slotPerWave, wave * 64 + lane))
  }

  /** Where the lanes of the wave that owns a slot read from. */
  function SlotSources(p: Panel, wg: nat, step: nat, slot: nat): (r: seq<int>)
    requires p.tiles > 0 && p.waves > 0
    ensures |r| == 64
  {
    Sources(p, wg, step, slot / p.waves, slot % p.waves)
  }

  /** Byte `x` of a slot at `base` is byte x mod 16 of the sixteen that lane x / 16 fetched. */
  predicate LaneByte(lds: seq<Byte>, base: nat, packed: seq<Byte>, sources: seq<int>, x: nat)
    requires |sources| == 64 && x < 1024
  {
    var from := sources[x / 16] + x % 16;
    base + x < |lds| && 0 <= from < |packed| && lds[base + x] == packed[from]
  }

  ghost predicate LanesCopied(lds: seq<Byte>, base: nat, packed: seq<Byte>, sources: seq<int>, n: nat)
    requires |sources| == 64 && n <= 1024
  {
    forall x | 0 <= x < n :: LaneByte(lds, base, packed, sources, x)
  }

  /** The slot holds what its own request fetched for its own wave. */
  ghost predicate SlotStaged(p: Panel, lds: seq<Byte>, packed: seq<Byte>, wg: nat, step: nat, slot: nat)
    requires p.tiles > 0 && p.waves > 0
  {
    LanesCopied(lds, SlotBase(p, step, slot), packed, SlotSources(p, wg, step, slot), 1024)
  }

  ghost predicate DataStaged(p: Panel, lds: seq<Byte>, packed: seq<Byte>, wg: nat, step: nat, slots: nat)
    requires p.tiles > 0 && p.waves > 0
  {
    forall slot | 0 <= slot < slots :: SlotStaged(p, lds, packed, wg, step, slot)
  }

  /** One request of one wave: lane x writes sixteen bytes at the destination plus 16 * x. */
  method DmaLanes(lds: array<Byte>, dest: nat, packed: seq<Byte>, sources: seq<int>)
    requires |sources| == 64 && dest + 1024 <= lds.Length
    requires forall lane | 0 <= lane < 64 :: 0 <= sources[lane] <= |packed| - 16
    modifies lds
    ensures LanesCopied(lds[..], dest, packed, sources, 1024)
    ensures Unchanged(old(lds[..]), lds[..], dest, dest + 1024)
  {
    for lane := 0 to 64
      invariant LanesCopied(lds[..], dest, packed, sources, lane * 16)
      invariant Unchanged(old(lds[..]), lds[..], dest, dest + lane * 16)
    {
      for j := 0 to 16
        invariant LanesCopied(lds[..], dest, packed, sources, lane * 16 + j)
        invariant Unchanged(old(lds[..]), lds[..], dest, dest + lane * 16 + j)
      {
        ghost var before := lds[..];
        lds[dest + lane * 16 + j] := packed[sources[lane] + j];
        OneMoreByte(before, lds[..], dest, packed, sources, lane, j);
      }
    }
  }

  lemma OneMoreByte(before: seq<Byte>, after: seq<Byte>, base: nat, packed: seq<Byte>, sources: seq<int>, lane: nat,
                    j: nat)
    requires |sources| == 64 && lane < 64 && j < 16
    requires base + lane * 16 + j < |before| && 0 <= sources[lane] + j < |packed|
    requires LanesCopied(before, base, packed, sources, lane * 16 + j)
    requires after == before[base + lane * 16 + j := packed[sources[lane] + j]]
    ensures LanesCopied(after, base, packed, sources, lane * 16 + j + 1)
  {
    MixedRadix.Split(lane, j, 16);
    forall x | 0 <= x < lane * 16 + j + 1 ensures LaneByte(after, base, packed, sources, x) {
      assert x < lane * 16 + j ==> LaneByte(before, base, packed, sources, x);
    }
  }

  /** Every source of a request lies in the packed matrix with its sixteen bytes. */
  lemma SourcesInBuffer(p: Panel, wg: nat, step: nat, slotPerWave: nat, wave: nat)
    requires p.Valid() && wg < p.blocks && step < p.steps && slotPerWave < p.Slots() / p.waves && wave < p.waves
    ensures forall lane | 0 <= lane < 64 :: 0 <= Sources(p, wg, step, slotPerWave, wave)[lane] <= p.Bytes() - 16
  {
    hide Panel.Valid, DataSrc;
    forall lane | 0 <= lane < 64
      ensures 0 <= Sources(p, wg, step, slotPerWave, wave)[lane] <= p.Bytes() - 16
    {
      DataSrcInBuffer(p, wg, step, slotPerWave, wave * 64 + lane);
    }
  }

  lemma SlotFits(p: Panel, step: nat, slot: nat)
    requires p.Valid() && slot < p.Slots()
    ensures SlotBase(p, step, slot) + 1024 <= 2 * p.StageDwords() * 4
  {
    SlotInStage(p, step, slot, 1023);
  }

  /** A later slot does not disturb the earlier ones. */
  lemma NextSlot(p: Panel, before: seq<Byte>, after: seq<Byte>, packed: seq<Byte>, wg: nat, step: nat, slot: nat)
    requires p.tiles > 0 && p.waves > 0 && DataStaged(p, before, packed, wg, step, slot)
    requires Unchanged(before, after, SlotBase(p, step, slot), SlotBase(p, step, slot) + 1024)
    requires SlotStaged(p, after, packed, wg, step, slot)
    ensures DataStaged(p, after, packed, wg, step, slot + 1)
  {
    hide SlotSources;
    forall s | 0 <= s < slot + 1 ensures SlotStaged(p, after, packed, wg, step, s) {
      if s < slot {
        assert SlotStaged(p, before, packed, wg, step, s);
        var sources := SlotSources(p, wg, step, s);
        forall x | 0 <= x < 1024 ensures LaneByte(after, SlotBase(p, step, s), packed, sources, x) {
          assert LaneByte(before, SlotBase(p, step, s), packed, sources, x);
        }
      }
    }
  }

  /** Request `slotPerWave` of one wave, carried out. */
  method StageSlot(p: Panel, lds: array<Byte>, packed: seq<Byte>, wg: nat, step: nat, slotPerWave: nat, wave: nat,
                   ghost slot: nat)
    requires p.Valid() && wg < p.blocks && step < p.steps && slotPerWave < p.Slots() / p.waves && wave < p.waves
    requires lds.Length == 2 * p.StageDwords() * 4 && |packed| == p.Bytes() && slot == Slot(p, slotPerWave, wave)
    requires DataStaged(p, lds[..], packed, wg, step, slot)
    modifies lds
    ensures DataStaged(p, lds[..], packed, wg, step, slot + 1)
    ensures Unchanged(old(lds[..]), lds[..], SlotBase(p, step, slot), SlotBase(p, step, slot) + 1024)
  {
    SlotOwner(p, slot, slotPerWave, wave);
    SourcesInBuffer(p, wg, step, slotPerWave, wave);
    SlotFits(p, step, slot);
    DestIsBase(p, step, slot, slotPerWave, wave);
    hide Panel.Valid, DataStaged, SlotStaged, DataSrc, DataDest, SlotBase, Slot, Panel.Slots, Panel.StageDwords,
         Sources, LanesCopied, Unchanged;
    DmaLanes(lds, DataDest(p, step, slotPerWave, wave) * 4, packed, Sources(p, wg, step, slotPerWave, wave));
    StagedAt(p, lds[..], packed, wg, step, slotPerWave, wave, slot);
    NextSlot(p, old(lds[..]), lds[..], packed, wg, step, slot);
  }

  lemma NoSlots(p: Panel, lds: seq<Byte>, packed: seq<Byte>, wg: nat, step: nat)
    requires p.tiles > 0 && p.waves > 0
    ensures DataStaged(p, lds, packed, wg, step, 0)
    ensures Unchanged(lds, lds, SlotBase(p, step, 0), SlotBase(p, step, 0))
  {}

  lemma Widened(p: Panel, start: seq<Byte>, before: seq<Byte>, after: seq<Byte>, step: nat, slot: nat)
    requires Unchanged(start, before, SlotBase(p, step, 0), SlotBase(p, step, slot))
    requires Unchanged(before, after, SlotBase(p, step, slot), SlotBase(p, step, slot) + 1024)
    ensures Unchanged(start, after, SlotBase(p, step, 0), SlotBase(p, step, slot + 1))
  {}

  /**
   `_data_dma_requests` for one operand, with the DMAs of all waves carried out: the stage of `step` is filled
   slot by slot, and no byte outside it is touched.
   */
  method StageData(p: Panel, lds: array<Byte>, packed: seq<Byte>, wg: nat, step: nat)
    requires p.Valid() && wg < p.blocks && step < p.steps
    requires lds.Length == 2 * p.StageDwords() * 4 && |packed| == p.Bytes()
    modifies lds
    ensures DataStaged(p, lds[..], packed, wg, step, p.Slots())
    ensures Unchanged(old(lds[..]), lds[..], SlotBase(p, step, 0), SlotBase(p, step, p.Slots()))
  {
    ghost var slot := 0;
    MixedRadix.ExactQuotient(p.Slots(), p.waves);
    NoSlots(p, lds[..], packed, wg, step);
    hide Panel.Valid, DataStaged, SlotBase, Panel.Slots, Panel.StageDwords, Unchanged;
    for slotPerWave := 0 to p.Slots() / p.waves
      invariant slot == slotPerWave * p.waves
      invariant DataStaged(p, lds[..], packed, wg, step, slot)
      invariant Unchanged(old(lds[..]), lds[..], SlotBase(p, step, 0), SlotBase(p, step, slot))
    {
      for wave := 0 to p.waves
        invariant slot == slotPerWave * p.waves + wave
        invariant DataStaged(p, lds[..], packed, wg, step, slot)
        invariant Unchanged(old(lds[..]), lds[..], SlotBase(p, step, 0), SlotBase(p, step, slot))
      {
        ghost var before := lds[..];
        StageSlot(p, lds, packed, wg, step, slotPerWave, wave, slot);
        Widened(p, old(lds[..]), before, lds[..], step, slot);
        slot := slot + 1;
      }
      MixedRadix.Distributes(slotPerWave, 1, p.waves);
    }
  }

  lemma StagedAt(p: Panel, lds: seq<Byte>, packed: seq<Byte>, wg: nat, step: nat, slotPerWave: nat, wave: nat,
                 slot: nat)
    requires p.tiles > 0 && p.waves > 0 && slotPerWave == slot / p.waves && wave == slot % p.waves
    requires Slot(p, slotPerWave, wave) == slot
    requires LanesCopied(lds, DataDest(p, step, slotPerWave, wave) * 4, packed,
                         Sources(p, wg, step, slotPerWave, wave), 1024)
    ensures SlotStaged(p, lds, packed, wg, step, slot)
  {}

  /** The sixteen bytes of LDS at `at` are those of the packed matrix at `from`. */
  predicate Sixteen(lds: seq<Byte>, at: nat, packed: seq<Byte>, from: int) {
    0 <= from && at + 16 <= |lds| && from + 16 <= |packed| && lds[at..at + 16] == packed[from..from + 16]
  }

  lemma ByteOfLane(lds: seq<Byte>, base: nat, packed: seq<Byte>, sources: seq<int>, lane: nat, j: nat)
    requires |sources| == 64 && lane < 64 && j < 16 && LanesCopied(lds, base, packed, sources, 1024)
    ensures 0 <= sources[lane] + j < |packed| && base + lane * 16 + j < |lds|
    ensures lds[base + lane * 16 + j] == packed[sources[lane] + j]
  {
    MixedRadix.Split(lane, j, 16);
    assert LaneByte(lds, base, packed, sources, lane * 16 + j);
  }

  lemma LaneSixteen(lds: seq<Byte>, base: nat, packed: seq<Byte>, sources: seq<int>, lane: nat)
    requires |sources| == 64 && lane < 64 && LanesCopied(lds, base, packed, sources, 1024)
    ensures Sixteen(lds, base + lane * 16, packed, sources[lane])
  {
    ByteOfLane(lds, base, packed, sources, lane, 0);
    ByteOfLane(lds, base, packed, sources, lane, 15);
    var at, from := base + lane * 16, sources[lane];
    var left, right := lds[at..at + 16], packed[from..from + 16];
    forall j | 0 <= j < 16 ensures left[j] == right[j] {
      ByteOfLane(lds, base, packed, sources, lane, j);
    }
  }

  lemma WriterDigits(p: Panel, slot: nat, wi: nat) returns (lane: nat)
    requires p.waves > 0
    ensures lane < 64 && Writer(p, slot, wi) == slot % p.waves * 64 + lane
    ensures Writer(p, slot, wi) / 64 == slot % p.waves && Writer(p, slot, wi) % 64 == lane
  {
    var row, group := wi % 16, wi % 64 / 16;
    XorTwoBits(row / 2 % 4, group);
    WorkitemDigits(slot % p.waves, row, LogicalCol(row, group));
    lane := row * 4 + LogicalCol(row, group);
  }

  /** Where the lane that fetched a fragment's bytes read from, and where it wrote. */
  lemma WriterLane(p: Panel, wg: nat, step: nat, slot: nat, wi: nat) returns (lane: nat)
    requires p.Valid() && slot < p.Slots()
    ensures lane < 64 && SlotBase(p, step, slot) + lane * 16 == DataRead(p, step, slot, wi) * 4
    ensures SlotSources(p, wg, step, slot)[lane]
            == Address(p, TileRow(p, wg, slot, wi % 16), TileCol(p, step, slot, wi % 64 / 16))
  {
    assert p.tiles > 0 && p.waves > 0;
    hide *;
    FragmentBytes(p, wg, step, slot, wi);
    lane := WriterDigits(p, slot, wi);
    OwnDest(p, step, slot);
    SourceOfLane(p, wg, step, slot, lane);
  }

  lemma OwnDest(p: Panel, step: nat, slot: nat)
    requires p.Valid() && slot < p.Slots()
    ensures p.waves > 0 && DataDest(p, step, slot / p.waves, slot % p.waves) * 4 == SlotBase(p, step, slot)
  {
    SlotOwner(p, slot, slot / p.waves, slot % p.waves);
    hide Panel.Valid, Panel.StageDwords;
    DestIsBase(p, step, slot, slot / p.waves, slot % p.waves);
    hide *;
  }

  lemma DestIsBase(p: Panel, step: nat, slot: nat, slotPerWave: nat, wave: nat)
    requires Slot(p, slotPerWave, wave) == slot
    ensures DataDest(p, step, slotPerWave, wave) * 4 == SlotBase(p, step, slot)
  {}

  lemma SourceOfLane(p: Panel, wg: nat, step: nat, slot: nat, lane: nat)
    requires p.tiles > 0 && p.waves > 0 && lane < 64
    ensures SlotSources(p, wg, step, slot)[lane]
            == DataSrc(p, wg, step, slot / p.waves, slot % p.waves * 64 + lane)
  {
    hide DataSrc;
  }

  lemma SlotIsStaged(p: Panel, lds: seq<Byte>, packed: seq<Byte>, wg: nat, step: nat, slot: nat)
    requires p.Valid() && slot < p.Slots() && DataStaged(p, lds, packed, wg, step, p.Slots())
    ensures p.tiles > 0 && p.waves > 0
    ensures LanesCopied(lds, SlotBase(p, step, slot), packed, SlotSources(p, wg, step, slot), 1024)
  {
    assert SlotStaged(p, lds, packed, wg, step, slot);
    hide SlotSources, LanesCopied;
  }

  lemma ReadInSlot(p: Panel, step: nat, slot: nat, lane: nat)
    requires slot < p.Slots() && lane < 64
    ensures SlotBase(p, step, 0) <= SlotBase(p, step, slot) + lane * 16
    ensures SlotBase(p, step, slot) + lane * 16 + 16 <= SlotBase(p, step, p.Slots())
  {}

  /**
   Of a staged operand, the sixteen bytes that a lane reads from a slot are those of its own row and k-group of
   the slot's source tile, and lie in the step's own stage.
   */
  lemma FragmentStaged(p: Panel, lds: seq<Byte>, packed: seq<Byte>, wg: nat, step: nat, slot: nat, wi: nat)
    requires p.Valid() && slot < p.Slots() && DataStaged(p, lds, packed, wg, step, p.Slots())
    ensures Sixteen(lds, DataRead(p, step, slot, wi) * 4, packed,
                    Address(p, TileRow(p, wg, slot, wi % 16), TileCol(p, step, slot, wi % 64 / 16)))
    ensures SlotBase(p, step, 0) <= DataRead(p, step, slot, wi) * 4
    ensures DataRead(p, step, slot, wi) * 4 + 16 <= SlotBase(p, step, p.Slots())
  {
    SlotIsStaged(p, lds, packed, wg, step, slot);
    hide *;
    var lane := WriterLane(p, wg, step, slot, wi);
    ReadInSlot(p, step, slot, lane);
    LaneSixteen(lds, SlotBase(p, step, slot), packed, SlotSources(p, wg, step, slot), lane);
  }
}
