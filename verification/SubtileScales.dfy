/**
 Block scales of one operand, along both paths into LDS. The canonical array is K-major: byte
 g * rows + r scales the g-th 32-element block of row r. One path stages it byte by byte; the
 other has the host pre-swizzle it and copies whole runs of 256-byte groups by DMA.
 */
module SubtileScales {
  import MixedRadix
  import opened Prelude

  datatype Layout = Layout(rows: nat, mBlocks: nat, nBlocks: nat, blockWaves: nat, waveTiles: nat, waveK: nat,
                           steps: nat, isA: bool)
  {
    predicate Valid() {
      && blockWaves > 0 && steps > 0
      && waveTiles >= 2 && waveTiles % 2 == 0 && waveK >= 2 && waveK % 2 == 0
      && Blocks() * BlockTiles() * 16 <= rows
    }

    function Blocks(): nat { if isA then mBlocks else nBlocks }
    function BlockTiles(): nat { blockWaves * waveTiles }
    function KGroups(): nat { waveK / 2 }
    function Groups(): nat { waveTiles / 2 * KGroups() }
    function PartitionBytes(): nat { Groups() * 256 }
    function StepBytes(): nat { blockWaves * PartitionBytes() }
    function CtaBytes(): nat { StepBytes() * steps }
    function Ctas(): nat { mBlocks * nBlocks }

    /** Size of the canonical array: rows times K / 32. */
    function Elements(): nat { steps * waveK * 4 * rows }
  }

  /** Position of one scale byte: workgroup block, step, wave partition, group, lane, selector. */
  datatype Digits = Digits(block: nat, step: nat, part: nat, group: nat, lane: nat, sel: nat) {
    predicate In(l: Layout) {
      && block < l.Blocks() && step < l.steps && part < l.blockWaves
      && group < l.Groups() && lane < 64 && sel < 4
    }
  }

  function AxisTile(l: Layout, d: Digits): nat
    requires l.KGroups() > 0
  {
    d.block * l.BlockTiles() + d.part * l.waveTiles + d.group / l.KGroups() * 2 + d.sel % 2
  }

  function ScaleK(l: Layout, d: Digits): nat
    requires l.KGroups() > 0
  {
    (d.step * l.waveK + d.group % l.KGroups() * 2 + d.sel / 2) * 4 + d.lane / 16
  }

  /** Canonical index of the byte that belongs at `d`, as both staging and the host builder compute it. */
  function CanonicalIndex(l: Layout, d: Digits): nat
    requires l.KGroups() > 0
  {
    ScaleK(l, d) * l.rows + AxisTile(l, d) * 16 + d.lane % 16
  }

  lemma AxisTileBound(l: Layout, d: Digits)
    requires l.Valid() && d.In(l)
    ensures AxisTile(l, d) * 16 + 16 <= l.rows
  {
    var axisGroup := d.group / l.KGroups();
    MixedRadix.Compose(d.group, l.waveTiles / 2, l.KGroups());
    MixedRadix.Below(d.part, l.blockWaves, axisGroup * 2 + d.sel % 2, l.waveTiles);
    MixedRadix.Below(d.block, l.Blocks(), d.part * l.waveTiles + axisGroup * 2 + d.sel % 2, l.BlockTiles());
    hide Layout.BlockTiles, Layout.Groups, Layout.KGroups;
  }

  lemma ScaleKBound(l: Layout, d: Digits)
    requires l.Valid() && d.In(l)
    ensures ScaleK(l, d) < l.steps * l.waveK * 4
  {
    MixedRadix.Below(d.step, l.steps, d.group % l.KGroups() * 2 + d.sel / 2, l.waveK);
    hide Layout.Valid, Layout.Groups, Layout.KGroups;
  }

  /** The declared range of a canonical scale load is true. */
  lemma CanonicalInRange(l: Layout, d: Digits)
    requires l.Valid() && d.In(l)
    ensures CanonicalIndex(l, d) < l.Elements()
  {
    hide Layout.Valid, AxisTile, ScaleK;
    AxisTileBound(l, d);
    ScaleKBound(l, d);
    MixedRadix.Below(ScaleK(l, d), l.steps * l.waveK * 4, AxisTile(l, d) * 16 + d.lane % 16, l.rows);
  }

  /**
   What the MMA of tile `i` and k-tile `k` is given by its group and selector: the scale of row
   lane % 16 of that tile for 32-element block lane / 16 of raw K tile step * waveK + k.
   */
  lemma SelectedScale(l: Layout, block: nat, step: nat, part: nat, i: nat, k: nat, lane: nat)
    requires l.Valid() && i < l.waveTiles && k < l.waveK && lane < 64
    ensures var d := Digits(block, step, part, i / 2 * l.KGroups() + k / 2, lane, i % 2 + 2 * (k % 2));
            && d.group < l.Groups() && d.sel < 4
            && CanonicalIndex(l, d) == ((step * l.waveK + k) * 4 + lane / 16) * l.rows
                                       + (block * l.BlockTiles() + part * l.waveTiles + i) * 16 + lane % 16
  {
    MixedRadix.Below(i / 2, l.waveTiles / 2, k / 2, l.KGroups());
    MixedRadix.Split(i / 2, k / 2, l.KGroups());
    assert i / 2 * 2 + i % 2 == i && k / 2 * 2 + k % 2 == k;
    hide Layout.Valid, Layout.BlockTiles, Layout.KGroups, Layout.Groups;
    var d := Digits(block, step, part, i / 2 * l.KGroups() + k / 2, lane, i % 2 + 2 * (k % 2));
    assert AxisTile(l, d) == block * l.BlockTiles() + part * l.waveTiles + i by { hide ScaleK; }
    assert ScaleK(l, d) == (step * l.waveK + k) * 4 + lane / 16 by { hide AxisTile; }
    hide AxisTile, ScaleK;
  }

  /** The 32-element block of that scale is the one the fragment's sixteen packed bytes come from. */
  lemma ScaleCoversFragment(waveK: nat, step: nat, k: nat, lane: nat, byte: nat)
    requires lane < 64 && byte < 16
    ensures ((step * waveK + k) * 64 + lane / 16 * 16 + byte) * 2 / 32 == (step * waveK + k) * 4 + lane / 16
    ensures (((step * waveK + k) * 64 + lane / 16 * 16 + byte) * 2 + 1) / 32 == (step * waveK + k) * 4 + lane / 16
  {}

  // ------------------------------------------------------------ canonical staging

  /** Offset of a partition inside the double-buffered LDS allocation. */
  function PartitionBase(l: Layout, step: nat, part: nat): nat {
    step % 2 * l.StepBytes() + part * l.PartitionBytes()
  }

  /** A partition holds the canonical bytes of its block, step and wave, in every group, lane and selector. */
  ghost predicate Staged(l: Layout, lds: seq<Byte>, canonical: seq<Byte>, block: nat, step: nat, part: nat, groups: nat)
    requires l.Valid() && groups <= l.Groups()
  {
    && |lds| == 2 * l.StepBytes() && |canonical| == l.Elements()
    && block < l.Blocks() && step < l.steps && part < l.blockWaves
    && forall group, lane, sel | 0 <= group < groups && 0 <= lane < 64 && 0 <= sel < 4 ::
         ByteStaged(l, lds, canonical, Digits(block, step, part, group, lane, sel))
  }

  /** LDS offset of a scale byte. */
  function ByteAt(l: Layout, d: Digits): nat {
    PartitionBase(l, d.step, d.part) + d.group * 256 + d.lane * 4 + d.sel
  }

  predicate ByteStaged(l: Layout, lds: seq<Byte>, canonical: seq<Byte>, d: Digits)
    requires l.KGroups() > 0
  {
    && ByteAt(l, d) < |lds| && CanonicalIndex(l, d) < |canonical|
    && lds[ByteAt(l, d)] == canonical[CanonicalIndex(l, d)]
  }

  /** Every LDS scale offset stays inside its own stage. */
  lemma PartitionBound(l: Layout, step: nat, part: nat)
    requires part < l.blockWaves
    ensures step % 2 * l.StepBytes() <= PartitionBase(l, step, part)
    ensures PartitionBase(l, step, part) + l.PartitionBytes() <= (step % 2 + 1) * l.StepBytes() <= 2 * l.StepBytes()
  {
    MixedRadix.Monotone(part + 1, l.blockWaves, l.PartitionBytes());
    assert (part + 1) * l.PartitionBytes() == part * l.PartitionBytes() + l.PartitionBytes();
    assert step % 2 == 0 || step % 2 == 1;
  }

  /** Dword offset at which a lane reads the scales of a group (`_read_scale_groups`). */
  function ScaleRead(l: Layout, step: nat, part: nat, group: nat, lane: nat): nat {
    step % 2 * (l.blockWaves * (l.PartitionBytes() / 4)) + part * (l.PartitionBytes() / 4) + group * 64 + lane
  }

  lemma DwordSizes(l: Layout)
    ensures l.PartitionBytes() == 4 * (l.PartitionBytes() / 4) && l.PartitionBytes() / 4 == l.Groups() * 64
    ensures l.StepBytes() == 4 * (l.blockWaves * (l.PartitionBytes() / 4))
  {
    hide Layout.Groups;
    var dwords := l.Groups() * 64;
    assert l.PartitionBytes() == 4 * dwords;
    Quadrupled(l.blockWaves, dwords);
  }

  /** The four bytes of the dword a lane reads are those of its selectors, inside the step's own stage. */
  lemma ScaleReadIs(l: Layout, d: Digits)
    requires d.part < l.blockWaves && d.group < l.Groups() && d.lane < 64 && d.sel < 4
    ensures 4 * ScaleRead(l, d.step, d.part, d.group, d.lane) + d.sel == ByteAt(l, d)
    ensures d.step % 2 * l.StepBytes() <= ByteAt(l, d) < (d.step % 2 + 1) * l.StepBytes() <= 2 * l.StepBytes()
  {
    hide Layout.Groups, Layout.StepBytes, Layout.PartitionBytes;
    PartitionBound(l, d.step, d.part);
    GroupInPartition(l, d.group);
    DwordSizes(l);
    var dwords := l.PartitionBytes() / 4;
    Quadrupled(d.step % 2, l.blockWaves * dwords);
    Quadrupled(d.part, dwords);
  }

  lemma Quadrupled(a: nat, b: nat)
    ensures 4 * (a * b) == a * (4 * b)
  {}

  /** `lds` holds at `at` the canonical scale `index`. */
  predicate Delivers(lds: seq<Byte>, at: nat, canonical: seq<Byte>, index: nat) {
    at < |lds| && index < |canonical| && lds[at] == canonical[index]
  }

  /** In a staged partition each byte of the dword a lane reads is the canonical one of its digits. */
  lemma StagedDword(l: Layout, lds: seq<Byte>, canonical: seq<Byte>, d: Digits)
    requires l.Valid() && Staged(l, lds, canonical, d.block, d.step, d.part, l.Groups())
    requires d.group < l.Groups() && d.lane < 64 && d.sel < 4
    ensures Delivers(lds, 4 * ScaleRead(l, d.step, d.part, d.group, d.lane) + d.sel, canonical, CanonicalIndex(l, d))
  {
    ScaleReadIs(l, d);
    hide Layout.Valid, Layout.Groups, CanonicalIndex, ScaleRead, ByteAt, Layout.StepBytes, Layout.Elements;
    assert ByteStaged(l, lds, canonical, d);
  }

  predicate Unchanged(a: seq<Byte>, b: seq<Byte>, lo: int, hi: int) {
    |a| == |b| && forall i | 0 <= i < |a| && (i < lo || hi <= i) :: a[i] == b[i]
  }

  /** One (axis_group, k_group) of canonical staging: four wave-wide byte stores. */
  method StageGroup(l: Layout, lds: array<Byte>, canonical: seq<Byte>, block: nat, step: nat, part: nat,
                    axisGroup: nat, kGroup: nat)
    requires l.Valid() && lds.Length == 2 * l.StepBytes() && |canonical| == l.Elements()
    requires block < l.Blocks() && step < l.steps && part < l.blockWaves
    requires axisGroup < l.waveTiles / 2 && kGroup < l.KGroups()
    modifies lds
    ensures axisGroup * l.KGroups() + kGroup < l.Groups()
    ensures var group := axisGroup * l.KGroups() + kGroup;
            forall lane, sel | 0 <= lane < 64 && 0 <= sel < 4 ::
              ByteStaged(l, lds[..], canonical, Digits(block, step, part, group, lane, sel))
    ensures var at := PartitionBase(l, step, part) + (axisGroup * l.KGroups() + kGroup) * 256;
            Unchanged(old(lds[..]), lds[..], at, at + 256)
  {
    MixedRadix.Below(axisGroup, l.waveTiles / 2, kGroup, l.KGroups());
    MixedRadix.Split(axisGroup, kGroup, l.KGroups());
    var group := axisGroup * l.KGroups() + kGroup;
    PartitionBound(l, step, part);
    var at := PartitionBase(l, step, part) + group * 256;
    hide Layout.Valid, PartitionBase, CanonicalIndex, Layout.Groups;
    var kSel := 0;
    while kSel < 2
      invariant 0 <= kSel <= 2
      invariant forall lane, sel | 0 <= lane < 64 && 0 <= sel < 2 * kSel ::
        ByteStaged(l, lds[..], canonical, Digits(block, step, part, group, lane, sel))
      invariant Unchanged(old(lds[..]), lds[..], at, at + 256)
    {
      var axisSel := 0;
      while axisSel < 2
        invariant 0 <= axisSel <= 2
        invariant forall lane, sel | 0 <= lane < 64 && 0 <= sel < 2 * kSel + axisSel ::
          ByteStaged(l, lds[..], canonical, Digits(block, step, part, group, lane, sel))
        invariant Unchanged(old(lds[..]), lds[..], at, at + 256)
      {
        StoreScale(l, lds, canonical, block, step, part, axisGroup, kGroup, kSel, axisSel);
        axisSel := axisSel + 1;
      }
      kSel := kSel + 1;
    }
  }

  /** One wave-wide byte load and store of `_stage_canonical_scales`. */
  method StoreScale(l: Layout, lds: array<Byte>, canonical: seq<Byte>, block: nat, step: nat, part: nat,
                    axisGroup: nat, kGroup: nat, kSel: nat, axisSel: nat)
    requires l.Valid() && lds.Length == 2 * l.StepBytes() && |canonical| == l.Elements()
    requires block < l.Blocks() && step < l.steps && part < l.blockWaves
    requires axisGroup < l.waveTiles / 2 && kGroup < l.KGroups() && kSel < 2 && axisSel < 2
    requires axisGroup * l.KGroups() + kGroup < l.Groups()
    modifies lds
    ensures var group, stored := axisGroup * l.KGroups() + kGroup, axisSel + 2 * kSel;
            forall lane, sel | 0 <= lane < 64 && 0 <= sel < 4 ::
              var d := Digits(block, step, part, group, lane, sel);
              (sel == stored || ByteStaged(l, old(lds[..]), canonical, d)) ==> ByteStaged(l, lds[..], canonical, d)
    ensures var at := PartitionBase(l, step, part) + (axisGroup * l.KGroups() + kGroup) * 256;
            Unchanged(old(lds[..]), lds[..], at, at + 256)
  {
    hide *;
    var group := axisGroup * l.KGroups() + kGroup;
    GroupFits(l, step, part, group);
    var at := PartitionBase(l, step, part) + group * 256;
    var stored := axisSel + 2 * kSel;
    var loaded := LoadScale(l, canonical, block, step, part, axisGroup, kGroup, kSel, axisSel, group, stored);
    StoreLanes(lds, at, stored, loaded);
    forall lane, sel | 0 <= lane < 64 && 0 <= sel < 4
      ensures var d := Digits(block, step, part, group, lane, sel);
              (sel == stored || ByteStaged(l, old(lds[..]), canonical, d)) ==> ByteStaged(l, lds[..], canonical, d)
    {
      var d := Digits(block, step, part, group, lane, sel);
      assert LaneLoaded(l, canonical, loaded, Digits(block, step, part, group, lane, stored));
      StoredOrKept(l, old(lds[..]), lds[..], canonical, d, at, stored, loaded);
    }
    KeptOutside(old(lds[..]), lds[..], at, stored, loaded);
  }

  predicate LanesStored(before: seq<Byte>, after: seq<Byte>, at: nat, sel: nat, values: seq<Byte>) {
    && |values| == 64 && |before| == |after|
    && forall i | 0 <= i < |after| ::
         after[i] == if at <= i < at + 256 && (i - at) % 4 == sel then values[(i - at) / 4] else before[i]
  }

  /** A lane's loaded byte is the canonical byte of its digits. */
  predicate LaneLoaded(l: Layout, canonical: seq<Byte>, loaded: seq<Byte>, d: Digits)
    requires l.KGroups() > 0
  {
    var index := CanonicalIndex(l, d);
    index < |canonical| && d.lane < |loaded| && loaded[d.lane] == canonical[index]
  }

  /** The wave-wide byte load: lane by lane, from the canonical index of the byte to be stored. */
  method LoadScale(l: Layout, canonical: seq<Byte>, block: nat, step: nat, part: nat,
                   axisGroup: nat, kGroup: nat, kSel: nat, axisSel: nat, ghost group: nat, ghost sel: nat)
    returns (loaded: seq<Byte>)
    requires l.Valid() && |canonical| == l.Elements()
    requires block < l.Blocks() && step < l.steps && part < l.blockWaves
    requires axisGroup < l.waveTiles / 2 && kGroup < l.KGroups() && kSel < 2 && axisSel < 2
    requires group == axisGroup * l.KGroups() + kGroup < l.Groups() && sel == axisSel + 2 * kSel
    ensures |loaded| == 64
    ensures forall lane | 0 <= lane < 64 ::
              LaneLoaded(l, canonical, loaded, Digits(block, step, part, group, lane, sel))
  {
    var tile := block * l.BlockTiles() + part * l.waveTiles + axisGroup * 2 + axisSel;
    var rawK := step * l.waveK + kGroup * 2 + kSel;
    hide Layout.Valid, Layout.Groups, Layout.Elements, Layout.BlockTiles, Layout.KGroups, CanonicalIndex;
    loaded := [];
    for lane := 0 to 64
      invariant |loaded| == lane
      invariant forall x | 0 <= x < lane :: LaneLoaded(l, canonical, loaded, Digits(block, step, part, group, x, sel))
    {
      StoreIndex(l, block, step, part, axisGroup, kGroup, kSel, axisSel, lane);
      loaded := loaded + [canonical[(rawK * 4 + lane / 16) * l.rows + tile * 16 + lane % 16]];
    }
  }

  lemma StoredOrKept(l: Layout, before: seq<Byte>, after: seq<Byte>, canonical: seq<Byte>, d: Digits, at: nat, sel: nat,
                     values: seq<Byte>)
    requires l.KGroups() > 0 && LanesStored(before, after, at, sel, values) && at + 256 <= |before|
    requires at == PartitionBase(l, d.step, d.part) + d.group * 256 && d.lane < 64 && d.sel < 4
    requires d.sel == sel ==> LaneLoaded(l, canonical, values, d)
    ensures d.sel == sel || ByteStaged(l, before, canonical, d) ==> ByteStaged(l, after, canonical, d)
  {
    hide PartitionBase, CanonicalIndex;
    MixedRadix.Split(d.lane, d.sel, 4);
    assert ByteAt(l, d) - at == d.lane * 4 + d.sel;
  }

  lemma KeptOutside(before: seq<Byte>, after: seq<Byte>, at: nat, sel: nat, values: seq<Byte>)
    requires LanesStored(before, after, at, sel, values)
    ensures Unchanged(before, after, at, at + 256)
  {}

  /** The wave-wide byte store: lane x writes byte `sel` of its dword. */
  method StoreLanes(lds: array<Byte>, at: nat, sel: nat, values: seq<Byte>)
    requires |values| == 64 && at + 256 <= lds.Length && sel < 4
    modifies lds
    ensures LanesStored(old(lds[..]), lds[..], at, sel, values)
  {
    for lane := 0 to 64
      invariant forall i | 0 <= i < lds.Length ::
        lds[i] == if at <= i < at + lane * 4 && (i - at) % 4 == sel then values[(i - at) / 4] else old(lds[i])
    {
      lds[at + lane * 4 + sel] := values[lane];
    }
  }

  /** A group of a partition lies in the LDS allocation. */
  lemma GroupFits(l: Layout, step: nat, part: nat, group: nat)
    requires l.Valid() && part < l.blockWaves && group < l.Groups()
    ensures PartitionBase(l, step, part) + group * 256 + 256 <= 2 * l.StepBytes() && l.KGroups() > 0
  {
    PartitionBound(l, step, part);
    GroupInPartition(l, group);
  }

  lemma GroupInPartition(l: Layout, group: nat)
    requires group < l.Groups()
    ensures group * 256 + 256 <= l.PartitionBytes()
  {}

  /** Tile and K coordinates of the digits that a store's loop variables make. */
  lemma StoreDigits(l: Layout, d: Digits, axisGroup: nat, kGroup: nat, kSel: nat, axisSel: nat)
    requires kGroup < l.KGroups() && d.group == axisGroup * l.KGroups() + kGroup
    requires kSel < 2 && axisSel < 2 && d.sel == axisSel + 2 * kSel
    ensures AxisTile(l, d) == d.block * l.BlockTiles() + d.part * l.waveTiles + axisGroup * 2 + axisSel
    ensures ScaleK(l, d) == (d.step * l.waveK + kGroup * 2 + kSel) * 4 + d.lane / 16
  {
    hide Layout.BlockTiles, Layout.KGroups;
    MixedRadix.Split(axisGroup, kGroup, l.KGroups());
    assert d.sel % 2 == axisSel && d.sel / 2 == kSel;
  }

  /** The load offset of a store is the canonical index of the digits it stores to. */
  lemma StoreIndex(l: Layout, block: nat, step: nat, part: nat, axisGroup: nat, kGroup: nat, kSel: nat, axisSel: nat,
                   lane: nat)
    requires l.Valid() && block < l.Blocks() && step < l.steps && part < l.blockWaves
    requires axisGroup < l.waveTiles / 2 && kGroup < l.KGroups() && kSel < 2 && axisSel < 2 && lane < 64
    requires axisGroup * l.KGroups() + kGroup < l.Groups()
    ensures var tile := block * l.BlockTiles() + part * l.waveTiles + axisGroup * 2 + axisSel;
            var rawK := step * l.waveK + kGroup * 2 + kSel;
            var d := Digits(block, step, part, axisGroup * l.KGroups() + kGroup, lane, axisSel + 2 * kSel);
            && (rawK * 4 + lane / 16) * l.rows + tile * 16 + lane % 16 == CanonicalIndex(l, d)
            && CanonicalIndex(l, d) < l.Elements()
  {
    hide Layout.Valid, Layout.KGroups, Layout.BlockTiles, Layout.Elements, Layout.Groups, AxisTile, ScaleK;
    var d := Digits(block, step, part, axisGroup * l.KGroups() + kGroup, lane, axisSel + 2 * kSel);
    StoreDigits(l, d, axisGroup, kGroup, kSel, axisSel);
    CanonicalInRange(l, d);
  }

  /** A byte of another group is not touched by staging one. */
  lemma GroupKept(l: Layout, before: seq<Byte>, after: seq<Byte>, canonical: seq<Byte>, d: Digits, group: nat)
    requires l.KGroups() > 0 && d.lane < 64 && d.sel < 4 && d.group != group
    requires ByteStaged(l, before, canonical, d)
    requires var at := PartitionBase(l, d.step, d.part) + group * 256; Unchanged(before, after, at, at + 256)
    ensures ByteStaged(l, after, canonical, d)
  {
    hide PartitionBase, CanonicalIndex;
  }

  /** `_stage_canonical_scales` for one operand of one wave. */
  method StageCanonical(l: Layout, lds: array<Byte>, canonical: seq<Byte>, block: nat, step: nat, part: nat)
    requires l.Valid() && lds.Length == 2 * l.StepBytes() && |canonical| == l.Elements()
    requires block < l.Blocks() && step < l.steps && part < l.blockWaves
    modifies lds
    ensures Staged(l, lds[..], canonical, block, step, part, l.Groups())
    ensures Unchanged(old(lds[..]), lds[..], PartitionBase(l, step, part),
                      PartitionBase(l, step, part) + l.PartitionBytes())
  {
    for axisGroup := 0 to l.waveTiles / 2
      invariant axisGroup * l.KGroups() <= l.Groups()
      invariant Staged(l, lds[..], canonical, block, step, part, axisGroup * l.KGroups())
      invariant Unchanged(old(lds[..]), lds[..], PartitionBase(l, step, part),
                          PartitionBase(l, step, part) + l.PartitionBytes())
    {
      AxisGroupFits(l, axisGroup);
      for kGroup := 0 to l.KGroups()
        invariant Staged(l, lds[..], canonical, block, step, part, axisGroup * l.KGroups() + kGroup)
        invariant Unchanged(old(lds[..]), lds[..], PartitionBase(l, step, part),
                            PartitionBase(l, step, part) + l.PartitionBytes())
      {
        hide Layout.Valid, CanonicalIndex, Layout.StepBytes, Layout.Elements, ByteStaged, PartitionBase, Layout.Groups,
             Layout.KGroups;
        ghost var before := lds[..];
        ghost var group := axisGroup * l.KGroups() + kGroup;
        StageGroup(l, lds, canonical, block, step, part, axisGroup, kGroup);
        GroupInPartition(l, group);
        forall g, lane, sel | 0 <= g < group && 0 <= lane < 64 && 0 <= sel < 4
          ensures ByteStaged(l, lds[..], canonical, Digits(block, step, part, g, lane, sel))
        {
          GroupKept(l, before, lds[..], canonical, Digits(block, step, part, g, lane, sel), group);
        }
      }
    }
  }

  lemma AxisGroupFits(l: Layout, axisGroup: nat)
    requires axisGroup < l.waveTiles / 2
    ensures axisGroup * l.KGroups() + l.KGroups() == (axisGroup + 1) * l.KGroups() <= l.Groups()
  {
    MixedRadix.Monotone(axisGroup + 1, l.waveTiles / 2, l.KGroups());
  }

  // ------------------------------------------------------------ host pre-swizzle

  /** `tensileLiteScaleDst` */
  function HostIndex(l: Layout, cta: nat, d: Digits): nat {
    cta * l.CtaBytes() + d.step * l.StepBytes() + d.part * l.PartitionBytes() + d.group * 256 + d.lane * 4 + d.sel
  }

  /** The operand's block coordinate of workgroup `cta`. */
  function BlockOf(l: Layout, cta: nat): nat
    requires l.nBlocks > 0
  {
    if l.isA then cta / l.nBlocks else cta % l.nBlocks
  }

  predicate InGrid(l: Layout, cta: nat, d: Digits) {
    && l.nBlocks > 0 && cta < l.Ctas() && d.block == BlockOf(l, cta)
    && d.step < l.steps && d.part < l.blockWaves && d.group < l.Groups() && d.lane < 64 && d.sel < 4
  }

  lemma BlockInGrid(l: Layout, cta: nat, d: Digits)
    requires InGrid(l, cta, d)
    ensures d.In(l)
  {
    MixedRadix.Compose(cta, l.mBlocks, l.nBlocks);
  }

  /** The digits a position of the packed buffer stands for. */
  function HostDigits(l: Layout, at: nat): Digits
    requires l.nBlocks > 0 && l.CtaBytes() > 0 && l.StepBytes() > 0 && l.PartitionBytes() > 0
  {
    DigitsWithin(BlockOf(l, at / l.CtaBytes()), at % l.CtaBytes(), l.StepBytes(), l.PartitionBytes())
  }

  function DigitsWithin(block: nat, at: nat, stepBytes: nat, partitionBytes: nat): Digits
    requires stepBytes > 0 && partitionBytes > 0
  {
    var s := at % stepBytes;
    var y := s % partitionBytes;
    Digits(block, at / stepBytes, s / partitionBytes, y / 256, y % 256 / 4, y % 4)
  }

  lemma SizesPositive(l: Layout)
    requires l.Valid()
    ensures l.KGroups() > 0 && l.Groups() > 0 && l.PartitionBytes() > 0 && l.StepBytes() > 0 && l.CtaBytes() > 0
  {
    MixedRadix.AtLeastOnce(l.waveTiles / 2, l.KGroups());
    MixedRadix.AtLeastOnce(l.blockWaves, l.PartitionBytes());
    MixedRadix.AtLeastOnce(l.StepBytes(), l.steps);
  }

  lemma GroupBytes(group: nat, lane: nat, sel: nat)
    requires lane < 64 && sel < 4
    ensures var y := group * 256 + lane * 4 + sel;
            y < group * 256 + 256 && y / 256 == group && y % 256 / 4 == lane && y % 4 == sel
  {
    MixedRadix.Split(group, lane * 4 + sel, 256);
    MixedRadix.Split(lane, sel, 4);
    MixedRadix.Split(group * 64 + lane, sel, 4);
  }

  /** Destination positions are in range and decode to the digits they were computed from. */
  lemma HostDecodes(l: Layout, cta: nat, d: Digits)
    requires l.Valid() && InGrid(l, cta, d)
    ensures HostIndex(l, cta, d) < l.Ctas() * l.CtaBytes()
    ensures l.CtaBytes() > 0 && l.StepBytes() > 0 && l.PartitionBytes() > 0
    ensures HostDigits(l, HostIndex(l, cta, d)) == d && HostIndex(l, cta, d) / l.CtaBytes() == cta
  {
    SizesPositive(l);
    GroupBytes(d.group, d.lane, d.sel);
    GroupInPartition(l, d.group);
    var y := d.group * 256 + d.lane * 4 + d.sel;
    var s := d.part * l.PartitionBytes() + y;
    var r := d.step * l.StepBytes() + s;
    hide Layout.Valid, Layout.Groups, Layout.PartitionBytes, Layout.Ctas, BlockOf;
    MixedRadix.Split(d.part, y, l.PartitionBytes());
    MixedRadix.Below(d.part, l.blockWaves, y, l.PartitionBytes());
    assert s < l.StepBytes();
    StepInCta(l, d.step, s);
    hide Layout.StepBytes;
    MixedRadix.Split(d.step, s, l.StepBytes());
    MixedRadix.Split(cta, r, l.CtaBytes());
    MixedRadix.Below(cta, l.Ctas(), r, l.CtaBytes());
  }

  lemma StepInCta(l: Layout, step: nat, s: nat)
    requires step < l.steps && s < l.StepBytes()
    ensures step * l.StepBytes() + s < l.CtaBytes()
  {
    hide Layout.StepBytes;
    MixedRadix.Below(step, l.steps, s, l.StepBytes());
  }

  /** The host buffer: the byte at every position is the canonical byte its digits name. */
  ghost predicate HostBuilt(l: Layout, packed: seq<Byte>, canonical: seq<Byte>)
    requires l.Valid()
  {
    && |packed| == l.Ctas() * l.CtaBytes() && |canonical| == l.Elements()
    && forall cta, d: Digits | InGrid(l, cta, d) :: HostByte(l, packed, canonical, cta, d)
  }

  predicate HostByte(l: Layout, packed: seq<Byte>, canonical: seq<Byte>, cta: nat, d: Digits)
    requires l.KGroups() > 0
  {
    && HostIndex(l, cta, d) < |packed| && CanonicalIndex(l, d) < |canonical|
    && packed[HostIndex(l, cta, d)] == canonical[CanonicalIndex(l, d)]
  }
}
