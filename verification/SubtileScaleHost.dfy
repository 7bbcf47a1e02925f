/**
 The host builder of the pre-swizzled scale buffer, and the DMA path that copies it into LDS. What
 the DMA path leaves in LDS is what canonical staging would have stored there.
 */
module SubtileScaleHost {
  import MixedRadix
  import opened Prelude
  import opened Blocking
  import opened CheckedArith
  import opened SubtileScales

  // ----------------------------------------------------------------- host builder

  lemma PositionBound(l: Layout, at: nat)
    requires l.Valid() && l.nBlocks > 0 && at < l.Ctas() * l.CtaBytes()
    ensures l.CtaBytes() > 0 && l.StepBytes() > 0 && l.PartitionBytes() > 0
    ensures at / l.CtaBytes() < l.Ctas()
    ensures at % l.CtaBytes() / l.StepBytes() < l.steps
    ensures at % l.CtaBytes() % l.StepBytes() / l.PartitionBytes() < l.blockWaves
    ensures at % l.CtaBytes() % l.StepBytes() % l.PartitionBytes() / 256 < l.Groups()
  {
    SizesPositive(l);
    hide Layout.Valid, Layout.Ctas;
    MixedRadix.Compose(at, l.Ctas(), l.CtaBytes());
    RemainderBound(at, l.CtaBytes(), l.steps, l.StepBytes());
    hide Layout.CtaBytes;
    RemainderBound(at % l.CtaBytes(), l.StepBytes(), l.blockWaves, l.PartitionBytes());
    hide Layout.StepBytes;
    RemainderBound(at % l.CtaBytes() % l.StepBytes(), l.PartitionBytes(), l.Groups(), 256);
  }

  lemma RemainderBound(x: nat, outer: nat, count: nat, inner: nat)
    requires outer > 0 && inner > 0 && (outer == count * inner || outer == inner * count)
    ensures x % outer / inner < count
  {
    MixedRadix.Compose(x % outer, count, inner);
  }

  lemma Recompose(x: nat, d: nat)
    requires d > 0
    ensures x / d * d + x % d == x
  {}

  /** Every position of the host buffer belongs to exactly one grid position and byte: the map is onto. */
  lemma HostCovers(l: Layout, at: nat)
    requires l.Valid() && l.nBlocks > 0 && at < l.Ctas() * l.CtaBytes()
    ensures l.CtaBytes() > 0 && l.StepBytes() > 0 && l.PartitionBytes() > 0
    ensures InGrid(l, at / l.CtaBytes(), HostDigits(l, at))
    ensures HostIndex(l, at / l.CtaBytes(), HostDigits(l, at)) == at
  {
    PositionBound(l, at);
    hide Layout.Valid, Layout.Ctas, Layout.CtaBytes, Layout.StepBytes, Layout.PartitionBytes, Layout.Groups, BlockOf;
    RecomposeAll(BlockOf(l, at / l.CtaBytes()), at, l.CtaBytes(), l.StepBytes(), l.PartitionBytes());
  }

  lemma RecomposeAll(block: nat, at: nat, cta: nat, step: nat, part: nat)
    requires cta > 0 && step > 0 && part > 0
    ensures var d := DigitsWithin(block, at % cta, step, part);
            && d.lane < 64 && d.sel < 4
            && at / cta * cta + d.step * step + d.part * part + d.group * 256 + d.lane * 4 + d.sel == at
  {
    hide DigitsWithin;
    Recompose(at, cta);
    RecomposeWithin(block, at % cta, step, part);
  }

  lemma RecomposeWithin(block: nat, at: nat, step: nat, part: nat)
    requires step > 0 && part > 0
    ensures var d := DigitsWithin(block, at, step, part);
            && d.lane < 64 && d.sel < 4
            && d.step * step + d.part * part + d.group * 256 + d.lane * 4 + d.sel == at
  {
    Recompose(at, step);
    Recompose(at % step, part);
    RecomposeBytes(at % step % part);
  }

  lemma RecomposeBytes(y: nat)
    ensures y / 256 * 256 + y % 256 / 4 * 4 + y % 4 == y && y % 256 / 4 < 64
  {
    var hi, lo := y / 256, y % 256;
    assert y == hi * 256 + lo && lo == lo / 4 * 4 + lo % 4;
    MixedRadix.Split(hi * 64 + lo / 4, lo % 4, 4);
  }

  /** Positions below `n` hold the canonical byte of their digits. */
  ghost predicate Filled(l: Layout, packed: seq<Byte>, canonical: seq<Byte>, n: int)
    requires l.Valid() && l.nBlocks > 0
  {
    n <= |packed| && forall at | 0 <= at < n :: PositionFilled(l, packed, canonical, at)
  }

  ghost predicate PositionFilled(l: Layout, packed: seq<Byte>, canonical: seq<Byte>, at: nat)
    requires l.Valid() && l.nBlocks > 0 && at < |packed|
  {
    SizesPositive(l);
    var index := CanonicalIndex(l, HostDigits(l, at));
    index < |canonical| && packed[at] == canonical[index]
  }

  /** `n` consecutive positions. */
  function Run(from: nat, n: nat): seq<nat> { seq(n, i requires i >= 0 => from + i) }

  lemma RunEmpty()
    ensures Run(0, 0) == []
  {}

  lemma RunAppend(from: nat, n: nat, m: nat)
    ensures Run(from, n) + Run(from + n, m) == Run(from, n + m)
  {}

  /**
   `fillTensileLiteScaleLane`: the four selector bytes of one lane, at the next four positions. Here and below
   `writes` is every position stored to, in order.
   */
  method FillLane(l: Layout, packed: array<Byte>, canonical: seq<Byte>, axisTileBase: nat, cta: nat, block: nat,
                  step: nat, wave: nat, axisGroup: nat, kGroup: nat, group: nat, lane: nat, ghost n: nat)
    returns (ghost writes: seq<nat>)
    requires l.Valid() && packed.Length == l.Ctas() * l.CtaBytes() && |canonical| == l.Elements()
    requires InGrid(l, cta, Digits(block, step, wave, group, lane, 0))
    requires axisGroup < l.waveTiles / 2 && kGroup < l.KGroups() && group == axisGroup * l.KGroups() + kGroup
    requires axisTileBase == block * l.BlockTiles()
    requires n == HostIndex(l, cta, Digits(block, step, wave, group, lane, 0))
    requires Filled(l, packed[..], canonical, n)
    modifies packed
    ensures Filled(l, packed[..], canonical, n + 4) && Unchanged(old(packed[..]), packed[..], n, n + 4)
    ensures writes == Run(n, 4)
  {
    BlockInGrid(l, cta, Digits(block, step, wave, group, lane, 0));
    hide Layout.Valid, Layout.Ctas, Layout.CtaBytes, Layout.Elements, Layout.Groups, Layout.BlockTiles,
         Layout.KGroups, CanonicalIndex, HostIndex, HostDigits;
    writes := [];
    for kSel := 0 to 2
      invariant Filled(l, packed[..], canonical, n + 2 * kSel)
      invariant Unchanged(old(packed[..]), packed[..], n, n + 2 * kSel)
      invariant writes == Run(n, 2 * kSel)
    {
      for axisSel := 0 to 2
        invariant Filled(l, packed[..], canonical, n + 2 * kSel + axisSel)
        invariant Unchanged(old(packed[..]), packed[..], n, n + 2 * kSel + axisSel)
        invariant writes == Run(n, 2 * kSel + axisSel)
      {
        ghost var before := packed[..];
        var axisTile := axisTileBase + wave * l.waveTiles + axisGroup * 2 + axisSel;
        var rawK := step * l.waveK + kGroup * 2 + kSel;
        var scaleK := rawK * 4 + lane / 16;
        var selector := axisSel + 2 * kSel;
        StoreIndex(l, block, step, wave, axisGroup, kGroup, kSel, axisSel, lane);
        NextPosition(l, cta, Digits(block, step, wave, group, lane, 0), selector);
        var dst := HostIndex(l, cta, Digits(block, step, wave, group, lane, selector));
        packed[dst] := canonical[scaleK * l.rows + axisTile * 16 + lane % 16];
        writes := writes + [dst];
        OneMoreFilled(l, before, packed[..], canonical, dst);
      }
    }
  }

  /** The bytes of a lane follow one another and decode to their own selectors. */
  lemma NextPosition(l: Layout, cta: nat, d: Digits, sel: nat)
    requires l.Valid() && InGrid(l, cta, d) && d.sel == 0 && sel < 4
    ensures var at := HostIndex(l, cta, d.(sel := sel));
            && at == HostIndex(l, cta, d) + sel < l.Ctas() * l.CtaBytes()
            && l.CtaBytes() > 0 && l.StepBytes() > 0 && l.PartitionBytes() > 0
            && HostDigits(l, at) == d.(sel := sel)
  {
    HostDecodes(l, cta, d.(sel := sel));
  }

  lemma OneMoreFilled(l: Layout, before: seq<Byte>, after: seq<Byte>, canonical: seq<Byte>, n: nat)
    requires l.Valid() && l.nBlocks > 0 && Filled(l, before, canonical, n)
    requires n < |after| == |before| && after == before[n := after[n]] && PositionFilled(l, after, canonical, n)
    ensures Filled(l, after, canonical, n + 1)
  {
    forall at | 0 <= at < n + 1 ensures PositionFilled(l, after, canonical, at) {
      assert at < n ==> PositionFilled(l, before, canonical, at);
    }
  }

  /** `fillTensileLiteScaleGroup` */
  method FillGroup(l: Layout, packed: array<Byte>, canonical: seq<Byte>, axisTileBase: nat, cta: nat, block: nat,
                   step: nat, wave: nat, axisGroup: nat, kGroup: nat, group: nat, ghost n: nat)
    returns (ghost writes: seq<nat>)
    requires l.Valid() && packed.Length == l.Ctas() * l.CtaBytes() && |canonical| == l.Elements()
    requires InGrid(l, cta, Digits(block, step, wave, group, 0, 0))
    requires axisGroup < l.waveTiles / 2 && kGroup < l.KGroups() && group == axisGroup * l.KGroups() + kGroup
    requires axisTileBase == block * l.BlockTiles()
    requires n == HostIndex(l, cta, Digits(block, step, wave, group, 0, 0))
    requires Filled(l, packed[..], canonical, n)
    modifies packed
    ensures Filled(l, packed[..], canonical, n + 256) && Unchanged(old(packed[..]), packed[..], n, n + 256)
    ensures writes == Run(n, 256)
  {
    hide Layout.Valid, Layout.Ctas, Layout.CtaBytes, Layout.Elements, Layout.Groups, Layout.BlockTiles,
         Layout.KGroups, Filled, Layout.StepBytes, Layout.PartitionBytes;
    writes := [];
    for lane := 0 to 64
      invariant Filled(l, packed[..], canonical, n + 4 * lane)
      invariant Unchanged(old(packed[..]), packed[..], n, n + 4 * lane)
      invariant writes == Run(n, 4 * lane)
    {
      ghost var more := FillLane(l, packed, canonical, axisTileBase, cta, block, step, wave, axisGroup, kGroup,
                                 group, lane, n + 4 * lane);
      RunAppend(n, 4 * lane, 4);
      writes := writes + more;
    }
  }

  /** `fillTensileLiteScaleStep` */
  method FillStep(l: Layout, packed: array<Byte>, canonical: seq<Byte>, block: nat, cta: nat, step: nat, ghost n: nat)
    returns (ghost writes: seq<nat>)
    requires l.Valid() && packed.Length == l.Ctas() * l.CtaBytes() && |canonical| == l.Elements()
    requires l.nBlocks > 0 && cta < l.Ctas() && block == BlockOf(l, cta) && step < l.steps
    requires n == cta * l.CtaBytes() + step * l.StepBytes()
    requires Filled(l, packed[..], canonical, n)
    modifies packed
    ensures Filled(l, packed[..], canonical, n + l.StepBytes())
    ensures Unchanged(old(packed[..]), packed[..], n, n + l.StepBytes())
    ensures writes == Run(n, l.StepBytes())
  {
    var axisTileBase := block * l.BlockTiles();
    ghost var done := 0;
    hide Layout.Valid, Layout.Ctas, Layout.CtaBytes, Layout.Elements, Layout.Groups, Layout.BlockTiles,
         Layout.KGroups, Filled, Layout.PartitionBytes, BlockOf;
    writes := [];
    for wave := 0 to l.blockWaves
      invariant done == wave * l.PartitionBytes() && writes == Run(n, done)
      invariant Filled(l, packed[..], canonical, n + done) && Unchanged(old(packed[..]), packed[..], n, n + done)
    {
      ghost var more := FillPartition(l, packed, canonical, axisTileBase, cta, block, step, wave, n + done);
      RunAppend(n, done, l.PartitionBytes());
      assert (wave + 1) * l.PartitionBytes() == wave * l.PartitionBytes() + l.PartitionBytes();
      writes, done := writes + more, done + l.PartitionBytes();
    }
  }

  /** One iteration of the wave loop of `fillTensileLiteScaleStep`. */
  method FillPartition(l: Layout, packed: array<Byte>, canonical: seq<Byte>, axisTileBase: nat, cta: nat, block: nat,
                       step: nat, wave: nat, ghost n: nat)
    returns (ghost writes: seq<nat>)
    requires l.Valid() && packed.Length == l.Ctas() * l.CtaBytes() && |canonical| == l.Elements()
    requires l.nBlocks > 0 && cta < l.Ctas() && block == BlockOf(l, cta) && step < l.steps && wave < l.blockWaves
    requires axisTileBase == block * l.BlockTiles()
    requires n == cta * l.CtaBytes() + step * l.StepBytes() + wave * l.PartitionBytes()
    requires Filled(l, packed[..], canonical, n)
    modifies packed
    ensures Filled(l, packed[..], canonical, n + l.PartitionBytes())
    ensures Unchanged(old(packed[..]), packed[..], n, n + l.PartitionBytes())
    ensures writes == Run(n, l.PartitionBytes())
  {
    hide Layout.Valid, Layout.Ctas, Layout.CtaBytes, Layout.Elements, Layout.BlockTiles, Layout.StepBytes,
         Layout.KGroups, Filled, BlockOf;
    ghost var groups := 0;
    writes := [];
    for axisGroup := 0 to l.waveTiles / 2
      invariant groups == axisGroup * l.KGroups()
      invariant Filled(l, packed[..], canonical, n + groups * 256)
      invariant Unchanged(old(packed[..]), packed[..], n, n + groups * 256)
      invariant writes == Run(n, groups * 256)
    {
      AxisGroupFits(l, axisGroup);
      for kGroup := 0 to l.KGroups()
        invariant groups == axisGroup * l.KGroups() + kGroup
        invariant Filled(l, packed[..], canonical, n + groups * 256)
        invariant Unchanged(old(packed[..]), packed[..], n, n + groups * 256)
        invariant writes == Run(n, groups * 256)
      {
        var group := axisGroup * l.KGroups() + kGroup;
        ghost var more := FillGroup(l, packed, canonical, axisTileBase, cta, block, step, wave, axisGroup, kGroup,
                                    group, n + groups * 256);
        RunAppend(n, groups * 256, 256);
        writes, groups := writes + more, groups + 1;
      }
    }
  }

  /**
   `makeTensileLiteScaleBytes`: every position of the output is written exactly once, front to back, with the
   canonical byte of its grid position.
   */
  method MakeHostScales(l: Layout, canonical: seq<Byte>) returns (packed: array<Byte>, ghost writes: seq<nat>)
    requires l.Valid() && |canonical| == l.Elements()
    ensures fresh(packed) && HostBuilt(l, packed[..], canonical)
    ensures writes == Run(0, packed.Length)
  {
    hide Layout.Valid, Layout.Elements, Layout.CtaBytes, InGrid, HostByte, Filled;
    packed := new Byte[l.mBlocks * l.nBlocks * l.CtaBytes()];
    writes := [];
    if l.nBlocks > 0 {
      writes := FillGrid(l, packed, canonical);
      AllFilled(l, packed[..], canonical);
    } else {
      NoGrid(l, packed[..], canonical);
    }
  }

  lemma NoGrid(l: Layout, packed: seq<Byte>, canonical: seq<Byte>)
    requires l.Valid() && l.nBlocks == 0 && |packed| == l.mBlocks * l.nBlocks * l.CtaBytes()
    requires |canonical| == l.Elements()
    ensures HostBuilt(l, packed, canonical) && |packed| == 0
  {
    hide Layout.Valid, Layout.CtaBytes, Layout.Elements, HostByte;
  }

  /** The loop over workgroup rows. */
  method FillGrid(l: Layout, packed: array<Byte>, canonical: seq<Byte>) returns (ghost writes: seq<nat>)
    requires l.Valid() && l.nBlocks > 0 && packed.Length == l.Ctas() * l.CtaBytes() && |canonical| == l.Elements()
    modifies packed
    ensures Filled(l, packed[..], canonical, packed.Length)
    ensures writes == Run(0, packed.Length)
  {
    ghost var done := 0;
    assert Filled(l, packed[..], canonical, 0);
    hide Layout.Valid, Layout.Elements, Layout.CtaBytes, Layout.Ctas, Filled, Run;
    writes := [];
    RunEmpty();
    for wgM := 0 to l.mBlocks
      invariant done == wgM * l.nBlocks * l.CtaBytes()
      invariant Filled(l, packed[..], canonical, done) && writes == Run(0, done)
    {
      ghost var more := FillRow(l, packed, canonical, wgM, done);
      NextRow(wgM, l.nBlocks, l.CtaBytes());
      RunAppend(0, done, l.nBlocks * l.CtaBytes());
      writes, done := writes + more, done + l.nBlocks * l.CtaBytes();
    }
    CtaCount(l);
  }

  lemma NextRow(row: nat, columns: nat, size: nat)
    ensures (row + 1) * columns * size == row * columns * size + columns * size
  {
    MixedRadix.Distributes(row, 1, columns);
    MixedRadix.Distributes(row * columns, columns, size);
  }

  /** The loop over the workgroups of a row. */
  method FillRow(l: Layout, packed: array<Byte>, canonical: seq<Byte>, wgM: nat, ghost n: nat)
    returns (ghost writes: seq<nat>)
    requires l.Valid() && packed.Length == l.Ctas() * l.CtaBytes() && |canonical| == l.Elements()
    requires l.nBlocks > 0 && wgM < l.mBlocks && n == wgM * l.nBlocks * l.CtaBytes()
    requires Filled(l, packed[..], canonical, n)
    modifies packed
    ensures Filled(l, packed[..], canonical, n + l.nBlocks * l.CtaBytes())
    ensures Unchanged(old(packed[..]), packed[..], n, n + l.nBlocks * l.CtaBytes())
    ensures writes == Run(n, l.nBlocks * l.CtaBytes())
  {
    ghost var done := 0;
    hide Layout.Valid, Layout.Elements, Layout.CtaBytes, Layout.Ctas, BlockOf, Filled;
    writes := [];
    for wgN := 0 to l.nBlocks
      invariant done == wgN * l.CtaBytes() && writes == Run(n, done)
      invariant Filled(l, packed[..], canonical, n + done) && Unchanged(old(packed[..]), packed[..], n, n + done)
    {
      var cta := wgM * l.nBlocks + wgN;
      CtaInGrid(l, wgM, wgN);
      MixedRadix.Distributes(wgM * l.nBlocks, wgN, l.CtaBytes());
      ghost var more := FillCta(l, packed, canonical, if l.isA then wgM else wgN, cta, n + done);
      MixedRadix.Distributes(wgN, 1, l.CtaBytes());
      RunAppend(n, done, l.CtaBytes());
      writes, done := writes + more, done + l.CtaBytes();
    }
  }

  lemma CtaInGrid(l: Layout, wgM: nat, wgN: nat)
    requires wgM < l.mBlocks && wgN < l.nBlocks
    ensures wgM * l.nBlocks + wgN < l.Ctas()
    ensures BlockOf(l, wgM * l.nBlocks + wgN) == if l.isA then wgM else wgN
  {
    MixedRadix.Below(wgM, l.mBlocks, wgN, l.nBlocks);
    MixedRadix.Split(wgM, wgN, l.nBlocks);
  }

  lemma CtaCount(l: Layout)
    ensures l.Ctas() == l.mBlocks * l.nBlocks
  {}

  /** The step loop of `makeTensileLiteScaleBytes`. */
  method FillCta(l: Layout, packed: array<Byte>, canonical: seq<Byte>, block: nat, cta: nat, ghost n: nat)
    returns (ghost writes: seq<nat>)
    requires l.Valid() && packed.Length == l.Ctas() * l.CtaBytes() && |canonical| == l.Elements()
    requires l.nBlocks > 0 && cta < l.Ctas() && block == BlockOf(l, cta) && n == cta * l.CtaBytes()
    requires Filled(l, packed[..], canonical, n)
    modifies packed
    ensures Filled(l, packed[..], canonical, n + l.CtaBytes())
    ensures Unchanged(old(packed[..]), packed[..], n, n + l.CtaBytes())
    ensures writes == Run(n, l.CtaBytes())
  {
    ghost var done := 0;
    CtaBytesIs(l);
    hide Layout.Valid, Layout.Ctas, Layout.CtaBytes, Layout.Elements, Filled, BlockOf, Layout.StepBytes;
    writes := [];
    for step := 0 to l.steps
      invariant done == step * l.StepBytes() && writes == Run(n, done)
      invariant Filled(l, packed[..], canonical, n + done) && Unchanged(old(packed[..]), packed[..], n, n + done)
    {
      ghost var more := FillStep(l, packed, canonical, block, cta, step, n + done);
      MixedRadix.Distributes(step, 1, l.StepBytes());
      RunAppend(n, done, l.StepBytes());
      writes, done := writes + more, done + l.StepBytes();
    }
  }

  lemma CtaBytesIs(l: Layout)
    ensures l.CtaBytes() == l.steps * l.StepBytes()
  {}

  lemma AllFilled(l: Layout, packed: seq<Byte>, canonical: seq<Byte>)
    requires l.Valid() && l.nBlocks > 0 && |packed| == l.Ctas() * l.CtaBytes() && |canonical| == l.Elements()
    requires Filled(l, packed, canonical, |packed|)
    ensures HostBuilt(l, packed, canonical)
  {
    forall cta, d: Digits | InGrid(l, cta, d) ensures HostByte(l, packed, canonical, cta, d) {
      HostDecodes(l, cta, d);
      hide Layout.Valid, HostDigits, CanonicalIndex, HostIndex, Layout.CtaBytes, Layout.Ctas;
      assert PositionFilled(l, packed, canonical, HostIndex(l, cta, d));
    }
  }

  // ----------------------------------------------------------------- the host's layout

  /** `TensileLiteScaleLayout`: the layout with the sizes it stores. */
  datatype HostSizes = HostSizes(layout: Layout, groups: int, partitionBytes: int, ctaBytes: int)

  lemma QuotientPositive(x: int, d: int)
    requires Extent(x) && d > 0 && x % d == 0
    ensures 0 < x / d <= x && x / d * d == x
  {
    MixedRadix.ExactQuotient(x, d);
    if x / d > x {
      MixedRadix.AtLeastOnce(d, x / d);
    }
  }

  lemma BlocksPositive(t: Tiles)
    requires t.Positive() && Divides(t, 64, 128)
    ensures var x, y, z := t.m / (16 * (t.bm * t.waveM)), t.n / (16 * (t.bn * t.waveN)), t.k / (128 * t.waveK);
            && 0 < x <= t.m && 0 < y <= t.n && 0 < z <= t.k
            && x * (16 * (t.bm * t.waveM)) == t.m && y * (16 * (t.bn * t.waveN)) == t.n && z * (128 * t.waveK) == t.k
  {
    QuotientPositive(t.m, 16 * (t.bm * t.waveM));
    QuotientPositive(t.n, 16 * (t.bn * t.waveN));
    QuotientPositive(t.k, 128 * t.waveK);
  }

  /** The blocking of an MXFP4 launch on 64-lane waves, with what the layout needs to know of it. */
  function ScaleBlocking(t: Tiles): (r: Checked<Blocks>)
    requires t.Positive()
    ensures r == GetBlocking(t, 64, 128)
    ensures r.Value? ==> Extent(r.value.blocksX) && Extent(r.value.blocksY) && Extent(r.value.virtualKSteps)
  {
    BlockingExact(t, 64, 128);
    if Divides(t, 64, 128) then BlocksPositive(t); GetBlocking(t, 64, 128) else GetBlocking(t, 64, 128)
  }

  /** `makeTensileLiteScaleLayout` */
  function HostLayout(t: Tiles, isA: bool): Checked<HostSizes>
    requires t.Positive()
  {
    if t.waveK % 2 != 0 || t.waveM % 2 != 0 || t.waveN % 2 != 0 then Died
    else
      var blocks :- ScaleBlocking(t);
      var blockWaves, waveTiles := if isA then t.bm else t.bn, if isA then t.waveM else t.waveN;
      var groups :- BoundedProduct(waveTiles / 2, t.waveK / 2);
      var partition :- BoundedProduct(groups, 256);
      var step :- BoundedProduct(blockWaves, partition);
      var cta :- BoundedProduct(step, blocks.virtualKSteps);
      Value(HostSizes(Layout(if isA then t.m else t.n, blocks.blocksX, blocks.blocksY, blockWaves, waveTiles, t.waveK,
                             blocks.virtualKSteps, isA), groups, partition, cta))
  }

  predicate EvenTiles(t: Tiles) { t.waveK % 2 == 0 && t.waveM % 2 == 0 && t.waveN % 2 == 0 }

  /** The layout a launch asks for, without any check on its sizes. */
  function WantedLayout(t: Tiles, isA: bool): Layout
    requires t.Positive() && Divides(t, 64, 128)
  {
    BlocksPositive(t);
    Layout(if isA then t.m else t.n, t.m / (16 * (t.bm * t.waveM)), t.n / (16 * (t.bn * t.waveN)),
           if isA then t.bm else t.bn, if isA then t.waveM else t.waveN, t.waveK, t.k / (128 * t.waveK), isA)
  }

  /** Four products of positive factors in a chain pass exactly when the last one fits. */
  lemma ChainFits(groupRows: int, groupSteps: int, waves: int, steps: int)
    requires Extent(groupRows) && Extent(groupSteps) && Extent(waves) && Extent(steps)
    ensures var groups := groupRows * groupSteps;
            && groups > 0 && waves * (groups * 256) > 0
            && groups <= groups * 256 <= waves * (groups * 256) <= waves * (groups * 256) * steps
  {
    MixedRadix.AtLeastOnce(groupRows, groupSteps);
    MixedRadix.AtLeastOnce(waves, groupRows * groupSteps * 256);
    MixedRadix.AtLeastOnce(steps, waves * (groupRows * groupSteps * 256));
  }

  /**
   The host makes a scale layout if and only if the tiles are even, the blocks divide the extents, the threads fit
   an int and the bytes of a workgroup do; it is then the layout asked for, with the sizes the layout defines.
   */
  lemma HostLayoutExact(t: Tiles, isA: bool)
    requires t.Positive()
    ensures HostLayout(t, isA).Value?
            <==> EvenTiles(t) && Divides(t, 64, 128) && WantedLayout(t, isA).CtaBytes() <= INT_MAX
    ensures HostLayout(t, isA).Value? ==>
              var l := WantedLayout(t, isA);
              HostLayout(t, isA) == Value(HostSizes(l, l.Groups(), l.PartitionBytes(), l.CtaBytes()))
  {
    BlockingExact(t, 64, 128);
    if EvenTiles(t) && Divides(t, 64, 128) {
      BlocksPositive(t);
      var l := WantedLayout(t, isA);
      var groups := l.waveTiles / 2 * l.KGroups();
      ChainFits(l.waveTiles / 2, l.KGroups(), l.blockWaves, l.steps);
      hide GetBlocking, Divides;
      PositiveProduct(l.waveTiles / 2, l.KGroups());
      if groups <= INT_MAX {
        PositiveProduct(groups, 256);
        if groups * 256 <= INT_MAX {
          PositiveProduct(l.blockWaves, groups * 256);
          if l.blockWaves * (groups * 256) <= INT_MAX {
            PositiveProduct(l.blockWaves * (groups * 256), l.steps);
          }
        }
      }
      hide BoundedProduct;
    }
  }

  /** A layout the host made is valid, tiles its operand exactly, and spans all of K. */
  lemma WantedValid(t: Tiles, isA: bool)
    requires t.Positive() && EvenTiles(t) && Divides(t, 64, 128)
    ensures var l := WantedLayout(t, isA);
            && l.Valid() && l.Blocks() * l.BlockTiles() * 16 == l.rows && l.steps * (128 * l.waveK) == t.k
            && 0 < l.mBlocks <= t.m && 0 < l.nBlocks <= t.n
  {
    BlocksPositive(t);
    hide Divides;
    SixteenEach(t.m / (16 * (t.bm * t.waveM)), t.bm * t.waveM, t.m);
    SixteenEach(t.n / (16 * (t.bn * t.waveN)), t.bn * t.waveN, t.n);
  }

  lemma SixteenEach(blocks: nat, tiles: nat, rows: nat)
    requires blocks * (16 * tiles) == rows
    ensures blocks * tiles * 16 == rows
  {
    MixedRadix.Commutes(16, tiles);
    MixedRadix.Associates(blocks, tiles, 16);
  }

  /** The canonical array the host has is the one the layout speaks of. */
  lemma CanonicalSize(t: Tiles, isA: bool)
    requires t.Positive() && EvenTiles(t) && Divides(t, 64, 128)
    ensures var l := WantedLayout(t, isA);
            t.k % 32 == 0 && l.steps * l.waveK * 4 == t.k / 32 && l.Elements() == t.k / 32 * l.rows
  {
    WantedValid(t, isA);
    hide Divides;
    var l := WantedLayout(t, isA);
    hide WantedLayout, Layout.Valid;
    WholeTiles(l.steps, l.waveK, t.k);
  }

  lemma WholeTiles(steps: nat, waveK: nat, k: nat)
    requires steps * (128 * waveK) == k
    ensures k % 32 == 0 && steps * waveK * 4 == k / 32
  {
    MixedRadix.Associates(steps, waveK, 128);
    MixedRadix.Commutes(waveK, 128);
    var tiles := steps * waveK;
    assert k == 32 * (tiles * 4);
  }

  /** `makeTensileLiteScaleBytes` from the runner's arguments: dies exactly where the layout does. */
  method MakeScaleBytes(t: Tiles, isA: bool, canonical: seq<Byte>)
    returns (r: Checked<array<Byte>>, ghost writes: seq<nat>)
    requires t.Positive() && |canonical| == t.k / 32 * (if isA then t.m else t.n)
    ensures r.Value? <==> HostLayout(t, isA).Value?
    ensures r.Value? ==>
              var l := HostLayout(t, isA).value.layout;
              l.Valid() && HostBuilt(l, r.value[..], canonical) && writes == Run(0, r.value.Length)
  {
    HostLayoutExact(t, isA);
    var sizes := HostLayout(t, isA);
    hide HostLayout, HostBuilt, Layout.CtaBytes;
    writes := [];
    if sizes.Died? {
      return Died, [];
    }
    WantedValid(t, isA);
    CanonicalSize(t, isA);
    hide WantedLayout, Divides, Layout.Valid, Layout.Elements;
    var packed;
    packed, writes := MakeHostScales(sizes.value.layout, canonical);
    r := Value(packed);
  }

  /** The ints of the workgroup and tile part of a source. */
  ghost predicate AxisTermsFit(l: Layout, cta: nat, d: Digits)
    requires l.KGroups() > 0
  {
    && cta <= INT_MAX
    && d.block * l.blockWaves <= INT_MAX && d.block * l.blockWaves * l.waveTiles <= INT_MAX
    && d.part * l.waveTiles <= INT_MAX && AxisTile(l, d) <= INT_MAX && AxisTile(l, d) * 16 + 15 <= INT_MAX
  }

  /** The ints of the K part of a source, and of a destination. */
  predicate StepInts(step: nat, waveK: nat, waves: nat, part: nat, bytes: nat, scaleK: nat, low: nat) {
    && step * waveK <= INT_MAX && scaleK <= INT_MAX && step * waves <= INT_MAX && step * waves * bytes <= INT_MAX
    && part * bytes <= INT_MAX && low <= INT_MAX
  }

  predicate StepTermsFit(l: Layout, d: Digits)
    requires l.KGroups() > 0
  {
    StepInts(d.step, l.waveK, l.blockWaves, d.part, l.PartitionBytes(), ScaleK(l, d),
             d.group * 256 + d.lane * 4 + d.sel)
  }

  /** Every int the host builder computes on the way to one destination or source. */
  ghost predicate TermsFit(l: Layout, cta: nat, d: Digits)
    requires l.KGroups() > 0
  {
    AxisTermsFit(l, cta, d) && StepTermsFit(l, d)
  }

  /** With workgroup numbers that fit an int, so does every other term, and the buffer fits its size type. */
  lemma TermsFitAt(t: Tiles, isA: bool, cta: nat, d: Digits)
    requires t.Positive() && HostLayout(t, isA).Value?
    requires var l := HostLayout(t, isA).value.layout; InGrid(l, cta, d) && l.Ctas() - 1 <= INT_MAX
    ensures var l := HostLayout(t, isA).value.layout;
            && l.Valid() && TermsFit(l, cta, d)
            && HostIndex(l, cta, d) < l.Ctas() * l.CtaBytes() <= SIZE_T_MAX
            && CanonicalIndex(l, d) < l.Elements() <= SIZE_T_MAX
  {
    HostLayoutExact(t, isA);
    hide HostLayout;
    var l := WantedLayout(t, isA);
    WantedValid(t, isA);
    CanonicalSize(t, isA);
    hide WantedLayout, Divides, TermsFit, AxisTermsFit, StepTermsFit;
    HostDecodes(l, cta, d);
    BlockInGrid(l, cta, d);
    CanonicalInRange(l, d);
    SizeFits(l.Ctas(), l.CtaBytes());
    SizeFits(t.k / 32, l.rows);
    SizesPositive(l);
    AllTermsFit(l, cta, d);
  }

  /**
   With a layout the host made, no int term of any destination or source overflows if and only if the number
   of the last workgroup fits an int; the layout's own checks bound every other term.
   */
  lemma TermsFitIff(t: Tiles, isA: bool)
    requires t.Positive() && HostLayout(t, isA).Value?
    ensures var l := HostLayout(t, isA).value.layout;
            && l.Valid() && l.KGroups() > 0
            && ((forall cta, d: Digits | InGrid(l, cta, d) :: TermsFit(l, cta, d)) <==> l.Ctas() - 1 <= INT_MAX)
  {
    var l := HostLayout(t, isA).value.layout;
    LastInGrid(t, isA);
    hide HostLayout, InGrid, AxisTermsFit, StepTermsFit, Layout.Ctas;
    if l.Ctas() - 1 <= INT_MAX {
      hide TermsFit;
      forall cta, d: Digits | InGrid(l, cta, d) ensures TermsFit(l, cta, d) {
        TermsFitAt(t, isA, cta, d);
      }
    } else {
      LastDoesNotFit(l, l.Ctas() - 1, Digits(BlockOf(l, l.Ctas() - 1), 0, 0, 0, 0, 0));
    }
  }

  lemma LastDoesNotFit(l: Layout, cta: nat, d: Digits)
    requires l.KGroups() > 0 && cta > INT_MAX
    ensures !TermsFit(l, cta, d)
  {}

  /** The grid of a made layout is not empty, and its last workgroup has a first byte. */
  lemma LastInGrid(t: Tiles, isA: bool)
    requires t.Positive() && HostLayout(t, isA).Value?
    ensures var l := HostLayout(t, isA).value.layout;
            && l.Valid() && l.KGroups() > 0 && l.nBlocks > 0 && l.Ctas() > 0
            && InGrid(l, l.Ctas() - 1, Digits(BlockOf(l, l.Ctas() - 1), 0, 0, 0, 0, 0))
  {
    HostLayoutExact(t, isA);
    hide HostLayout;
    var l := WantedLayout(t, isA);
    WantedValid(t, isA);
    hide WantedLayout, Divides, BlockOf;
    MixedRadix.AtLeastOnce(l.mBlocks, l.nBlocks);
    SizesPositive(l);
  }

  /** An output whose element count fits an int, as `validateArgs` demands, has few enough workgroups. */
  lemma HostTermsFit(t: Tiles, isA: bool, cta: nat, d: Digits)
    requires t.Positive() && HostLayout(t, isA).Value? && t.m * t.n <= INT_MAX
    requires InGrid(HostLayout(t, isA).value.layout, cta, d)
    ensures var l := HostLayout(t, isA).value.layout;
            && l.Valid() && TermsFit(l, cta, d)
            && HostIndex(l, cta, d) < l.Ctas() * l.CtaBytes() <= SIZE_T_MAX
            && CanonicalIndex(l, d) < l.Elements() <= SIZE_T_MAX
  {
    FewWorkgroups(t, isA);
    TermsFitAt(t, isA, cta, d);
  }

  lemma FewWorkgroups(t: Tiles, isA: bool)
    requires t.Positive() && HostLayout(t, isA).Value?
    ensures HostLayout(t, isA).value.layout.Ctas() <= t.m * t.n
  {
    HostLayoutExact(t, isA);
    hide HostLayout;
    var l := WantedLayout(t, isA);
    WantedValid(t, isA);
    hide WantedLayout, Divides;
    CtasFit(l, t.m, t.n);
  }

  lemma SizeFits(x: nat, y: nat)
    requires x - 1 <= INT_MAX && y <= INT_MAX
    ensures x * y <= SIZE_T_MAX
  {
    MixedRadix.Monotone(x, INT_MAX + 1, y);
  }

  lemma CtasFit(l: Layout, m: nat, n: nat)
    requires l.mBlocks <= m && l.nBlocks <= n
    ensures l.Ctas() <= m * n
  {
    MixedRadix.Monotone(l.mBlocks, m, l.nBlocks);
    MixedRadix.Monotone(l.nBlocks, n, m);
  }

  lemma AllTermsFit(l: Layout, cta: nat, d: Digits)
    requires l.Valid() && l.KGroups() > 0 && InGrid(l, cta, d) && d.In(l)
    requires l.Ctas() - 1 <= INT_MAX && l.CtaBytes() <= INT_MAX && l.rows <= INT_MAX
    requires l.steps * l.waveK * 4 <= INT_MAX
    ensures TermsFit(l, cta, d)
  {
    AxisTermsBounded(l, cta, d);
    StepTermsBounded(l, d);
    hide AxisTermsFit, StepTermsFit;
  }

  lemma AxisTermsBounded(l: Layout, cta: nat, d: Digits)
    requires l.Valid() && l.KGroups() > 0 && d.In(l) && cta <= INT_MAX && l.rows <= INT_MAX
    ensures AxisTermsFit(l, cta, d)
  {
    assert l.waveTiles >= 1;
    hide Layout.Valid, AxisTile, Digits.In, Layout.KGroups, Layout.Ctas;
    AxisTileBound(l, d);
    AxisTermsBelow(l, d);
  }

  lemma StepTermsBounded(l: Layout, d: Digits)
    requires l.Valid() && l.KGroups() > 0 && d.In(l) && l.CtaBytes() <= INT_MAX && l.steps * l.waveK * 4 <= INT_MAX
    ensures StepTermsFit(l, d)
  {
    assert d.step < l.steps && d.part < l.blockWaves && d.group < l.Groups() && d.lane < 64 && d.sel < 4;
    CtaBytesTerms(l);
    SizesPositive(l);
    hide Layout.Valid, ScaleK, Layout.Groups, Layout.CtaBytes, Layout.PartitionBytes, Layout.KGroups, Digits.In,
         Layout.StepBytes, StepInts;
    ScaleKBound(l, d);
    GroupInPartition(l, d.group);
    StepIntsBounded(d.step, l.steps, l.waveK, l.blockWaves, d.part, l.PartitionBytes(), ScaleK(l, d),
                    d.group * 256 + d.lane * 4 + d.sel);
  }

  lemma StepIntsBounded(step: nat, steps: nat, waveK: nat, waves: nat, part: nat, bytes: nat, scaleK: nat, low: nat)
    requires step < steps && part < waves && bytes > 0 && waves * bytes * steps <= INT_MAX
    requires scaleK < steps * waveK * 4 <= INT_MAX && low < bytes
    ensures StepInts(step, waveK, waves, part, bytes, scaleK, low)
  {
    StepBelow(step, steps, waveK);
    TermsWithin(step, steps, part, waves, bytes, INT_MAX);
  }

  lemma StepBelow(step: nat, steps: nat, waveK: nat)
    requires step <= steps
    ensures step * waveK <= steps * waveK * 4
  {
    MixedRadix.Monotone(step, steps, waveK);
  }

  lemma CtaBytesTerms(l: Layout)
    ensures l.CtaBytes() == l.blockWaves * l.PartitionBytes() * l.steps
  {}

  /** The tile coordinate bounds the products it is summed from. */
  lemma AxisTermsBelow(l: Layout, d: Digits)
    requires l.KGroups() > 0 && l.waveTiles >= 1
    ensures d.block * l.blockWaves <= d.block * l.blockWaves * l.waveTiles <= AxisTile(l, d)
    ensures d.part * l.waveTiles <= AxisTile(l, d)
  {
    AxisTileSum(l, d);
    hide AxisTile, Layout.KGroups, Layout.BlockTiles;
    MixedRadix.AtLeastOnce(l.waveTiles, d.block * l.blockWaves);
    MixedRadix.Monotone(0, d.part, l.waveTiles);
    MixedRadix.Monotone(0, d.block * l.blockWaves, l.waveTiles);
  }

  lemma AxisTileSum(l: Layout, d: Digits)
    requires l.KGroups() > 0
    ensures AxisTile(l, d) >= d.block * l.blockWaves * l.waveTiles + d.part * l.waveTiles
  {
    hide Layout.KGroups;
    MixedRadix.Associates(d.block, l.blockWaves, l.waveTiles);
  }

  /**
   The check of the output's element count is needed: here the layout is made, for A as for B, and the number of
   the last workgroup exceeds an int.
   */
  lemma OutputCheckNeeded()
    ensures var t := Tiles(0x20_0000, 0x20_0000, 256, 1, 1, 2, 2, 2);
            && t.Positive() && HostLayout(t, true).Value? && HostLayout(t, false).Value?
            && HostLayout(t, true).value.layout.Ctas() - 1 > INT_MAX
  {
    var t := Tiles(0x20_0000, 0x20_0000, 256, 1, 1, 2, 2, 2);
    HostLayoutExact(t, true);
    HostLayoutExact(t, false);
    hide HostLayout;
  }

  lemma TermsWithin(step: nat, steps: nat, part: nat, waves: nat, bytes: nat, limit: nat)
    requires step < steps && part < waves && bytes > 0 && waves * bytes * steps <= limit
    ensures step * waves <= step * waves * bytes <= limit && part * bytes + bytes <= limit
  {
    MixedRadix.AtLeastOnce(bytes, step * waves);
    MixedRadix.Associates(step, waves, bytes);
    NextMultiple(part, waves, bytes);
    NextMultiple(step, steps, waves * bytes);
    MixedRadix.AtLeastOnce(steps, waves * bytes);
  }

  // ------------------------------------------------------------------- DMA staging

  /** `n` bytes of `lds` from `base` are those of `source` from `from`. */
  predicate Copied(lds: seq<Byte>, base: nat, source: seq<Byte>, from: nat, n: nat) {
    && base + n <= |lds| && from + n <= |source|
    && forall i | base <= i < base + n :: lds[i] == source[i - base + from]
  }

  /** An LDS DMA of `bytes` per lane: lane x writes at `dest + bytes * x`. */
  method DmaLoadLds(lds: array<Byte>, dest: nat, source: seq<Byte>, offset: nat, bytes: nat)
    requires dest + 64 * bytes <= lds.Length && offset + 64 * bytes <= |source|
    modifies lds
    ensures Copied(lds[..], dest, source, offset, 64 * bytes)
    ensures Unchanged(old(lds[..]), lds[..], dest, dest + 64 * bytes)
  {
    ghost var done := 0;
    for lane := 0 to 64
      invariant done == lane * bytes
      invariant Copied(lds[..], dest, source, offset, done) && Unchanged(old(lds[..]), lds[..], dest, dest + done)
    {
      MixedRadix.Monotone(lane + 1, 64, bytes);
      assert (lane + 1) * bytes == lane * bytes + bytes;
      for j := 0 to bytes
        invariant done == lane * bytes + j
        invariant Copied(lds[..], dest, source, offset, done) && Unchanged(old(lds[..]), lds[..], dest, dest + done)
      {
        ghost var before := lds[..];
        lds[dest + lane * bytes + j] := source[offset + lane * bytes + j];
        OneMoreByte(before, lds[..], source, dest, offset, done);
        done := done + 1;
      }
    }
  }

  lemma OneMoreByte(before: seq<Byte>, after: seq<Byte>, source: seq<Byte>, base: nat, from: nat, n: nat)
    requires Copied(before, base, source, from, n) && base + n < |before| && from + n < |source|
    requires after == before[base + n := source[from + n]]
    ensures Copied(after, base, source, from, n + 1) && Unchanged(before, after, base + n, base + n + 1)
  {}

  /** Where a partition's bytes start in the pre-swizzled buffer. */
  function SourceBase(l: Layout, cta: nat, step: nat, part: nat): nat {
    cta * l.CtaBytes() + step * l.StepBytes() + part * l.PartitionBytes()
  }

  /**
   `_tensilelite_scale_dma_requests` for one operand of one wave, with the DMAs carried out: runs
   of four groups while four are left, then single groups.
   */
  method StageTensileLite(l: Layout, lds: array<Byte>, packed: seq<Byte>, ghost canonical: seq<Byte>, cta: nat,
                          step: nat, part: nat)
    requires l.Valid() && lds.Length == 2 * l.StepBytes() && HostBuilt(l, packed, canonical)
    requires l.nBlocks > 0 && cta < l.Ctas() && step < l.steps && part < l.blockWaves
    modifies lds
    ensures Staged(l, lds[..], canonical, BlockOf(l, cta), step, part, l.Groups())
    ensures Unchanged(old(lds[..]), lds[..], PartitionBase(l, step, part),
                      PartitionBase(l, step, part) + l.PartitionBytes())
  {
    SourceBound(l, cta, step, part);
    PartitionBound(l, step, part);
    CopyGroups(lds, packed, PartitionBase(l, step, part), SourceBase(l, cta, step, part), l.Groups());
    CopiedIsStaged(l, lds[..], packed, canonical, cta, step, part);
  }

  /** The chunk loop: requests of sixteen or four bytes per lane. */
  method CopyGroups(lds: array<Byte>, source: seq<Byte>, base: nat, from: nat, groups: nat)
    requires base + groups * 256 <= lds.Length && from + groups * 256 <= |source|
    modifies lds
    ensures Copied(lds[..], base, source, from, groups * 256)
    ensures Unchanged(old(lds[..]), lds[..], base, base + groups * 256)
  {
    var group := 0;
    while group < groups
      invariant 0 <= group <= groups
      invariant Copied(lds[..], base, source, from, group * 256)
      invariant Unchanged(old(lds[..]), lds[..], base, base + group * 256)
    {
      var chunk := if groups - group >= 4 then 4 else 1;
      ghost var before := lds[..];
      DmaLoadLds(lds, base + group * 256, source, from + group * 256, chunk * 4);
      Extended(before, lds[..], source, base, from, group * 256, chunk * 256);
      group := group + chunk;
    }
  }

  lemma Extended(before: seq<Byte>, after: seq<Byte>, source: seq<Byte>, base: nat, from: nat, done: nat, more: nat)
    requires Copied(before, base, source, from, done) && Copied(after, base + done, source, from + done, more)
    requires Unchanged(before, after, base + done, base + done + more)
    ensures Copied(after, base, source, from, done + more)
  {}

  /** The range declared for a pre-swizzled source is true: a partition's run lies inside the buffer. */
  lemma SourceBound(l: Layout, cta: nat, step: nat, part: nat)
    requires cta < l.Ctas() && step < l.steps && part < l.blockWaves
    ensures SourceBase(l, cta, step, part) + l.PartitionBytes() <= l.Ctas() * l.CtaBytes()
  {
    hide Layout.Ctas, Layout.PartitionBytes;
    NextMultiple(part, l.blockWaves, l.PartitionBytes());
    assert (part + 1) * l.PartitionBytes() <= l.StepBytes();
    hide Layout.StepBytes;
    NextMultiple(step, l.steps, l.StepBytes());
    assert (step + 1) * l.StepBytes() <= l.CtaBytes();
    hide Layout.CtaBytes;
    NextMultiple(cta, l.Ctas(), l.CtaBytes());
  }

  lemma NextMultiple(i: nat, n: nat, size: nat)
    requires i < n
    ensures i * size + size == (i + 1) * size <= n * size
  {
    MixedRadix.Monotone(i + 1, n, size);
  }

  /** A copied partition of a host buffer is a canonically staged one. */
  lemma CopiedIsStaged(l: Layout, lds: seq<Byte>, packed: seq<Byte>, canonical: seq<Byte>, cta: nat, step: nat,
                       part: nat)
    requires l.Valid() && |lds| == 2 * l.StepBytes() && HostBuilt(l, packed, canonical)
    requires l.nBlocks > 0 && cta < l.Ctas() && step < l.steps && part < l.blockWaves
    requires Copied(lds, PartitionBase(l, step, part), packed, SourceBase(l, cta, step, part), l.PartitionBytes())
    ensures Staged(l, lds, canonical, BlockOf(l, cta), step, part, l.Groups())
  {
    SizesPositive(l);
    BlockInRange(l, cta);
    hide Layout.Valid, Layout.StepBytes, Layout.Ctas, Layout.CtaBytes, Layout.Groups, CanonicalIndex, PartitionBase,
         Layout.KGroups, BlockOf;
    forall group, lane, sel | 0 <= group < l.Groups() && 0 <= lane < 64 && 0 <= sel < 4
      ensures ByteStaged(l, lds, canonical, Digits(BlockOf(l, cta), step, part, group, lane, sel))
    {
      var d := Digits(BlockOf(l, cta), step, part, group, lane, sel);
      assert HostByte(l, packed, canonical, cta, d);
      GroupInPartition(l, group);
      var y := group * 256 + lane * 4 + sel;
      assert HostIndex(l, cta, d) == SourceBase(l, cta, step, part) + y;
      assert ByteAt(l, d) == PartitionBase(l, step, part) + y;
    }
  }

  lemma BlockInRange(l: Layout, cta: nat)
    requires l.nBlocks > 0 && cta < l.Ctas()
    ensures BlockOf(l, cta) < l.Blocks()
  {
    MixedRadix.Compose(cta, l.mBlocks, l.nBlocks);
  }
}
