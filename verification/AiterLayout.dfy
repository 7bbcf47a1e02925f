/** The host shuffles for the AITER input layout: packed B bytes, and block scales into a padded buffer. */
module AiterLayout {
  import MixedRadix
  import opened Prelude
  import opened CheckedArith

  // ------------------------------------------------------------------------ B

  function BCompose(rowBlock: nat, kBlock: nat, half: nat, rowInner: nat, byte: nat, kBlocks: nat): nat {
    ((rowBlock * kBlocks + kBlock) * 2 + half) * 256 + rowInner * 16 + byte
  }

  /** Destination of byte `kByte` of row `row`, as the loop of `makeAITERBBytes` computes it. */
  function BDst(row: nat, kByte: nat, kBlocks: nat): nat {
    var kInner := kByte % 32;
    BCompose(row / 16, kByte / 32, kInner / 16, row % 16, kInner % 16, kBlocks)
  }

  /** The row and the byte of it stored at a destination. */
  function BRow(dst: nat, kBlocks: nat): nat
    requires kBlocks > 0
  {
    dst / 512 / kBlocks * 16 + dst % 512 % 256 / 16
  }

  function BByte(dst: nat, kBlocks: nat): nat
    requires kBlocks > 0
  {
    dst / 512 % kBlocks * 32 + (dst % 512 / 256 * 16 + dst % 512 % 256 % 16)
  }

  /** Digits of a position inside a 512-byte block. */
  lemma BLow(half: nat, rowInner: nat, byte: nat)
    requires half < 2 && rowInner < 16 && byte < 16
    ensures var low := half * 256 + rowInner * 16 + byte;
            low < 512 && low / 256 == half && low % 256 / 16 == rowInner && low % 256 % 16 == byte
  {
    MixedRadix.Split(half, rowInner * 16 + byte, 256);
    MixedRadix.Split(rowInner, byte, 16);
  }

  lemma BSize(rows: nat, kBlocks: nat)
    requires rows % 16 == 0
    ensures rows / 16 * kBlocks * 512 == rows * (kBlocks * 32)
  {
    assert rows == rows / 16 * 16;
    assert rows / 16 * 16 * (kBlocks * 32) == rows / 16 * kBlocks * 512;
  }

  /** The shuffle stays in range and its explicit inverse undoes it. */
  lemma BForth(row: nat, kByte: nat, rows: nat, kBlocks: nat)
    requires row < rows && rows % 16 == 0 && kByte < kBlocks * 32
    ensures kBlocks > 0 && BDst(row, kByte, kBlocks) < rows * (kBlocks * 32)
    ensures BRow(BDst(row, kByte, kBlocks), kBlocks) == row && BByte(BDst(row, kByte, kBlocks), kBlocks) == kByte
  {
    var rb, kb, half, ri, byte := row / 16, kByte / 32, kByte % 32 / 16, row % 16, kByte % 32 % 16;
    var block, low := rb * kBlocks + kb, half * 256 + ri * 16 + byte;
    BSize(rows, kBlocks);
    BLow(half, ri, byte);
    MixedRadix.Below(rb, rows / 16, kb, kBlocks);
    MixedRadix.Split(rb, kb, kBlocks);
    MixedRadix.Split(block, low, 512);
    MixedRadix.Below(block, rows / 16 * kBlocks, low, 512);
    assert BDst(row, kByte, kBlocks) == block * 512 + low;
    hide BDst;
  }

  /** And undoing it first gives the destination back: the shuffle is a permutation. */
  lemma BBack(dst: nat, rows: nat, kBlocks: nat)
    requires rows % 16 == 0 && dst < rows * (kBlocks * 32)
    ensures kBlocks > 0 && BRow(dst, kBlocks) < rows && BByte(dst, kBlocks) < kBlocks * 32
    ensures BDst(BRow(dst, kBlocks), BByte(dst, kBlocks), kBlocks) == dst
  {
    BSize(rows, kBlocks);
    var block, low := dst / 512, dst % 512;
    MixedRadix.Compose(dst, rows / 16 * kBlocks, 512);
    MixedRadix.Compose(block, rows / 16, kBlocks);
    BParts(block / kBlocks, block % kBlocks, low / 256, low % 256 / 16, low % 256 % 16, kBlocks);
    hide BDst, BCompose;
  }

  /** Composing row and byte from digits and shuffling them is composing the destination from those digits. */
  lemma BParts(rb: nat, kb: nat, half: nat, ri: nat, byte: nat, kBlocks: nat)
    requires half < 2 && ri < 16 && byte < 16
    ensures BDst(rb * 16 + ri, kb * 32 + (half * 16 + byte), kBlocks)
            == (rb * kBlocks + kb) * 512 + (half * 256 + ri * 16 + byte)
  {
    MixedRadix.Split(rb, ri, 16);
    MixedRadix.Split(kb, half * 16 + byte, 32);
    MixedRadix.Split(half, byte, 16);
  }

  /** Position in the canonical array of the byte stored at `dst`. */
  function BSrc(dst: nat, kBlocks: nat): nat
    requires kBlocks > 0
  {
    BRow(dst, kBlocks) * (kBlocks * 32) + BByte(dst, kBlocks)
  }

  lemma BSrcInRange(dst: nat, rows: nat, kBlocks: nat)
    requires rows % 16 == 0 && dst < rows * (kBlocks * 32)
    ensures kBlocks > 0 && BSrc(dst, kBlocks) < rows * (kBlocks * 32)
  {
    BBack(dst, rows, kBlocks);
    MixedRadix.Below(BRow(dst, kBlocks), rows, BByte(dst, kBlocks), kBlocks * 32);
  }

  /** Destinations of bytes before `src` in row-major order hold their byte. */
  ghost predicate BFilled(shuffled: seq<Byte>, canonical: seq<Byte>, kBlocks: nat, src: nat)
    requires kBlocks > 0
  {
    && |shuffled| == |canonical|
    && forall dst | 0 <= dst < |shuffled| ::
         && BSrc(dst, kBlocks) < |canonical|
         && (BSrc(dst, kBlocks) < src ==> shuffled[dst] == canonical[BSrc(dst, kBlocks)])
  }

  /** One store of the loop fills exactly the destination of the next source byte. */
  lemma BStored(before: seq<Byte>, after: seq<Byte>, canonical: seq<Byte>, rows: nat, kBlocks: nat, row: nat,
                kByte: nat)
    requires kBlocks > 0 && rows % 16 == 0 && row < rows && kByte < kBlocks * 32
    requires |canonical| == rows * (kBlocks * 32) && BFilled(before, canonical, kBlocks, row * (kBlocks * 32) + kByte)
    requires row * (kBlocks * 32) + kByte < |canonical| && BDst(row, kByte, kBlocks) < |before|
    requires after == before[BDst(row, kByte, kBlocks) := canonical[row * (kBlocks * 32) + kByte]]
    ensures BFilled(after, canonical, kBlocks, row * (kBlocks * 32) + kByte + 1)
  {
    hide BDst, BRow, BByte;
    forall dst | 0 <= dst < |after|
      ensures BSrc(dst, kBlocks) == row * (kBlocks * 32) + kByte ==> dst == BDst(row, kByte, kBlocks)
    {
      BBack(dst, rows, kBlocks);
      if BSrc(dst, kBlocks) == row * (kBlocks * 32) + kByte {
        MixedRadix.Unique(BRow(dst, kBlocks), BByte(dst, kBlocks), row, kByte, kBlocks * 32);
      }
    }
    BForth(row, kByte, rows, kBlocks);
    hide BSrc;
  }

  /** One byte of a shuffled buffer is one byte of the canonical one. */
  predicate Holds(shuffled: seq<Byte>, at: nat, canonical: seq<Byte>, from: nat) {
    at < |shuffled| && from < |canonical| && shuffled[at] == canonical[from]
  }

  /** What `ShuffleB` leaves in its result. */
  ghost predicate BShuffled(shuffled: seq<Byte>, canonical: seq<Byte>, kBlocks: nat)
    requires kBlocks > 0
  {
    && |shuffled| == |canonical|
    && forall dst | 0 <= dst < |shuffled| :: Holds(shuffled, dst, canonical, BSrc(dst, kBlocks))
  }

  /** `makeAITERBBytes`: destination `dst` ends up with the byte its inverse names, for every destination. */
  method ShuffleB(canonical: seq<Byte>, n: nat, k: nat) returns (r: Checked<seq<Byte>>)
    requires 0 < k && |canonical| == n * (k / 2)
    ensures r.Value? <==> k % 2 == 0 && n % 16 == 0 && k / 2 % 32 == 0
    ensures r.Value? ==> k / 2 / 32 > 0 && BShuffled(r.value, canonical, k / 2 / 32)
  {
    if k % 2 != 0 || n % 16 != 0 || k / 2 % 32 != 0 {
      return Died;
    }
    var storageK := k / 2;
    var kBlocks := storageK / 32;
    assert storageK == kBlocks * 32;
    var shuffled := new Byte[|canonical|](_ => 0);
    forall dst | 0 <= dst < |canonical| ensures BSrc(dst, kBlocks) < |canonical| {
      BSrcInRange(dst, n, kBlocks);
    }
    hide BDst, BSrc;
    ghost var src := 0;
    for row := 0 to n
      invariant src == row * storageK && BFilled(shuffled[..], canonical, kBlocks, src)
    {
      for kByte := 0 to storageK
        invariant src == row * storageK + kByte && BFilled(shuffled[..], canonical, kBlocks, src)
      {
        BForth(row, kByte, n, kBlocks);
        MixedRadix.Below(row, n, kByte, storageK);
        ghost var before := shuffled[..];
        shuffled[BDst(row, kByte, kBlocks)] := canonical[row * storageK + kByte];
        BStored(before, shuffled[..], canonical, n, kBlocks, row, kByte);
        src := src + 1;
      }
      assert (row + 1) * storageK == row * storageK + storageK;
    }
    return Value(shuffled[..]);
  }

  // -------------------------------------------------------------------- scales

  function ScaleCompose(rowBlock: nat, rowHalf: nat, rowLane: nat, groupBlock: nat, groupHalf: nat, groupLane: nat,
                        groupBlocks: nat): nat
  {
    (rowBlock * groupBlocks + groupBlock) * 256 + groupLane * 64 + rowLane * 4 + groupHalf * 2 + rowHalf
  }

  /** Destination of the scale of (row, group), as the loop of `makeAITERScaleBytes` computes it. */
  function ScaleDst(row: nat, group: nat, groupBlocks: nat): nat {
    var rowInner, groupInner := row % 32, group % 8;
    ScaleCompose(row / 32, rowInner / 16, rowInner % 16, group / 8, groupInner / 4, groupInner % 4, groupBlocks)
  }

  function ScaleRow(dst: nat, groupBlocks: nat): nat
    requires groupBlocks > 0
  {
    var low := dst % 256;
    dst / 256 / groupBlocks * 32 + (low % 64 % 4 % 2 * 16 + low % 64 / 4)
  }

  function ScaleGroup(dst: nat, groupBlocks: nat): nat
    requires groupBlocks > 0
  {
    var low := dst % 256;
    dst / 256 % groupBlocks * 8 + (low % 64 % 4 / 2 * 4 + low / 64)
  }

  lemma ScaleLow(groupLane: nat, rowLane: nat, groupHalf: nat, rowHalf: nat)
    requires groupLane < 4 && rowLane < 16 && groupHalf < 2 && rowHalf < 2
    ensures var low := groupLane * 64 + rowLane * 4 + groupHalf * 2 + rowHalf;
            && low < 256 && low / 64 == groupLane && low % 64 / 4 == rowLane
            && low % 64 % 4 / 2 == groupHalf && low % 64 % 4 % 2 == rowHalf
  {
    MixedRadix.Split(groupLane, rowLane * 4 + groupHalf * 2 + rowHalf, 64);
    MixedRadix.Split(rowLane, groupHalf * 2 + rowHalf, 4);
    MixedRadix.Split(groupHalf, rowHalf, 2);
  }

  /** Every (row, group) decodes back from its destination, which lies in the block of its 32 rows and 8 groups. */
  lemma ScaleForth(row: nat, group: nat, groupBlocks: nat)
    requires group < groupBlocks * 8
    ensures groupBlocks > 0
    ensures ScaleRow(ScaleDst(row, group, groupBlocks), groupBlocks) == row
    ensures ScaleGroup(ScaleDst(row, group, groupBlocks), groupBlocks) == group
    ensures ScaleDst(row, group, groupBlocks) / 256 == row / 32 * groupBlocks + group / 8
  {
    var block := row / 32 * groupBlocks + group / 8;
    var low := group % 8 % 4 * 64 + row % 32 % 16 * 4 + group % 8 / 4 * 2 + row % 32 / 16;
    ScaleLow(group % 8 % 4, row % 32 % 16, group % 8 / 4, row % 32 / 16);
    MixedRadix.Split(block, low, 256);
    MixedRadix.Split(row / 32, group / 8, groupBlocks);
    assert ScaleDst(row, group, groupBlocks) == block * 256 + low;
    hide ScaleDst;
  }

  /** And every destination is that of the (row, group) it decodes to: the shuffle is injective. */
  lemma ScaleBack(dst: nat, groupBlocks: nat)
    requires groupBlocks > 0
    ensures ScaleDst(ScaleRow(dst, groupBlocks), ScaleGroup(dst, groupBlocks), groupBlocks) == dst
    ensures ScaleGroup(dst, groupBlocks) < groupBlocks * 8
    ensures ScaleRow(dst, groupBlocks) / 32 == dst / 256 / groupBlocks
  {
    var block, low := dst / 256, dst % 256;
    MixedRadix.Compose(block, block + 1, groupBlocks);
    ScaleParts(block / groupBlocks, low % 64 % 4 % 2, low % 64 / 4, block % groupBlocks, low % 64 % 4 / 2, low / 64,
               groupBlocks);
    LowDigits(low);
    hide ScaleDst;
  }

  lemma LowDigits(low: nat)
    requires low < 256
    ensures low == low / 64 * 64 + low % 64 / 4 * 4 + low % 64 % 4 / 2 * 2 + low % 64 % 4 % 2
  {}

  lemma ScaleParts(rb: nat, rh: nat, rl: nat, gb: nat, gh: nat, gl: nat, groupBlocks: nat)
    requires rh < 2 && rl < 16 && gh < 2 && gl < 4
    ensures (rb * 32 + (rh * 16 + rl)) / 32 == rb
    ensures ScaleDst(rb * 32 + (rh * 16 + rl), gb * 8 + (gh * 4 + gl), groupBlocks)
            == (rb * groupBlocks + gb) * 256 + gl * 64 + rl * 4 + gh * 2 + rh
  {
    MixedRadix.Split(rb, rh * 16 + rl, 32);
    MixedRadix.Split(rh, rl, 16);
    MixedRadix.Split(gb, gh * 4 + gl, 8);
    MixedRadix.Split(gh, gl, 4);
  }

  predicate Before(row: nat, group: nat, row': nat, group': nat) {
    row < row' || (row == row' && group < group')
  }

  /** What a destination holds once the (row, group) pairs before the given one are placed. */
  function ScaleTarget(canonical: seq<Byte>, rows: nat, groups: nat, groupBlocks: nat, dst: nat, row: nat,
                       group: nat): Byte
    requires groupBlocks > 0 && |canonical| == groups * rows
  {
    var r, g := ScaleRow(dst, groupBlocks), ScaleGroup(dst, groupBlocks);
    if r < rows && g < groups && Before(r, g, row, group) then ScaleOf(canonical, rows, groups, r, g) else 0x7f
  }

  /** The canonical scales are stored group by group. */
  function ScaleOf(canonical: seq<Byte>, rows: nat, groups: nat, row: nat, group: nat): Byte
    requires |canonical| == groups * rows && row < rows && group < groups
  {
    MixedRadix.Below(group, groups, row, rows);
    canonical[group * rows + row]
  }

  ghost predicate ScalesPlaced(shuffled: seq<Byte>, canonical: seq<Byte>, rows: nat, groups: nat, groupBlocks: nat,
                               row: nat, group: nat)
    requires groupBlocks > 0 && |canonical| == groups * rows
  {
    forall dst | 0 <= dst < |shuffled| ::
      shuffled[dst] == ScaleTarget(canonical, rows, groups, groupBlocks, dst, row, group)
  }

  lemma ScaleStored(before: seq<Byte>, after: seq<Byte>, canonical: seq<Byte>, rows: nat, groups: nat, groupBlocks: nat,
                    row: nat, group: nat)
    requires groupBlocks > 0 && |canonical| == groups * rows && row < rows && group < groups <= groupBlocks * 8
    requires ScalesPlaced(before, canonical, rows, groups, groupBlocks, row, group)
    requires group * rows + row < |canonical| && ScaleDst(row, group, groupBlocks) < |before|
    requires after == before[ScaleDst(row, group, groupBlocks) := canonical[group * rows + row]]
    ensures ScalesPlaced(after, canonical, rows, groups, groupBlocks, row, group + 1)
  {
    hide ScaleDst, ScaleRow, ScaleGroup;
    ScaleForth(row, group, groupBlocks);
    forall dst | 0 <= dst < |after|
      ensures after[dst] == ScaleTarget(canonical, rows, groups, groupBlocks, dst, row, group + 1)
    {
      ScaleBack(dst, groupBlocks);
      assert before[dst] == ScaleTarget(canonical, rows, groups, groupBlocks, dst, row, group);
    }
  }

  lemma NextRow(shuffled: seq<Byte>, canonical: seq<Byte>, rows: nat, groups: nat, groupBlocks: nat, row: nat)
    requires groupBlocks > 0 && |canonical| == groups * rows
    requires ScalesPlaced(shuffled, canonical, rows, groups, groupBlocks, row, groups)
    ensures ScalesPlaced(shuffled, canonical, rows, groups, groupBlocks, row + 1, 0)
  {
    hide ScaleRow, ScaleGroup;
    forall dst | 0 <= dst < |shuffled|
      ensures shuffled[dst] == ScaleTarget(canonical, rows, groups, groupBlocks, dst, row + 1, 0)
    {
      assert shuffled[dst] == ScaleTarget(canonical, rows, groups, groupBlocks, dst, row, groups);
    }
  }

  /** Padded sizes, or the check that fails first. */
  function PaddedSizes(rows: nat, k: nat): Checked<(nat, nat)>
    requires 0 < rows <= INT_MAX && 0 < k <= INT_MAX
  {
    var groups :- DivExact(k, 32);
    QuotientBound(k, groups);
    var paddedRows :- CheckedAlignUp(rows, 256);
    var paddedGroups :- CheckedAlignUp(groups, 8);
    var elements :- CheckedProduct(paddedRows, paddedGroups);
    if elements > UINT32_MAX then Died else Value((paddedRows, paddedGroups))
  }

  /** The least multiple of `size` that is not below. */
  function Padded(value: nat, size: nat): (r: nat)
    requires size > 0
    ensures r % size == 0 && value <= r < value + size
  {
    WholeBlocks(value + (size - 1), size);
    (value + (size - 1)) / size * size
  }

  lemma WholeBlocks(x: nat, size: nat)
    requires size > 0
    ensures x / size * size % size == 0 && x / size * size <= x < x / size * size + size
  {
    MixedRadix.Split(x / size, 0, size);
    assert x == x / size * size + x % size;
  }

  lemma OneMultiple(x: nat, y: nat, value: nat, size: nat)
    requires size > 0 && x % size == 0 && y % size == 0
    requires value <= x < value + size && value <= y < value + size
    ensures x == y
  {
    MixedRadix.ExactQuotient(x, size);
    MixedRadix.ExactQuotient(y, size);
    var p, q := x / size, y / size;
    if p < q {
      MixedRadix.Monotone(p + 1, q, size);
      MixedRadix.Distributes(p, 1, size);
    } else if q < p {
      MixedRadix.Monotone(q + 1, p, size);
      MixedRadix.Distributes(q, 1, size);
    }
  }

  lemma AlignsUp(value: nat, size: nat)
    requires value <= INT_MAX && 0 < size <= INT_MAX
    ensures CheckedAlignUp(value, size) == if Padded(value, size) <= INT_MAX then Value(Padded(value, size)) else Died
  {
    var r := CheckedAlignUp(value, size);
    hide CheckedAlignUp, Padded;
    if r.Value? {
      OneMultiple(r.value, Padded(value, size), value, size);
    }
  }

  /** Padding succeeds if and only if K is a whole number of groups and the padded buffer has a 32-bit size. */
  lemma PaddedSizesExact(rows: nat, k: nat)
    requires 0 < rows <= INT_MAX && 0 < k <= INT_MAX
    ensures PaddedSizes(rows, k) ==
            if k % 32 == 0 && Padded(rows, 256) * Padded(k / 32, 8) <= UINT32_MAX
            then Value((Padded(rows, 256), Padded(k / 32, 8))) else Died
  {
    if k % 32 == 0 {
      MixedRadix.ExactQuotient(k, 32);
      assert DivExact(k, 32) == Value(k / 32);
      AlignsUp(rows, 256);
      AlignsUp(k / 32, 8);
      hide CheckedAlignUp, Padded, DivExact;
      RowsFit(Padded(rows, 256), Padded(k / 32, 8));
    }
  }

  lemma RowsFit(rows: nat, groups: nat)
    requires groups % 8 == 0 && groups > 0
    ensures rows * groups <= UINT32_MAX ==> rows <= INT_MAX
  {
    MixedRadix.Monotone(8, groups, rows);
  }

  lemma QuotientBound(k: nat, groups: int)
    requires groups * 32 == k
    ensures 0 <= groups <= k
  {}

  lemma ScaleDstInRange(row: nat, group: nat, paddedRows: nat, groupBlocks: nat)
    requires row < paddedRows && paddedRows % 32 == 0 && group < groupBlocks * 8
    ensures ScaleDst(row, group, groupBlocks) < paddedRows * (groupBlocks * 8)
  {
    ScaleForth(row, group, groupBlocks);
    hide ScaleDst;
    MixedRadix.Below(row / 32, paddedRows / 32, group / 8, groupBlocks);
    PaddedProduct(paddedRows / 32, groupBlocks);
  }

  lemma PaddedProduct(rowBlocks: nat, groupBlocks: nat)
    ensures rowBlocks * 32 * (groupBlocks * 8) == rowBlocks * groupBlocks * 256
  {}

  /** `makeAITERScaleBytes`: every canonical scale lands at its own place, and 0x7f exactly everywhere else. */
  method ShuffleScales(canonical: seq<Byte>, rows: nat, k: nat) returns (r: Checked<seq<Byte>>)
    requires 0 < rows <= INT_MAX && 0 < k <= INT_MAX && |canonical| == k / 32 * rows
    ensures r.Value? <==> k % 32 == 0 && Padded(rows, 256) * Padded(k / 32, 8) <= UINT32_MAX
    ensures r.Value? ==> var (paddedRows, paddedGroups) := (Padded(rows, 256), Padded(k / 32, 8));
      |r.value| == paddedRows * paddedGroups && paddedGroups / 8 > 0 && k / 32 <= paddedGroups
      && ScalesPlaced(r.value, canonical, rows, k / 32, paddedGroups / 8, rows, 0)
  {
    PaddedSizesExact(rows, k);
    hide Padded;
    var sizes := PaddedSizes(rows, k);
    if sizes.Died? {
      return Died;
    }
    var (paddedRows, paddedGroups) := sizes.value;
    PaddedFacts(rows, k);
    hide PaddedSizes, ScalesPlaced;
    var shuffled := new Byte[paddedRows * paddedGroups](_ => 0x7f);
    FillScales(shuffled, canonical, rows, k / 32, paddedRows, paddedGroups / 8);
    return Value(shuffled[..]);
  }

  /** The loop of `makeAITERScaleBytes`. */
  method FillScales(shuffled: array<Byte>, canonical: seq<Byte>, rows: nat, groups: nat, paddedRows: nat,
                    groupBlocks: nat)
    requires groupBlocks > 0 && |canonical| == groups * rows && rows <= paddedRows && paddedRows % 32 == 0
    requires groups <= groupBlocks * 8 && shuffled.Length == paddedRows * (groupBlocks * 8)
    requires forall dst | 0 <= dst < shuffled.Length :: shuffled[dst] == 0x7f
    modifies shuffled
    ensures ScalesPlaced(shuffled[..], canonical, rows, groups, groupBlocks, rows, 0)
  {
    hide ScaleDst, ScaleRow, ScaleGroup;
    for row := 0 to rows
      invariant ScalesPlaced(shuffled[..], canonical, rows, groups, groupBlocks, row, 0)
    {
      hide ScaleTarget;
      for group := 0 to groups
        invariant ScalesPlaced(shuffled[..], canonical, rows, groups, groupBlocks, row, group)
      {
        ScaleDstInRange(row, group, paddedRows, groupBlocks);
        MixedRadix.Below(group, groups, row, rows);
        ghost var before := shuffled[..];
        shuffled[ScaleDst(row, group, groupBlocks)] := canonical[group * rows + row];
        ScaleStored(before, shuffled[..], canonical, rows, groups, groupBlocks, row, group);
      }
      NextRow(shuffled[..], canonical, rows, groups, groupBlocks, row);
    }
  }

  lemma PaddedFacts(rows: nat, k: nat)
    requires 0 < rows <= INT_MAX && 0 < k <= INT_MAX && PaddedSizes(rows, k).Value?
    ensures var (paddedRows, paddedGroups) := PaddedSizes(rows, k).value;
            && rows <= paddedRows && paddedRows % 32 == 0 && 0 < k / 32 <= paddedGroups
            && paddedGroups == paddedGroups / 8 * 8 && paddedGroups / 8 > 0
            && CheckedAlignUp(k / 32, 8) == Value(paddedGroups)
  {
    assert DivExact(k, 32).value == k / 32;
    var paddedRows := CheckedAlignUp(rows, 256).value;
    hide CheckedProduct, CheckedAlignUp, DivExact;
    EvenBlocks(paddedRows);
  }

  lemma EvenBlocks(paddedRows: nat)
    requires paddedRows % 256 == 0
    ensures paddedRows % 32 == 0
  {
    assert paddedRows == paddedRows / 256 * 256;
    MixedRadix.Split(paddedRows / 256 * 8, 0, 32);
  }

  /** `getActiveAITERScaleBlockCount` */
  function ActiveBlockCount(rows: nat, k: nat): Checked<nat>
    requires 0 < rows <= INT_MAX && 0 < k <= INT_MAX
  {
    var groups :- DivExact(k, 32);
    QuotientBound(k, groups);
    var paddedRows :- CheckedAlignUp(rows, 32);
    var paddedGroups :- CheckedAlignUp(groups, 8);
    Value(paddedRows / 32 * (paddedGroups / 8))
  }

  /** Some canonical scale is stored in the 256-byte block. */
  ghost predicate BlockUsed(block: nat, rows: nat, groups: nat, groupBlocks: nat) {
    exists row, group | 0 <= row < rows && 0 <= group < groups :: ScaleDst(row, group, groupBlocks) / 256 == block
  }

  /** A 256-byte block holds a canonical scale exactly when its index is below the active count. */
  lemma ActiveBlocksExact(rows: nat, k: nat, block: nat)
    requires 0 < rows <= INT_MAX && 0 < k <= INT_MAX
    requires PaddedSizes(rows, k).Value?
    ensures ActiveBlockCount(rows, k).Value?
    ensures BlockUsed(block, rows, k / 32, PaddedSizes(rows, k).value.1 / 8)
            <==> block < ActiveBlockCount(rows, k).value
  {
    PaddedFacts(rows, k);
    EvenBlocks(CheckedAlignUp(rows, 256).value);
    var groups, groupBlocks := k / 32, PaddedSizes(rows, k).value.1 / 8;
    var rowBlocks := CheckedAlignUp(rows, 32).value / 32;
    assert CheckedAlignUp(rows, 32).value == rowBlocks * 32 && (rowBlocks - 1) * 32 < rows <= rowBlocks * 32;
    assert CheckedAlignUp(groups, 8) == Value(groupBlocks * 8) && (groupBlocks - 1) * 8 < groups <= groupBlocks * 8;
    assert ActiveBlockCount(rows, k).value == rowBlocks * groupBlocks by {
      assert DivExact(k, 32).value == groups;
    }
    hide PaddedSizes, ActiveBlockCount, CheckedAlignUp, ScaleDst;
    UsedIsActive(rows, groups, rowBlocks, groupBlocks, block);
  }

  lemma UsedIsActive(rows: nat, groups: nat, rowBlocks: nat, groupBlocks: nat, block: nat)
    requires 0 < rowBlocks && 0 < groupBlocks
    requires (rowBlocks - 1) * 32 < rows <= rowBlocks * 32 && (groupBlocks - 1) * 8 < groups <= groupBlocks * 8
    ensures BlockUsed(block, rows, groups, groupBlocks) <==> block < rowBlocks * groupBlocks
  {
    hide ScaleDst;
    if BlockUsed(block, rows, groups, groupBlocks) {
      var row, group :| 0 <= row < rows && 0 <= group < groups && ScaleDst(row, group, groupBlocks) / 256 == block;
      ScaleForth(row, group, groupBlocks);
      MixedRadix.Below(row / 32, rowBlocks, group / 8, groupBlocks);
    }
    if block < rowBlocks * groupBlocks {
      FirstOfBlock(block, rowBlocks, groupBlocks);
    }
  }

  /** The first scale of an active block. */
  lemma FirstOfBlock(block: nat, rowBlocks: nat, groupBlocks: nat)
    requires block < rowBlocks * groupBlocks
    ensures groupBlocks > 0 && block / groupBlocks < rowBlocks && block % groupBlocks < groupBlocks
    ensures ScaleDst(block / groupBlocks * 32, block % groupBlocks * 8, groupBlocks) / 256 == block
  {
    hide ScaleDst;
    var rb, gb := MixedRadix.Digits(block, rowBlocks, groupBlocks);
    ScaleForth(rb * 32, gb * 8, groupBlocks);
  }

  // ----------------------------------------------------------- what the kernel reads of them

  /** Offset from which a lane of the kernel loads B (`_aiter_b_fragment_ptrs`): `tile` is its 16-row tile. */
  function BFragmentAt(tile: nat, step: nat, waveK: nat, k: nat, lane: nat, chunksPerRow: nat): nat {
    step * (4 * waveK * 256) + (tile * chunksPerRow + k * 4 + lane / 16) * 256 + lane % 16 * 16
  }

  /** Those are the sixteen bytes of the lane's own row and chunk of the raw K tile. */
  lemma BFragmentIs(tile: nat, step: nat, waveK: nat, k: nat, lane: nat, kBlocks: nat, x: nat)
    requires lane < 64 && x < 16
    ensures BFragmentAt(tile, step, waveK, k, lane, 2 * kBlocks) + x
            == BDst(tile * 16 + lane % 16, (step * waveK + k) * 64 + (lane / 16 * 16 + x), kBlocks)
  {
    var raw, chunk := step * waveK + k, lane / 16;
    var half := chunk % 2;
    BParts(tile, raw * 2 + chunk / 2, half, lane % 16, x, kBlocks);
    assert (raw * 2 + chunk / 2) * 32 + (half * 16 + x) == raw * 64 + (chunk * 16 + x);
    BFragmentStep(step, waveK, k, tile, kBlocks, chunk);
    hide BDst;
  }

  lemma BFragmentStep(step: nat, waveK: nat, k: nat, tile: nat, kBlocks: nat, chunk: nat)
    ensures step * (4 * waveK * 256) + (tile * (2 * kBlocks) + k * 4 + chunk) * 256
            == (tile * kBlocks + ((step * waveK + k) * 2 + chunk / 2)) * 512 + chunk % 2 * 256
  {
    assert step * (4 * waveK * 256) == step * waveK * 1024;
    assert tile * (2 * kBlocks) == 2 * (tile * kBlocks);
  }

  /** Of a shuffled B the kernel reads the packed bytes of its own row and chunk of the raw K tile. */
  lemma KernelReadsB(shuffled: seq<Byte>, canonical: seq<Byte>, n: nat, kBlocks: nat, tile: nat, step: nat, waveK: nat,
                     k: nat, lane: nat, x: nat, row: nat, kByte: nat, from: nat)
    requires from == row * (kBlocks * 32) + kByte
    requires kBlocks > 0 && n % 16 == 0 && |canonical| == n * (kBlocks * 32)
    requires BShuffled(shuffled, canonical, kBlocks)
    requires lane < 64 && x < 16 && row == tile * 16 + lane % 16 && row < n
    requires kByte == (step * waveK + k) * 64 + (lane / 16 * 16 + x) && kByte < kBlocks * 32
    ensures Holds(shuffled, BFragmentAt(tile, step, waveK, k, lane, 2 * kBlocks) + x, canonical, from)
  {
    BFragmentIs(tile, step, waveK, k, lane, kBlocks, x);
    BForth(row, kByte, n, kBlocks);
    BSrcOf(BDst(row, kByte, kBlocks), kBlocks);
    hide BDst, BRow, BByte, BSrc, BFragmentAt;
  }

  lemma BSrcOf(dst: nat, kBlocks: nat)
    requires kBlocks > 0
    ensures BSrc(dst, kBlocks) == BRow(dst, kBlocks) * (kBlocks * 32) + BByte(dst, kBlocks)
  {}

  /**
   Byte of the shuffled scales that reaches lane `lane` with selector `sel`: the DMA copies whole 256-byte blocks in
   order and the lane reads the dword of its own number. `wave` counts the waves of the axis over all workgroups.
   */
  function ScaleReadAt(wave: nat, tiles: nat, i: nat, step: nat, waveK: nat, k: nat, lane: nat, groupBlocks: nat): nat {
    var block := ScaleBlockAt(wave * (tiles / 2) + i / 2, step * (waveK / 2) + k / 2, groupBlocks);
    block * 256 + lane * 4 + (2 * (k % 2) + i % 2)
  }

  function ScaleBlockAt(rowBlock: nat, groupBlock: nat, groupBlocks: nat): nat { rowBlock * groupBlocks + groupBlock }

  /** That is where the host puts the scale of the lane's own row of tile `i` and block of the raw K tile. */
  lemma ScaleReadIs(wave: nat, tiles: nat, i: nat, step: nat, waveK: nat, k: nat, lane: nat, groupBlocks: nat)
    requires tiles % 2 == 0 && waveK % 2 == 0 && lane < 64
    ensures ScaleReadAt(wave, tiles, i, step, waveK, k, lane, groupBlocks)
            == ScaleDst((wave * tiles + i) * 16 + lane % 16, (step * waveK + k) * 4 + lane / 16, groupBlocks)
  {
    var rb, gb := wave * (tiles / 2) + i / 2, step * (waveK / 2) + k / 2;
    ScaleParts(rb, i % 2, lane % 16, gb, k % 2, lane / 16, groupBlocks);
    Paired(wave, tiles, i);
    Paired(step, waveK, k);
    hide ScaleDst;
  }

  lemma Paired(n: nat, size: nat, i: nat)
    requires size % 2 == 0
    ensures n * size + i == (n * (size / 2) + i / 2) * 2 + i % 2
  {
    var half := size / 2;
    assert n * (2 * half) == 2 * (n * half);
  }

  /** Of shuffled scales the kernel's selected byte is the canonical scale of its own row and block. */
  lemma KernelReadsScale(shuffled: seq<Byte>, canonical: seq<Byte>, rows: nat, groups: nat, paddedRows: nat,
                         groupBlocks: nat, wave: nat, tiles: nat, i: nat, step: nat, waveK: nat, k: nat, lane: nat,
                         row: nat, group: nat, from: nat)
    requires from == group * rows + row
    requires groupBlocks > 0 && |canonical| == groups * rows && groups <= groupBlocks * 8 && rows <= paddedRows
    requires paddedRows % 32 == 0 && |shuffled| == paddedRows * (groupBlocks * 8)
    requires ScalesPlaced(shuffled, canonical, rows, groups, groupBlocks, rows, 0)
    requires tiles % 2 == 0 && waveK % 2 == 0 && lane < 64
    requires row == (wave * tiles + i) * 16 + lane % 16 && row < rows
    requires group == (step * waveK + k) * 4 + lane / 16 && group < groups
    ensures Holds(shuffled, ScaleReadAt(wave, tiles, i, step, waveK, k, lane, groupBlocks), canonical, from)
  {
    hide *;
    ScaleReadIs(wave, tiles, i, step, waveK, k, lane, groupBlocks);
    ScaleDstInRange(row, group, paddedRows, groupBlocks);
    PlacedAt(shuffled, canonical, rows, groups, groupBlocks, row, group, from);
  }

  lemma PlacedAt(shuffled: seq<Byte>, canonical: seq<Byte>, rows: nat, groups: nat, groupBlocks: nat, row: nat,
                 group: nat, from: nat)
    requires groupBlocks > 0 && |canonical| == groups * rows && groups <= groupBlocks * 8
    requires ScalesPlaced(shuffled, canonical, rows, groups, groupBlocks, rows, 0) && from == group * rows + row
    requires row < rows && group < groups && ScaleDst(row, group, groupBlocks) < |shuffled|
    ensures Holds(shuffled, ScaleDst(row, group, groupBlocks), canonical, from)
  {
    hide ScaleDst, ScaleRow, ScaleGroup;
    ScaleForth(row, group, groupBlocks);
    MixedRadix.Below(group, groups, row, rows);
    var dst := ScaleDst(row, group, groupBlocks);
    assert shuffled[dst] == ScaleTarget(canonical, rows, groups, groupBlocks, dst, rows, 0);
  }
}
