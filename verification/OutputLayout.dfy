/**
 The tile-packed output: where the kernel stores each accumulator register, and how the runner turns
 a packed index back into a row and a column.
 */
module OutputLayout {
  import MixedRadix
  import Blocking
  import opened CheckedArith

  datatype Coordinate = Coordinate(m: int, n: int)

  /** `TilePackedOutputPlan`, with the block counts it was made from. */
  datatype Plan = Plan(elements: int, m: int, n: int, mBlocks: int, nBlocks: int, bm: int, bn: int,
                       waveM: int, waveN: int, valuesPerLane: int, wmma: bool)
  {
    function MTiles(): int { bm * waveM }
    function NTiles(): int { bn * waveN }
    function WaveTiles(): int { waveM * waveN }
    function WaveElements(): int { WaveTiles() * 256 }
    function CtaElements(): int { bm * bn * WaveElements() }

    /** What `makeTilePackedOutputPlan` guarantees when it does not die. */
    predicate Valid() {
      && mBlocks > 0 && nBlocks > 0 && bm > 0 && bn > 0 && waveM > 0 && waveN > 0
      && m == mBlocks * (MTiles() * 16) && n == nBlocks * (NTiles() * 16)
      && elements == m * n == mBlocks * nBlocks * CtaElements()
      && LanesOk()
    }

    /** WMMA on 32 lanes, or MFMA on 32 or 64. */
    predicate LanesOk() {
      if wmma then valuesPerLane == 8 else valuesPerLane == 4 || valuesPerLane == 8
    }
  }

  // --------------------------------------------------------------- runner's plan

  /** The runner's arguments that matter here, all positive ints by then. */
  datatype Args = Args(m: int, n: int, bm: int, bn: int, waveM: int, waveN: int, waveSize: int, wmma: bool) {
    predicate Positive() {
      && 0 < m <= INT_MAX && 0 < n <= INT_MAX && 0 < bm <= INT_MAX && 0 < bn <= INT_MAX
      && 0 < waveM <= INT_MAX && 0 < waveN <= INT_MAX && 0 < waveSize <= INT_MAX
    }
  }

  function Times(lhs: int, rhs: int): (r: Checked<int>)
    requires lhs > 0 && rhs > 0 && IsInt32(lhs) && IsInt32(rhs)
    ensures r == CheckedIntProduct(lhs, rhs)
    ensures r.Value? ==> r.value == lhs * rhs && 0 < r.value <= INT_MAX
    ensures r.Value? <==> lhs * rhs <= INT_MAX
  {
    CheckedIntProductExact(lhs, rhs);
    CheckedIntProduct(lhs, rhs)
  }

  function DivideExact(num: int, den: int): (r: Checked<int>)
    requires 0 < num <= INT_MAX && den > 0
    ensures r == DivExact(num, den)
    ensures r.Value? ==> r.value * den == num && 0 < r.value <= INT_MAX
    ensures r.Value? <==> num % den == 0
  {
    var r := DivExact(num, den);
    if r.Value? then QuotientRange(r.value, den, num); r else r
  }

  lemma QuotientRange(q: int, den: int, num: int)
    requires den > 0 && num > 0 && q * den == num
    ensures 0 < q <= num
  {
    if q <= 0 {
      MixedRadix.Monotone(0, -q, den);
    } else {
      MixedRadix.Monotone(1, den, q);
    }
  }

  /** `makeTilePackedOutputPlan` */
  function MakePlan(a: Args): Checked<Plan>
    requires a.Positive()
  {
    if a.wmma && a.waveSize != 32 then Died
    else if !a.wmma && a.waveSize != 32 && a.waveSize != 64 then Died
    else
      var valuesPerLane :- DivideExact(256, a.waveSize);
      var mTiles :- Times(a.bm, a.waveM);
      var nTiles :- Times(a.bn, a.waveN);
      var mRows :- Times(mTiles, 16);
      var nCols :- Times(nTiles, 16);
      var mBlocks :- DivideExact(a.m, mRows);
      var nBlocks :- DivideExact(a.n, nCols);
      var tilesPerWave :- Times(a.waveM, a.waveN);
      var waves :- Times(a.bm, a.bn);
      var waveElements :- Times(tilesPerWave, 256);
      var ctaElements :- Times(waves, waveElements);
      var ctas :- Times(mBlocks, nBlocks);
      var elements :- Times(a.m, a.n);
      var covered :- Times(ctas, ctaElements);
      if covered != elements then Died
      else Value(Plan(elements, a.m, a.n, mBlocks, nBlocks, a.bm, a.bn, a.waveM, a.waveN, valuesPerLane, a.wmma))
  }

  /** A plan that was made is valid. */
  lemma MadePlanValid(a: Args)
    requires a.Positive() && MakePlan(a).Value?
    ensures MakePlan(a).value.Valid()
    ensures MakePlan(a).value.m == a.m && MakePlan(a).value.n == a.n
    ensures var p := MakePlan(a).value;
            p.wmma == a.wmma && p.valuesPerLane * a.waveSize == 256
            && (p.bm, p.bn, p.waveM, p.waveN) == (a.bm, a.bn, a.waveM, a.waveN)
  {
    hide CheckedIntProduct, DivExact;
  }

  lemma Swap(x: int, y: int, z: int, w: int)
    ensures (x * y) * (z * w) == (x * z) * (y * w)
  {
    assert (x * y) * (z * w) == x * (y * (z * w));
    assert y * (z * w) == z * (y * w);
    assert x * (z * (y * w)) == (x * z) * (y * w);
  }

  /** The output's elements, counted by rows and columns and by workgroups, waves and tiles. */
  lemma SameElements(mBlocks: int, nBlocks: int, bm: int, bn: int, waveM: int, waveN: int)
    ensures (mBlocks * (bm * waveM * 16)) * (nBlocks * (bn * waveN * 16))
            == (mBlocks * nBlocks) * ((bm * bn) * (waveM * waveN * 256))
  {
    Swap(mBlocks, bm * waveM * 16, nBlocks, bn * waveN * 16);
    Swap(bm, waveM, bn, waveN);
    var x, y := bm * waveM, bn * waveN;
    assert x * 16 * (y * 16) == x * y * 256;
    assert (bm * bn) * (waveM * waveN) * 256 == (bm * bn) * (waveM * waveN * 256);
  }

  /** Positive factors of a product that fits fit themselves. */
  lemma FactorsFit(ctas: int, waves: int, waveTiles: int)
    requires ctas > 0 && waves > 0 && waveTiles > 0 && ctas * (waves * (waveTiles * 256)) <= INT_MAX
    ensures 0 < ctas <= INT_MAX && 0 < waves <= INT_MAX && 0 < waveTiles * 256 <= INT_MAX
    ensures 0 < waves * (waveTiles * 256) <= INT_MAX
  {
    MixedRadix.AtLeastOnce(waves, waveTiles * 256);
    MixedRadix.AtLeastOnce(waveTiles * 256, waves);
    MixedRadix.AtLeastOnce(ctas, waves * (waveTiles * 256));
    MixedRadix.AtLeastOnce(waves * (waveTiles * 256), ctas);
  }

  predicate LaneSizes(a: Args) { a.waveSize == 32 || (!a.wmma && a.waveSize == 64) }

  /** The blocks of the plan divide the output, and its elements fit an int. */
  predicate Plannable(a: Args)
    requires a.Positive()
  {
    && LaneSizes(a)
    && (a.bm * a.waveM * 16 > 0 && a.m % (a.bm * a.waveM * 16) == 0)
    && (a.bn * a.waveN * 16 > 0 && a.n % (a.bn * a.waveN * 16) == 0)
    && a.m * a.n <= INT_MAX
  }

  function Wanted(a: Args): Plan
    requires a.Positive() && Plannable(a)
  {
    Plan(a.m * a.n, a.m, a.n, a.m / (a.bm * a.waveM * 16), a.n / (a.bn * a.waveN * 16), a.bm, a.bn, a.waveM, a.waveN,
         256 / a.waveSize, a.wmma)
  }

  /** One axis: a block that divides the extent passes its checks, and gives a positive number of blocks. */
  lemma AxisPlanned(x: int, waves: int, tiles: int)
    requires 0 < x <= INT_MAX && 0 < waves <= INT_MAX && 0 < tiles <= INT_MAX
    requires waves * tiles * 16 > 0 && x % (waves * tiles * 16) == 0
    ensures 0 < waves * tiles <= waves * tiles * 16 <= INT_MAX
    ensures 0 < x / (waves * tiles * 16) <= INT_MAX && x / (waves * tiles * 16) * (waves * tiles * 16) == x
  {
    var d := waves * tiles * 16;
    if d > INT_MAX {
      Blocking.TooLargeToDivide(x, d);
    }
    MixedRadix.Quotient(x, d);
    QuotientRange(x / d, d, x);
  }

  /** A plan is made if and only if it is plannable: the other checks cannot fail. */
  lemma MakePlanExact(a: Args)
    requires a.Positive()
    ensures MakePlan(a).Value? <==> Plannable(a)
    ensures Plannable(a) ==> MakePlan(a) == Value(Wanted(a))
  {
    MixedRadix.AtLeastOnce(a.bm, a.waveM);
    MixedRadix.AtLeastOnce(a.bn, a.waveN);
    if Plannable(a) {
      AxisPlanned(a.m, a.bm, a.waveM);
      AxisPlanned(a.n, a.bn, a.waveN);
      var x, y := a.m / (a.bm * a.waveM * 16), a.n / (a.bn * a.waveN * 16);
      SameElements(x, y, a.bm, a.bn, a.waveM, a.waveN);
      MixedRadix.AtLeastOnce(x, y);
      MixedRadix.AtLeastOnce(a.bm, a.bn);
      MixedRadix.AtLeastOnce(a.waveM, a.waveN);
      FactorsFit(x * y, a.bm * a.bn, a.waveM * a.waveN);
      assert DivideExact(256, a.waveSize) == Value(256 / a.waveSize);
      hide CheckedIntProduct, DivExact, Plannable;
    } else {
      hide CheckedIntProduct, DivExact;
    }
  }

  /** Every lane layout has plans. */
  lemma SomePlans()
    ensures MakePlan(Args(64, 64, 2, 2, 2, 2, 64, false)).Value? && MakePlan(Args(64, 64, 2, 2, 2, 2, 32, false)).Value?
    ensures MakePlan(Args(64, 64, 2, 2, 2, 2, 32, true)).Value?
  {}

  // ------------------------------------------------------------ digits of an index

  /** One output element: workgroup, wave, tile of the wave, row and column of the tile. */
  datatype Element = Element(wgM: nat, wgN: nat, mWave: nat, nWave: nat, i: nat, j: nat, row: nat, col: nat) {
    predicate In(p: Plan) {
      && wgM < p.mBlocks && wgN < p.nBlocks && mWave < p.bm && nWave < p.bn
      && i < p.waveM && j < p.waveN && row < 16 && col < 16
    }
  }

  /** Lane and register of a tile element, packed into the tile's 256 slots. */
  function SlotOf(p: Plan, row: nat, col: nat): int {
    if p.wmma then (row % 2 * 16 + col) * 8 + row / 2
    else if p.valuesPerLane == 4 then (row / 4 * 16 + col) * 4 + row % 4
    else (row / 8 * 16 + col) * 8 + row % 8
  }

  function CtaOf(p: Plan, e: Element): int { e.wgM * p.nBlocks + e.wgN }
  function WaveOf(p: Plan, e: Element): int { e.mWave * p.bn + e.nWave }
  function RestOf(p: Plan, e: Element): int { (e.i * p.waveN + e.j) * 256 + SlotOf(p, e.row, e.col) }

  /** Packed index of an element. */
  function IndexOf(p: Plan, e: Element): int {
    CtaOf(p, e) * p.CtaElements() + WaveOf(p, e) * p.WaveElements() + RestOf(p, e)
  }

  /** `getAccumulatorRow` */
  function AccumulatorRow(wmma: bool, lane: int, laneValue: int, valuesPerLane: int): int {
    if wmma then lane / 16 + 2 * laneValue else lane / 16 * valuesPerLane + laneValue
  }

  /** `getOutputCoordinate` */
  function OutputCoordinate(index: nat, p: Plan): Coordinate
    requires p.CtaElements() > 0 && p.WaveElements() > 0 && p.nBlocks > 0 && p.bn > 0 && p.waveN > 0
    requires p.valuesPerLane > 0
  {
    var cta := index / p.CtaElements();
    var ctaRem := index % p.CtaElements();
    var waveId := ctaRem / p.WaveElements();
    var waveRem := ctaRem % p.WaveElements();
    WithinWave(p, cta, waveId, waveRem)
  }

  /** The part of `getOutputCoordinate` after the workgroup and the wave are split off. */
  function WithinWave(p: Plan, cta: int, waveId: int, waveRem: int): Coordinate
    requires p.nBlocks > 0 && p.bn > 0 && p.waveN > 0 && p.valuesPerLane > 0
  {
    var wgM, wgN := cta / p.nBlocks, cta % p.nBlocks;
    var mWave, nWave := waveId / p.bn, waveId % p.bn;
    var tileId, slot := waveRem / 256, waveRem % 256;
    var lane, laneValue := slot / p.valuesPerLane, slot % p.valuesPerLane;
    var mLane := AccumulatorRow(p.wmma, lane, laneValue, p.valuesPerLane);
    var mTile := wgM * p.MTiles() + mWave * p.waveM + tileId / p.waveN;
    var nTile := wgN * p.NTiles() + nWave * p.waveN + tileId % p.waveN;
    Coordinate(mTile * 16 + mLane, nTile * 16 + lane % 16)
  }

  /** Row and column an element stands for. */
  function CoordinateOf(p: Plan, e: Element): Coordinate {
    Coordinate((e.wgM * p.MTiles() + e.mWave * p.waveM + e.i) * 16 + e.row,
               (e.wgN * p.NTiles() + e.nWave * p.waveN + e.j) * 16 + e.col)
  }

  lemma SlotDecodes(p: Plan, row: nat, col: nat)
    requires p.LanesOk() && row < 16 && col < 16
    ensures var slot := SlotOf(p, row, col);
            && 0 <= slot < 256
            && AccumulatorRow(p.wmma, slot / p.valuesPerLane, slot % p.valuesPerLane, p.valuesPerLane) == row
            && slot / p.valuesPerLane % 16 == col
  {
    if p.wmma {
      LaneSlot(row % 2, col, row / 2, 2, 8);
    } else if p.valuesPerLane == 4 {
      LaneSlot(row / 4, col, row % 4, 4, 4);
    } else {
      LaneSlot(row / 8, col, row % 8, 2, 8);
    }
  }

  lemma LaneSlot(half: nat, col: nat, value: nat, halves: nat, values: nat)
    requires half < halves && col < 16 && value < values && halves * 16 * values == 256
    ensures var slot := (half * 16 + col) * values + value;
            && slot < 256 && slot / values == half * 16 + col && slot % values == value
            && slot / values / 16 == half && slot / values % 16 == col
  {
    MixedRadix.Split(half, col, 16);
    MixedRadix.Split(half * 16 + col, value, values);
    MixedRadix.Below(half * 16 + col, halves * 16, value, values);
  }

  lemma Sizes(p: Plan)
    requires p.Valid()
    ensures p.WaveTiles() > 0 && p.WaveElements() > 0 && p.CtaElements() > 0 && p.MTiles() > 0 && p.NTiles() > 0
    ensures p.m > 0 && p.n > 0
  {
    MixedRadix.AtLeastOnce(p.waveM, p.waveN);
    MixedRadix.AtLeastOnce(p.bm, p.bn);
    MixedRadix.AtLeastOnce(p.bm * p.bn, p.WaveElements());
    MixedRadix.AtLeastOnce(p.bm, p.waveM);
    MixedRadix.AtLeastOnce(p.bn, p.waveN);
    MixedRadix.AtLeastOnce(p.mBlocks, p.MTiles() * 16);
    MixedRadix.AtLeastOnce(p.nBlocks, p.NTiles() * 16);
  }

  /** Decoding the packed index of an element gives that element's row and column. */
  lemma IndexDecodes(p: Plan, e: Element)
    requires p.Valid() && e.In(p)
    ensures p.CtaElements() > 0 && p.WaveElements() > 0
    ensures 0 <= IndexOf(p, e) < p.elements
    ensures OutputCoordinate(IndexOf(p, e), p) == CoordinateOf(p, e)
  {
    Sizes(p);
    ElementCount(p);
    hide Plan.Valid, Plan.WaveElements, Plan.CtaElements, WithinWave, CoordinateOf, CtaOf, WaveOf, RestOf;
    PartsInRange(p, e);
    WaveDecodes(p, e);
    IndexSplits(CtaOf(p, e), p.mBlocks * p.nBlocks, WaveOf(p, e), p.bm * p.bn, RestOf(p, e), p.WaveElements(),
                p.CtaElements());
  }

  lemma ElementCount(p: Plan)
    requires p.Valid()
    ensures p.elements == p.mBlocks * p.nBlocks * p.CtaElements() && p.CtaElements() == p.bm * p.bn * p.WaveElements()
    ensures p.LanesOk() && p.nBlocks > 0 && p.bn > 0 && p.waveN > 0
  {}

  lemma PartsInRange(p: Plan, e: Element)
    requires p.LanesOk() && e.In(p)
    ensures 0 <= CtaOf(p, e) < p.mBlocks * p.nBlocks && 0 <= WaveOf(p, e) < p.bm * p.bn
    ensures 0 <= RestOf(p, e) < p.WaveElements()
  {
    SlotDecodes(p, e.row, e.col);
    hide SlotOf;
    MixedRadix.Below(e.i, p.waveM, e.j, p.waveN);
    MixedRadix.Below(e.mWave, p.bm, e.nWave, p.bn);
    MixedRadix.Below(e.wgM, p.mBlocks, e.wgN, p.nBlocks);
  }

  lemma IndexSplits(cta: nat, ctas: nat, wave: nat, waves: nat, rest: nat, waveElements: nat, size: nat)
    requires cta < ctas && wave < waves && rest < waveElements && size == waves * waveElements
    ensures var index := cta * size + wave * waveElements + rest;
            && size > 0 && index < ctas * size
            && index / size == cta && index % size / waveElements == wave && index % size % waveElements == rest
  {
    MixedRadix.Below(wave, waves, rest, waveElements);
    MixedRadix.Split(wave, rest, waveElements);
    MixedRadix.Below(cta, ctas, wave * waveElements + rest, size);
    MixedRadix.Split(cta, wave * waveElements + rest, size);
  }

  lemma WaveDecodes(p: Plan, e: Element)
    requires e.In(p) && p.nBlocks > 0 && p.bn > 0 && p.waveN > 0 && p.LanesOk()
    ensures WithinWave(p, CtaOf(p, e), WaveOf(p, e), RestOf(p, e)) == CoordinateOf(p, e)
  {
    SlotDecodes(p, e.row, e.col);
    MixedRadix.Split(e.wgM, e.wgN, p.nBlocks);
    MixedRadix.Split(e.mWave, e.nWave, p.bn);
    MixedRadix.Split(e.i, e.j, p.waveN);
    MixedRadix.Split(e.i * p.waveN + e.j, SlotOf(p, e.row, e.col), 256);
    hide SlotOf, AccumulatorRow, Plan.MTiles, Plan.NTiles;
  }

  // ------------------------------------------------------- rows and columns to elements

  /** The element at a row and column. */
  function ElementAt(p: Plan, m: nat, n: nat): Element
    requires p.MTiles() > 0 && p.NTiles() > 0 && p.waveM > 0 && p.waveN > 0
  {
    var mTile: nat, nTile: nat := m / 16, n / 16;
    AxisElement(mTile, nTile, m % 16, n % 16, p.MTiles(), p.NTiles(), p.waveM, p.waveN)
  }

  function AxisElement(mTile: nat, nTile: nat, row: nat, col: nat, mTiles: nat, nTiles: nat, waveM: nat, waveN: nat)
      : Element
    requires mTiles > 0 && nTiles > 0 && waveM > 0 && waveN > 0
  {
    Element(mTile / mTiles, nTile / nTiles, mTile % mTiles / waveM, nTile % nTiles / waveN,
            mTile % mTiles % waveM, nTile % nTiles % waveN, row, col)
  }

  lemma AxisDigits(tile: nat, blocks: nat, waves: nat, waveTiles: nat)
    requires tile < blocks * (waves * waveTiles)
    ensures var tiles := waves * waveTiles;
            && tiles > 0 && waveTiles > 0
            && tile / tiles < blocks && tile % tiles / waveTiles < waves && tile % tiles % waveTiles < waveTiles
            && tile / tiles * tiles + tile % tiles / waveTiles * waveTiles + tile % tiles % waveTiles == tile
  {
    var tiles := waves * waveTiles;
    MixedRadix.Compose(tile, blocks, tiles);
    MixedRadix.Compose(tile % tiles, waves, waveTiles);
  }

  /** Every row and column of the output is the place of exactly one element. */
  lemma ElementCovers(p: Plan, m: nat, n: nat)
    requires p.Valid() && m < p.m && n < p.n
    ensures p.MTiles() > 0 && p.NTiles() > 0
    ensures ElementAt(p, m, n).In(p) && CoordinateOf(p, ElementAt(p, m, n)) == Coordinate(m, n)
  {
    Sizes(p);
    TileBelow(m, p.mBlocks, p.MTiles());
    TileBelow(n, p.nBlocks, p.NTiles());
    AxisDigits(m / 16, p.mBlocks, p.bm, p.waveM);
    AxisDigits(n / 16, p.nBlocks, p.bn, p.waveN);
    hide Plan.Valid;
  }

  lemma TileBelow(x: nat, blocks: nat, tiles: nat)
    requires x < blocks * (tiles * 16)
    ensures x / 16 < blocks * tiles
  {
    assert blocks * (tiles * 16) == blocks * tiles * 16;
  }

  /** An element lies inside the output, and its row and column determine it. */
  lemma ElementInside(p: Plan, e: Element)
    requires p.Valid() && e.In(p)
    ensures p.MTiles() > 0 && p.NTiles() > 0
    ensures 0 <= CoordinateOf(p, e).m < p.m && 0 <= CoordinateOf(p, e).n < p.n
    ensures ElementAt(p, CoordinateOf(p, e).m, CoordinateOf(p, e).n) == e
  {
    hide Plan.Valid, Plan.MTiles, Plan.NTiles, Plan.LanesOk;
    Extents(p);
    AxisInside(e.wgM, p.mBlocks, e.mWave, p.bm, e.i, p.waveM, e.row);
    AxisInside(e.wgN, p.nBlocks, e.nWave, p.bn, e.j, p.waveN, e.col);
  }

  lemma Extents(p: Plan)
    requires p.Valid()
    ensures p.m == p.mBlocks * (p.MTiles() * 16) && p.n == p.nBlocks * (p.NTiles() * 16)
    ensures p.MTiles() == p.bm * p.waveM && p.NTiles() == p.bn * p.waveN && p.waveM > 0 && p.waveN > 0
  {}

  lemma AxisInside(wg: nat, blocks: nat, wave: nat, waves: nat, tile: nat, waveTiles: nat, lane: nat)
    requires wg < blocks && wave < waves && tile < waveTiles && lane < 16
    ensures var tiles := waves * waveTiles;
            var t := wg * tiles + wave * waveTiles + tile;
            && tiles > 0 && t * 16 + lane < blocks * (tiles * 16)
            && (t * 16 + lane) / 16 == t && (t * 16 + lane) % 16 == lane
            && t / tiles == wg && t % tiles / waveTiles == wave && t % tiles % waveTiles == tile
  {
    var tiles := waves * waveTiles;
    MixedRadix.Below(wave, waves, tile, waveTiles);
    MixedRadix.Split(wave, tile, waveTiles);
    MixedRadix.Below(wg, blocks, wave * waveTiles + tile, tiles);
    MixedRadix.Split(wg, wave * waveTiles + tile, tiles);
    assert blocks * (tiles * 16) == blocks * tiles * 16;
  }

  // ---------------------------------------------------------------- both directions

  /** Row within a tile of a slot, as the runner decodes it. */
  function SlotRow(p: Plan, slot: nat): int
    requires p.valuesPerLane > 0
  {
    AccumulatorRow(p.wmma, slot / p.valuesPerLane, slot % p.valuesPerLane, p.valuesPerLane)
  }

  lemma SlotParts(slot: nat, values: nat)
    requires values > 0
    ensures slot == (slot / values / 16 * 16 + slot / values % 16) * values + slot % values
  {
    var lane := slot / values;
    assert lane == lane / 16 * 16 + lane % 16;
    assert slot == lane * values + slot % values;
  }

  lemma SlotCovers(p: Plan, slot: nat)
    requires p.LanesOk() && slot < 256
    ensures 0 <= SlotRow(p, slot) < 16 && SlotOf(p, SlotRow(p, slot), slot / p.valuesPerLane % 16) == slot
  {
    if p.valuesPerLane == 4 {
      SlotParts(slot, 4);
    } else {
      SlotParts(slot, 8);
    }
    var high, low := slot / p.valuesPerLane / 16, slot % p.valuesPerLane;
    if p.wmma {
      MixedRadix.Split(low, high, 2);
    } else if p.valuesPerLane == 4 {
      MixedRadix.Split(high, low, 4);
    } else {
      MixedRadix.Split(high, low, 8);
    }
  }

  lemma IndexParts(index: nat, ctas: nat, waves: nat, waveElements: nat, size: nat)
    returns (cta: nat, wave: nat, rest: nat)
    requires size == waves * waveElements && index < ctas * size
    ensures cta < ctas && wave < waves && rest < waveElements
    ensures cta * size + wave * waveElements + rest == index
  {
    var inner: nat;
    cta, inner := MixedRadix.Digits(index, ctas, size);
    wave, rest := MixedRadix.Digits(inner, waves, waveElements);
  }

  /** Every packed index is the index of an element. */
  lemma IndexCovers(p: Plan, index: nat) returns (e: Element)
    requires p.Valid() && index < p.elements
    ensures e.In(p) && IndexOf(p, e) == index
  {
    Sizes(p);
    ElementCount(p);
    Counts(p);
    hide Plan.Valid, Plan.CtaElements, Plan.WaveElements, CtaOf, WaveOf, RestOf, SlotOf, SlotRow;
    var cta, wave, rest :=
      IndexParts(index, p.mBlocks * p.nBlocks, p.bm * p.bn, p.WaveElements(), p.CtaElements());
    e := ElementCoversRest(p, cta, wave, rest);
  }

  lemma Counts(p: Plan)
    requires p.Valid()
    ensures p.mBlocks > 0 && p.nBlocks > 0 && p.bm > 0 && p.bn > 0 && p.waveM > 0 && p.waveN > 0
    ensures p.mBlocks * p.nBlocks >= 0 && p.bm * p.bn >= 0
  {
    MixedRadix.AtLeastOnce(p.mBlocks, p.nBlocks);
    MixedRadix.AtLeastOnce(p.bm, p.bn);
  }

  lemma ElementCoversRest(p: Plan, cta: nat, wave: nat, rest: nat) returns (e: Element)
    requires p.LanesOk() && cta < p.mBlocks * p.nBlocks && wave < p.bm * p.bn && rest < p.WaveElements()
    requires p.mBlocks >= 0 && p.nBlocks > 0 && p.bm >= 0 && p.bn > 0 && p.waveM >= 0 && p.waveN > 0
    ensures e.In(p) && CtaOf(p, e) == cta && WaveOf(p, e) == wave && RestOf(p, e) == rest
  {
    var tile: nat, slot: nat := rest / 256, rest % 256;
    assert tile < p.waveM * p.waveN;
    MixedRadix.Compose(cta, p.mBlocks, p.nBlocks);
    MixedRadix.Compose(wave, p.bm, p.bn);
    MixedRadix.Compose(tile, p.waveM, p.waveN);
    SlotCovers(p, slot);
    hide Plan.WaveElements, SlotOf, SlotRow, RestOf;
    e := Element(cta / p.nBlocks, cta % p.nBlocks, wave / p.bn, wave % p.bn, tile / p.waveN, tile % p.waveN,
                 SlotRow(p, slot), slot / p.valuesPerLane % 16);
    WholeRest(p, e, rest);
  }

  lemma WholeRest(p: Plan, e: Element, rest: nat)
    requires e.i * p.waveN + e.j == rest / 256 && SlotOf(p, e.row, e.col) == rest % 256
    ensures RestOf(p, e) == rest
  {
    hide SlotOf;
  }

  /** Where the runner finds the output of row m, column n. */
  function PackedIndex(p: Plan, m: nat, n: nat): int
    requires p.MTiles() > 0 && p.NTiles() > 0 && p.waveM > 0 && p.waveN > 0
  {
    IndexOf(p, ElementAt(p, m, n))
  }

  /** `getOutputCoordinate` maps the packed indices one to one onto the rows and columns of the output. */
  lemma OutputBijection(p: Plan, index: nat, m: nat, n: nat)
    requires p.Valid() && index < p.elements && m < p.m && n < p.n
    ensures p.CtaElements() > 0 && p.WaveElements() > 0 && p.MTiles() > 0 && p.NTiles() > 0
    ensures var c := OutputCoordinate(index, p);
            0 <= c.m < p.m && 0 <= c.n < p.n && PackedIndex(p, c.m, c.n) == index
    ensures 0 <= PackedIndex(p, m, n) < p.elements
    ensures OutputCoordinate(PackedIndex(p, m, n), p) == Coordinate(m, n)
  {
    Sizes(p);
    ElementCount(p);
    Extents(p);
    hide Plan.Valid, IndexOf, OutputCoordinate, CoordinateOf, ElementAt, Plan.CtaElements, Plan.WaveElements,
         Plan.MTiles, Plan.NTiles;
    var e := IndexCovers(p, index);
    IndexDecodes(p, e);
    ElementInside(p, e);
    ElementCovers(p, m, n);
    IndexDecodes(p, ElementAt(p, m, n));
  }

  // -------------------------------------------------------------- the index map

  datatype MapResult =
    | Mapped(packed: seq<int>)
    | OutOfBounds(index: nat)
    | Duplicate(first: int, second: nat)
    | Missed(logical: nat)

  predicate Decodable(p: Plan) {
    && p.CtaElements() > 0 && p.WaveElements() > 0 && p.nBlocks > 0 && p.bn > 0 && p.waveN > 0 && p.valuesPerLane > 0
    && p.elements == p.m * p.n && p.elements >= 0
  }

  predicate Inside(p: Plan, index: nat)
    requires Decodable(p)
  {
    var c := OutputCoordinate(index, p);
    0 <= c.m < p.m && 0 <= c.n < p.n
  }

  /** Row-major position of a packed index. */
  function Logical(p: Plan, index: nat): int
    requires Decodable(p)
  {
    var c := OutputCoordinate(index, p);
    c.m * p.n + c.n
  }

  /** `packedIndices[l] == i` for the first `count` packed indices, -1 everywhere else. */
  ghost predicate Placed(p: Plan, packed: seq<int>, count: nat)
    requires Decodable(p)
  {
    && |packed| == p.elements && count <= p.elements
    && (forall i | 0 <= i < count :: Inside(p, i) && 0 <= Logical(p, i) < |packed| && packed[Logical(p, i)] == i)
    && (forall l | 0 <= l < |packed| ::
          packed[l] == -1 || (0 <= packed[l] < count && Inside(p, packed[l]) && Logical(p, packed[l]) == l))
  }

  lemma LogicalInRange(p: Plan, index: nat)
    requires Decodable(p) && Inside(p, index)
    ensures 0 <= Logical(p, index) < p.elements
  {
    var c := OutputCoordinate(index, p);
    MixedRadix.Below(c.m, p.m, c.n, p.n);
  }

  /** `getTilePackedIndexMap`: its three exits, and what it returns otherwise, for any decodable plan. */
  method IndexMap(p: Plan) returns (r: MapResult)
    requires Decodable(p)
    ensures r.Mapped? ==> Placed(p, r.packed, p.elements) && forall l | 0 <= l < |r.packed| :: r.packed[l] >= 0
    ensures r.Mapped? ==> RowMajor(p, r.packed)
    ensures r.OutOfBounds? ==> r.index < p.elements && !Inside(p, r.index)
    ensures r.Duplicate? ==> 0 <= r.first < r.second < p.elements && Inside(p, r.first) && Inside(p, r.second)
                             && OutputCoordinate(r.first, p) == OutputCoordinate(r.second, p)
    ensures r.Missed? ==> r.logical < p.elements && p.n > 0
                          && forall i | 0 <= i < p.elements :: Inside(p, i)
                               && OutputCoordinate(i, p) != Coordinate(r.logical / p.n, r.logical % p.n)
  {
    hide OutputCoordinate, Plan.CtaElements, Plan.WaveElements;
    var packed := new int[p.elements](_ => -1);
    for index := 0 to p.elements
      invariant Placed(p, packed[..], index)
    {
      var coord := OutputCoordinate(index, p);
      if coord.m < 0 || coord.m >= p.m || coord.n < 0 || coord.n >= p.n {
        return OutOfBounds(index);
      }
      LogicalInRange(p, index);
      var logicalIndex := coord.m * p.n + coord.n;
      if packed[logicalIndex] >= 0 {
        SamePlace(p, packed[logicalIndex], index);
        return Duplicate(packed[logicalIndex], index);
      }
      packed[logicalIndex] := index;
    }
    for index := 0 to p.elements
      invariant forall l | 0 <= l < index :: packed[l] >= 0
    {
      if packed[index] < 0 {
        NoPlace(p, packed[..], index);
        return Missed(index);
      }
    }
    AllEntries(p, packed[..]);
    return Mapped(packed[..]);
  }

  /** Entry m * N + n of the map is an index that decodes to row m and column n. */
  ghost predicate RowMajor(p: Plan, packed: seq<int>)
    requires Decodable(p)
  {
    forall m: nat, n: nat | m < p.m && n < p.n :: EntryIs(p, packed, m, n)
  }

  predicate EntryIs(p: Plan, packed: seq<int>, m: nat, n: nat)
    requires Decodable(p)
  {
    && 0 <= m * p.n + n < |packed| && 0 <= packed[m * p.n + n] < p.elements
    && OutputCoordinate(packed[m * p.n + n], p) == Coordinate(m, n)
  }

  /** Two indices with one row-major position have one row and one column. */
  lemma SamePlace(p: Plan, first: nat, second: nat)
    requires Decodable(p) && Inside(p, first) && Inside(p, second) && Logical(p, first) == Logical(p, second)
    ensures OutputCoordinate(first, p) == OutputCoordinate(second, p)
  {
    hide OutputCoordinate, Plan.CtaElements, Plan.WaveElements;
    var c, d := OutputCoordinate(first, p), OutputCoordinate(second, p);
    MixedRadix.Unique(c.m, c.n, d.m, d.n, p.n);
  }

  lemma NoPlace(p: Plan, packed: seq<int>, logical: nat)
    requires Decodable(p) && Placed(p, packed, p.elements) && logical < |packed| && packed[logical] < 0
    ensures p.n > 0 && forall i | 0 <= i < p.elements ::
              Inside(p, i) && OutputCoordinate(i, p) != Coordinate(logical / p.n, logical % p.n)
  {
    hide OutputCoordinate;
    assert Inside(p, 0);
    forall i | 0 <= i < p.elements
      ensures Inside(p, i) && OutputCoordinate(i, p) != Coordinate(logical / p.n, logical % p.n)
    {
      assert packed[Logical(p, i)] == i;
      assert logical == logical / p.n * p.n + logical % p.n;
    }
  }

  lemma AllEntries(p: Plan, packed: seq<int>)
    requires Decodable(p) && Placed(p, packed, p.elements) && forall l | 0 <= l < |packed| :: packed[l] >= 0
    ensures RowMajor(p, packed)
  {
    hide OutputCoordinate, Decodable;
    forall m: nat, n: nat | m < p.m && n < p.n ensures EntryIs(p, packed, m, n) {
      EntryAt(p, packed, m, n);
    }
  }

  lemma EntryAt(p: Plan, packed: seq<int>, m: nat, n: nat)
    requires Decodable(p) && Placed(p, packed, p.elements) && m < p.m && n < p.n
    requires forall l | 0 <= l < |packed| :: packed[l] >= 0
    ensures EntryIs(p, packed, m, n)
  {
    hide OutputCoordinate;
    MixedRadix.Below(m, p.m, n, p.n);
    var at: nat := m * p.n + n;
    assert Logical(p, packed[at]) == at && Inside(p, packed[at]);
    var c := OutputCoordinate(packed[at], p);
    MixedRadix.Unique(c.m, c.n, m, n, p.n);
  }

  lemma ValidIsDecodable(p: Plan)
    requires p.Valid()
    ensures Decodable(p) && p.m > 0 && p.n > 0 && p.m * p.n == p.elements
    ensures p.MTiles() > 0 && p.NTiles() > 0 && p.waveM > 0 && p.waveN > 0
  {
    Sizes(p);
    MixedRadix.AtLeastOnce(p.m, p.n);
  }

  /** For a plan that was made, none of the exits has a witness. */
  lemma NoExit(p: Plan, r: MapResult)
    requires p.Valid() && Decodable(p)
    requires r.OutOfBounds? ==> r.index < p.elements && !Inside(p, r.index)
    requires r.Duplicate? ==> 0 <= r.first < r.second < p.elements && Inside(p, r.first) && Inside(p, r.second)
                              && OutputCoordinate(r.first, p) == OutputCoordinate(r.second, p)
    requires r.Missed? ==> r.logical < p.elements && p.n > 0
                           && forall i | 0 <= i < p.elements :: Inside(p, i)
                                && OutputCoordinate(i, p) != Coordinate(r.logical / p.n, r.logical % p.n)
    ensures r.Mapped?
  {
    match r
    case OutOfBounds(index) => IndexInside(p, index);
    case Duplicate(first, second) => DecoderInjective(p, first, second);
    case Missed(logical) => var _ := DecoderOnto(p, logical);
    case Mapped(_) =>
  }

  lemma IndexInside(p: Plan, index: nat)
    requires p.Valid() && Decodable(p) && index < p.elements
    ensures Inside(p, index)
  {
    ValidIsDecodable(p);
    OutputBijection(p, index, 0, 0);
    hide Plan.Valid, Decodable, OutputCoordinate, PackedIndex;
  }

  lemma DecoderInjective(p: Plan, first: nat, second: nat)
    requires p.Valid() && Decodable(p) && first < p.elements && second < p.elements
    ensures OutputCoordinate(first, p) == OutputCoordinate(second, p) ==> first == second
  {
    ValidIsDecodable(p);
    hide Plan.Valid, Decodable, OutputCoordinate, PackedIndex, Plan.MTiles, Plan.NTiles, Plan.CtaElements,
         Plan.WaveElements;
    OutputBijection(p, first, 0, 0);
    OutputBijection(p, second, 0, 0);
  }

  lemma DecoderOnto(p: Plan, logical: nat) returns (index: nat)
    requires p.Valid() && Decodable(p) && logical < p.elements
    ensures p.n > 0 && index < p.elements
    ensures OutputCoordinate(index, p) == Coordinate(logical / p.n, logical % p.n)
  {
    ValidIsDecodable(p);
    hide Plan.Valid, Decodable, OutputCoordinate, PackedIndex, Plan.MTiles, Plan.NTiles, Plan.CtaElements,
         Plan.WaveElements;
    var row, column := MixedRadix.Digits(logical, p.m, p.n);
    OutputBijection(p, 0, row, column);
    index := PackedIndex(p, row, column);
  }

  /**
   With the plan's element count, and with no other, the map of a made plan is made; it is the inverse of the
   decoder: entry m * N + n is the one packed index that decodes to row m and column n.
   */
  method TilePackedIndexMap(elements: int, a: Args) returns (r: Checked<seq<int>>)
    requires a.Positive()
    ensures r.Value? <==> MakePlan(a).Value? && elements == a.m * a.n
    ensures r.Value? ==> |r.value| == a.m * a.n && MakePlan(a).value.Valid()
    ensures r.Value? ==> Decodable(MakePlan(a).value) && Placed(MakePlan(a).value, r.value, a.m * a.n)
    ensures r.Value? ==> MakePlan(a).value.m == a.m && MakePlan(a).value.n == a.n
    ensures r.Value? ==> RowMajor(MakePlan(a).value, r.value)
  {
    var plan := MakePlan(a);
    if plan.Died? {
      return Died;
    }
    MadePlanValid(a);
    if elements != plan.value.elements {
      return Died;
    }
    ValidIsDecodable(plan.value);
    hide MakePlan, Plan.Valid, Decodable, Placed, Inside, Logical, RowMajor, OutputCoordinate;
    var m := IndexMap(plan.value);
    NoExit(plan.value, m);
    SizeIs(plan.value, m.packed);
    return Value(m.packed);
  }

  lemma SizeIs(p: Plan, packed: seq<int>)
    requires Decodable(p) && Placed(p, packed, p.elements)
    ensures |packed| == p.elements
  {}

  // ------------------------------------------------------------- the kernel's stores

  /** Tile-packed output: offset at which lane `lane` of a wave stores register `reg` of tile (i, j). */
  function StoreOffset(p: Plan, wgM: nat, wgN: nat, wave: nat, i: nat, j: nat, lane: nat, reg: nat): int {
    var tilesPerWave, waves := p.waveM * p.waveN, p.bm * p.bn;
    var ctaOff := wgM * (p.nBlocks * waves * tilesPerWave * 256) + wgN * (waves * tilesPerWave * 256);
    var tile := i * p.waveN + j;
    ctaOff + wave * (tilesPerWave * 256) + tile * 256 + lane * p.valuesPerLane + reg
  }

  /** Row-major output: the offset at which the same kernel stores that register. */
  function DenseOffset(p: Plan, wgM: nat, wgN: nat, wave: nat, i: nat, j: nat, lane: nat, reg: nat): int
    requires p.bn > 0
  {
    var waveRows, waveColumns := 16 * p.waveM, 16 * p.waveN;
    var mBase := wgM * (p.bm * waveRows) + wave / p.bn * waveRows;
    var nBase := wgN * (p.bn * waveColumns) + wave % p.bn * waveColumns;
    var row := if p.wmma then lane / 16 + 2 * reg else lane / 16 * p.valuesPerLane + reg;
    mBase * p.n + nBase + (i * 16 * p.n + j * 16) + (row * p.n + lane % 16)
  }

  lemma StoreProducts(wgM: int, nBlocks: int, wgN: int, waves: int, tiles: int)
    ensures wgM * (nBlocks * waves * tiles * 256) + wgN * (waves * tiles * 256)
            == (wgM * nBlocks + wgN) * (waves * (tiles * 256))
  {
    var size := waves * (tiles * 256);
    assert waves * tiles * 256 == size;
    assert nBlocks * waves * tiles * 256 == nBlocks * size by {
      assert nBlocks * waves * tiles * 256 == nBlocks * (waves * tiles * 256);
    }
    assert wgM * (nBlocks * size) == wgM * nBlocks * size;
  }

  /** Lanes and registers of the three layouts. */
  predicate LaneOk(p: Plan, lane: nat, reg: nat) {
    p.LanesOk() && lane * p.valuesPerLane < 256 && reg < p.valuesPerLane
  }

  /** The row of its tile that a lane's register is: halves interleave on WMMA and follow one another on MFMA. */
  function RegisterRow(p: Plan, lane: nat, reg: nat): (row: nat)
    requires LaneOk(p, lane, reg)
    ensures row < 16
    ensures p.wmma ==> row % 2 == lane / 16 && row / 2 == reg
    ensures !p.wmma ==> row / p.valuesPerLane == lane / 16 && row % p.valuesPerLane == reg
  {
    if p.wmma then lane / 16 + 2 * reg
    else
      MixedRadix.Split(lane / 16, reg, p.valuesPerLane);
      lane / 16 * p.valuesPerLane + reg
  }

  /**
   For WMMA and both MFMA wave sizes the runner decodes the kernel's store offset back to the workgroup, wave,
   tile, lane and register that produced it.
   */
  lemma StoreDecodes(p: Plan, wgM: nat, wgN: nat, wave: nat, i: nat, j: nat, lane: nat, reg: nat)
    requires p.Valid() && LaneOk(p, lane, reg)
    requires wgM < p.mBlocks && wgN < p.nBlocks && wave < p.bm * p.bn && i < p.waveM && j < p.waveN
    ensures p.CtaElements() > 0 && p.WaveElements() > 0 && p.bn > 0
    ensures 0 <= StoreOffset(p, wgM, wgN, wave, i, j, lane, reg) < p.elements
    ensures OutputCoordinate(StoreOffset(p, wgM, wgN, wave, i, j, lane, reg), p)
            == Coordinate((wgM * p.MTiles() + wave / p.bn * p.waveM + i) * 16 + RegisterRow(p, lane, reg),
                          (wgN * p.NTiles() + wave % p.bn * p.waveN + j) * 16 + lane % 16)
  {
    MixedRadix.Compose(wave, p.bm, p.bn);
    var e := Element(wgM, wgN, wave / p.bn, wave % p.bn, i, j, RegisterRow(p, lane, reg), lane % 16);
    StoreIsIndex(p, wgM, wgN, wave, i, j, lane, reg);
    IndexDecodes(p, e);
    hide Plan.Valid, StoreOffset, IndexOf, OutputCoordinate, Plan.CtaElements, Plan.WaveElements, Plan.MTiles,
         Plan.NTiles, RegisterRow;
  }

  lemma StoreIsIndex(p: Plan, wgM: nat, wgN: nat, wave: nat, i: nat, j: nat, lane: nat, reg: nat)
    requires p.bn > 0 && LaneOk(p, lane, reg)
    ensures StoreOffset(p, wgM, wgN, wave, i, j, lane, reg)
            == IndexOf(p, Element(wgM, wgN, wave / p.bn, wave % p.bn, i, j, RegisterRow(p, lane, reg), lane % 16))
  {
    StoreProducts(wgM, p.nBlocks, wgN, p.bm * p.bn, p.waveM * p.waveN);
    assert wave == wave / p.bn * p.bn + wave % p.bn;
    StoreSlot(p, lane, reg);
    hide RegisterRow, SlotOf;
  }

  lemma StoreSlot(p: Plan, lane: nat, reg: nat)
    requires LaneOk(p, lane, reg)
    ensures SlotOf(p, RegisterRow(p, lane, reg), lane % 16) == lane * p.valuesPerLane + reg
  {
    assert lane == lane / 16 * 16 + lane % 16;
    hide RegisterRow;
  }

  /** The row-major store of a register goes to its own row and column of C. */
  lemma DenseIs(p: Plan, wgM: nat, wgN: nat, wave: nat, i: nat, j: nat, lane: nat, reg: nat)
    requires p.bn > 0 && LaneOk(p, lane, reg)
    ensures DenseOffset(p, wgM, wgN, wave, i, j, lane, reg)
            == ((wgM * p.MTiles() + wave / p.bn * p.waveM + i) * 16 + RegisterRow(p, lane, reg)) * p.n
               + ((wgN * p.NTiles() + wave % p.bn * p.waveN + j) * 16 + lane % 16)
  {
    var row := RegisterRow(p, lane, reg);
    DenseAxis(wgM, p.bm, p.waveM, wave / p.bn);
    DenseAxis(wgN, p.bn, p.waveN, wave % p.bn);
    var tile := wgM * p.MTiles() + wave / p.bn * p.waveM;
    DenseRows(tile, i, row, p.n);
    hide RegisterRow;
  }

  lemma DenseAxis(wg: int, waves: int, tiles: int, wave: int)
    ensures wg * (waves * (16 * tiles)) + wave * (16 * tiles) == (wg * (waves * tiles) + wave * tiles) * 16
  {
    assert waves * (16 * tiles) == waves * tiles * 16;
  }

  lemma DenseRows(tile: int, i: int, row: int, n: int)
    ensures tile * 16 * n + i * 16 * n + row * n == ((tile + i) * 16 + row) * n
  {}

  /**
   The two output layouts agree: the entry of the runner's map at a register's row-major offset is that register's
   tile-packed offset. So after the runner's reordering both kernels leave the same matrix.
   */
  lemma LayoutsAgree(p: Plan, packed: seq<int>, wgM: nat, wgN: nat, wave: nat, i: nat, j: nat, lane: nat, reg: nat)
    requires p.Valid() && LaneOk(p, lane, reg) && Decodable(p) && RowMajor(p, packed)
    requires wgM < p.mBlocks && wgN < p.nBlocks && wave < p.bm * p.bn && i < p.waveM && j < p.waveN
    ensures 0 <= DenseOffset(p, wgM, wgN, wave, i, j, lane, reg) < |packed|
    ensures packed[DenseOffset(p, wgM, wgN, wave, i, j, lane, reg)] == StoreOffset(p, wgM, wgN, wave, i, j, lane, reg)
  {
    StoreDecodes(p, wgM, wgN, wave, i, j, lane, reg);
    DenseIs(p, wgM, wgN, wave, i, j, lane, reg);
    var at := StoreOffset(p, wgM, wgN, wave, i, j, lane, reg);
    IndexInside(p, at);
    var c := OutputCoordinate(at, p);
    hide Plan.Valid, Decodable, StoreOffset, DenseOffset, OutputCoordinate, Plan.CtaElements, Plan.WaveElements,
         Plan.MTiles, Plan.NTiles, RegisterRow, LaneOk;
    assert EntryIs(p, packed, c.m, c.n);
    DecoderInjective(p, packed[c.m * p.n + c.n], at);
  }
}
