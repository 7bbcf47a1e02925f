/**
 The gfx1250 GEMM kernels: which C element every accumulator register reaches, and which A and B
 elements every lane reads. A TDM copy moves a row-major tile between global memory and LDS.
 */
module TdmGemm {
  import MixedRadix

  datatype Config = Config(tileM: nat, tileN: nat, tileK: nat, operandDwords: nat, accumulatorDwords: nat,
                           laneK: nat, waveSize: nat, wavesM: nat, wavesN: nat, subtilesM: nat, subtilesN: nat)
  {
    function WaveCount(): nat { wavesM * wavesN }
    function WaveTileM(): nat { subtilesM * tileM }
    function WaveTileN(): nat { subtilesN * tileN }
    function WorkgroupTileM(): nat { wavesM * WaveTileM() }
    function WorkgroupTileN(): nat { wavesN * WaveTileN() }
    function AWaveDwords(): nat { WaveTileM() * tileK * 2 / 4 }
    function BWaveDwords(): nat { WaveTileN() * tileK * 2 / 4 }
    function CWaveDwords(): nat { WaveTileM() * WaveTileN() }
    function FragmentDwords(): nat { tileM * tileK * 2 / 4 }

    /** The shape of the target's MMA: two half-waves, each lane holding half a row of an operand. */
    predicate Target() {
      && tileM > 0 && tileN == tileM && waveSize == 2 * tileM
      && accumulatorDwords * (waveSize / tileN) == tileM
      && operandDwords > 0 && laneK == 2 * operandDwords && tileK == 2 * laneK
      && wavesM > 0 && wavesN > 0 && subtilesM > 0 && subtilesN > 0
    }
  }

  /** The four-wave f16 configuration of the target. */
  lemma SomeTarget()
    ensures Config(16, 16, 32, 8, 8, 16, 32, 2, 2, 2, 2).Target()
  {}

  /** The checks of `_validate_shape`. */
  predicate ShapeOk(c: Config, m: int, n: int, k: int)
    requires c.WorkgroupTileM() > 0 && c.WorkgroupTileN() > 0 && c.tileK > 0
  {
    && m > 0 && m % c.WorkgroupTileM() == 0
    && n > 0 && n % c.WorkgroupTileN() == 0
    && k > 0 && k % c.tileK == 0
  }

  // ------------------------------------------------------------ one axis of the output

  /** First row (or column) of wave `wave` of workgroup `wg`, each wave spanning `span`. */
  function Origin(wg: nat, wave: nat, waves: nat, span: nat): nat {
    wg * (waves * span) + wave * span
  }

  /** Place of element `inner` of subtile `sub` of wave `wave` of workgroup `wg` along one axis. */
  function Place(wg: nat, wave: nat, sub: nat, inner: nat, waves: nat, subs: nat, tile: nat): nat {
    Origin(wg, wave, waves, subs * tile) + (sub * tile + inner)
  }

  lemma PlaceBack(x: nat, blocks: nat, waves: nat, subs: nat, tile: nat)
    returns (wg: nat, wave: nat, sub: nat, inner: nat)
    requires x < blocks * (waves * (subs * tile))
    ensures wg < blocks && wave < waves && sub < subs && inner < tile
    ensures Place(wg, wave, sub, inner, waves, subs, tile) == x
  {
    var rest, rest';
    wg, rest := MixedRadix.Digits(x, blocks, waves * (subs * tile));
    wave, rest' := MixedRadix.Digits(rest, waves, subs * tile);
    sub, inner := MixedRadix.Digits(rest', subs, tile);
  }

  lemma PlaceInside(wg: nat, blocks: nat, wave: nat, waves: nat, sub: nat, subs: nat, inner: nat, tile: nat)
    requires wg < blocks && wave < waves && sub < subs && inner < tile
    ensures Place(wg, wave, sub, inner, waves, subs, tile) < blocks * (waves * (subs * tile))
  {
    MixedRadix.Below(sub, subs, inner, tile);
    MixedRadix.Below(wave, waves, sub * tile + inner, subs * tile);
    MixedRadix.Below(wg, blocks, wave * (subs * tile) + (sub * tile + inner), waves * (subs * tile));
  }

  lemma PlaceUnique(wg: nat, wave: nat, sub: nat, inner: nat, wg': nat, wave': nat, sub': nat, inner': nat,
                    waves: nat, subs: nat, tile: nat)
    requires wave < waves && sub < subs && inner < tile && wave' < waves && sub' < subs && inner' < tile
    requires Place(wg, wave, sub, inner, waves, subs, tile) == Place(wg', wave', sub', inner', waves, subs, tile)
    ensures wg == wg' && wave == wave' && sub == sub' && inner == inner'
  {
    MixedRadix.Below(sub, subs, inner, tile);
    MixedRadix.Below(sub', subs, inner', tile);
    SpansUnique(wg, wave, sub * tile + inner, wg', wave', sub' * tile + inner', waves, subs * tile);
    MixedRadix.Unique(sub, inner, sub', inner', tile);
  }

  /** Workgroup, wave and place within the wave are determined by the place on the axis. */
  lemma SpansUnique(wg: nat, wave: nat, x: nat, wg': nat, wave': nat, x': nat, waves: nat, span: nat)
    requires wave < waves && x < span && wave' < waves && x' < span
    requires Origin(wg, wave, waves, span) + x == Origin(wg', wave', waves, span) + x'
    ensures wg == wg' && wave == wave' && x == x'
  {
    MixedRadix.Below(wave, waves, x, span);
    MixedRadix.Below(wave', waves, x', span);
    MixedRadix.Unique(wg, wave * span + x, wg', wave' * span + x', waves * span);
    MixedRadix.Unique(wave, x, wave', x', span);
  }

  // -------------------------------------------------------------------- C elements

  /** One accumulator register of the launch. */
  datatype Register = Register(wgM: nat, wgN: nat, wave: nat, subM: nat, subN: nat, lane: nat, reg: nat)
  {
    predicate In(c: Config, blocksM: nat, blocksN: nat) {
      && wgM < blocksM && wgN < blocksN && wave < c.WaveCount()
      && subM < c.subtilesM && subN < c.subtilesN && lane < c.waveSize && reg < c.accumulatorDwords
    }
  }

  /** LDS dword, relative to the wave's C region, that `_emit_subtile_output` stores a register to. */
  function OutputIndex(c: Config, r: Register): nat
    requires c.tileN > 0
  {
    var half: nat, column: nat := r.lane / c.tileN, r.lane % c.tileN;
    var row: nat := c.tileM * r.subM + c.accumulatorDwords * half + r.reg;
    c.WaveTileN() * row + c.tileN * r.subN + column
  }

  /** LDS dword relative to the whole C allocation. */
  function OutputDword(c: Config, r: Register): nat
    requires c.tileN > 0
  {
    r.wave * c.CWaveDwords() + OutputIndex(c, r)
  }

  /** Element offset in C of the wave's tile: `c_offset` before scaling by the element size. */
  function TileOrigin(c: Config, n: nat, r: Register): nat
    requires c.wavesN > 0
  {
    var waveM: nat, waveN: nat := r.wave / c.wavesN, r.wave % c.wavesN;
    var row: nat := r.wgM * c.WorkgroupTileM() + waveM * c.WaveTileM();
    var column: nat := r.wgN * c.WorkgroupTileN() + waveN * c.WaveTileN();
    row * n + column
  }

  /** TDM semantics: LDS element `at` of a tile `columns` wide is its row-major element, at a row stride. */
  function TdmElement(origin: nat, stride: nat, columns: nat, at: nat): nat
    requires columns > 0
  {
    origin + at / columns * stride + at % columns
  }

  /** The element of C that a register ends up in. */
  function Element(c: Config, n: nat, r: Register): nat
    requires c.tileN > 0 && c.wavesN > 0 && c.WaveTileN() > 0
  {
    TdmElement(TileOrigin(c, n, r), n, c.WaveTileN(), OutputIndex(c, r))
  }

  /** A register's coordinates with every quotient taken: wave row and column, half-wave, column in the tile. */
  datatype Coordinates = Coordinates(waveM: nat, waveN: nat, half: nat, column: nat)

  ghost predicate Decoded(c: Config, r: Register, d: Coordinates) {
    && r.wave == d.waveM * c.wavesN + d.waveN && d.waveM < c.wavesM && d.waveN < c.wavesN
    && r.lane == d.half * c.tileN + d.column && d.half < 2 && d.column < c.tileN
    && r.subM < c.subtilesM && r.subN < c.subtilesN
    && r.reg < c.accumulatorDwords && RowInTile(c, r, d) < c.tileM
  }

  function RowInTile(c: Config, r: Register, d: Coordinates): nat {
    d.half * c.accumulatorDwords + r.reg
  }

  function RowInWave(c: Config, r: Register, d: Coordinates): nat {
    r.subM * c.tileM + RowInTile(c, r, d)
  }

  function ColumnInWave(c: Config, r: Register, d: Coordinates): nat {
    r.subN * c.tileN + d.column
  }

  function GlobalRow(c: Config, r: Register, d: Coordinates): nat {
    Origin(r.wgM, d.waveM, c.wavesM, c.WaveTileM()) + RowInWave(c, r, d)
  }

  function GlobalColumn(c: Config, r: Register, d: Coordinates): nat {
    Origin(r.wgN, d.waveN, c.wavesN, c.WaveTileN()) + ColumnInWave(c, r, d)
  }

  lemma TilesPositive(c: Config)
    requires c.Target()
    ensures c.WaveTileM() > 0 && c.WaveTileN() > 0 && c.WorkgroupTileM() > 0 && c.WorkgroupTileN() > 0
    ensures c.accumulatorDwords * 2 == c.tileM == c.tileN && c.waveSize == 2 * c.tileN && c.wavesN > 0
  {
    MixedRadix.Split(2, 0, c.tileN);
    MixedRadix.AtLeastOnce(c.subtilesM, c.tileM);
    MixedRadix.AtLeastOnce(c.subtilesN, c.tileN);
    MixedRadix.AtLeastOnce(c.wavesM, c.WaveTileM());
    MixedRadix.AtLeastOnce(c.wavesN, c.WaveTileN());
  }

  lemma Decode(c: Config, blocksM: nat, blocksN: nat, r: Register) returns (d: Coordinates)
    requires c.Target() && r.In(c, blocksM, blocksN)
    ensures c.wavesN > 0 && c.tileN > 0
    ensures Decoded(c, r, d)
    ensures d.waveM == r.wave / c.wavesN && d.waveN == r.wave % c.wavesN
    ensures d.half == r.lane / c.tileN && d.column == r.lane % c.tileN
  {
    TilesPositive(c);
    hide Config.Target, Config.WaveTileM, Config.WaveTileN, Config.WorkgroupTileM, Config.WorkgroupTileN;
    var waveM, waveN := MixedRadix.Digits(r.wave, c.wavesM, c.wavesN);
    var half, column := MixedRadix.Digits(r.lane, 2, c.tileN);
    MixedRadix.Below(half, 2, r.reg, c.accumulatorDwords);
    d := Coordinates(waveM, waveN, half, column);
  }

  /** The wave's tile begins at its workgroup's row and column plus its own. */
  lemma OriginIs(c: Config, n: nat, r: Register, d: Coordinates)
    requires c.wavesN > 0 && d.waveM == r.wave / c.wavesN && d.waveN == r.wave % c.wavesN
    ensures TileOrigin(c, n, r)
         == Origin(r.wgM, d.waveM, c.wavesM, c.WaveTileM()) * n + Origin(r.wgN, d.waveN, c.wavesN, c.WaveTileN())
  {}

  lemma IndexIs(c: Config, r: Register, d: Coordinates)
    requires c.tileN > 0 && d.half == r.lane / c.tileN && d.column == r.lane % c.tileN
    ensures OutputIndex(c, r) == RowInWave(c, r, d) * c.WaveTileN() + ColumnInWave(c, r, d)
  {
    MixedRadix.Commutes(c.tileM, r.subM);
    MixedRadix.Commutes(c.tileN, r.subN);
    MixedRadix.Commutes(c.accumulatorDwords, d.half);
    MixedRadix.Commutes(c.WaveTileN(), r.subM * c.tileM + RowInTile(c, r, d));
  }

  lemma TdmElementIs(row0: nat, column0: nat, n: nat, row: nat, columns: nat, column: nat)
    requires column < columns
    ensures TdmElement(row0 * n + column0, n, columns, row * columns + column) == (row0 + row) * n + (column0 + column)
  {
    MixedRadix.Split(row, column, columns);
    MixedRadix.Distributes(row0, row, n);
  }

  lemma InWave(c: Config, r: Register, d: Coordinates)
    requires Decoded(c, r, d)
    ensures RowInWave(c, r, d) < c.WaveTileM() && ColumnInWave(c, r, d) < c.WaveTileN()
  {
    MixedRadix.Below(r.subM, c.subtilesM, RowInTile(c, r, d), c.tileM);
    MixedRadix.Below(r.subN, c.subtilesN, d.column, c.tileN);
  }

  /** A register's C element is the one at its own global row and column. */
  lemma ElementIs(c: Config, n: nat, r: Register, d: Coordinates)
    requires c.wavesN > 0 && c.tileN > 0 && c.WaveTileN() > 0 && Decoded(c, r, d)
    requires d.waveM == r.wave / c.wavesN && d.waveN == r.wave % c.wavesN
    requires d.half == r.lane / c.tileN && d.column == r.lane % c.tileN
    ensures Element(c, n, r) == GlobalRow(c, r, d) * n + GlobalColumn(c, r, d)
  {
    hide TileOrigin, OutputIndex, TdmElement, RowInWave, ColumnInWave, Origin, Decoded, Config.WaveTileN,
         Config.WaveTileM;
    OriginIs(c, n, r, d);
    IndexIs(c, r, d);
    InWave(c, r, d);
    TdmElementIs(Origin(r.wgM, d.waveM, c.wavesM, c.WaveTileM()), Origin(r.wgN, d.waveN, c.wavesN, c.WaveTileN()), n,
                 RowInWave(c, r, d), c.WaveTileN(), ColumnInWave(c, r, d));
  }

  lemma DecodedInside(c: Config, blocksM: nat, blocksN: nat, r: Register, d: Coordinates)
    requires r.In(c, blocksM, blocksN) && Decoded(c, r, d)
    ensures GlobalRow(c, r, d) < blocksM * c.WorkgroupTileM() && GlobalColumn(c, r, d) < blocksN * c.WorkgroupTileN()
  {
    hide Origin;
    PlaceInside(r.wgM, blocksM, d.waveM, c.wavesM, r.subM, c.subtilesM, RowInTile(c, r, d), c.tileM);
    PlaceInside(r.wgN, blocksN, d.waveN, c.wavesN, r.subN, c.subtilesN, d.column, c.tileN);
  }

  lemma DecodedUnique(c: Config, r: Register, d: Coordinates, s: Register, e: Coordinates)
    requires Decoded(c, r, d) && Decoded(c, s, e)
    requires GlobalRow(c, r, d) == GlobalRow(c, s, e) && GlobalColumn(c, r, d) == GlobalColumn(c, s, e)
    ensures r == s
  {
    hide Origin;
    PlaceUnique(r.wgM, d.waveM, r.subM, RowInTile(c, r, d), s.wgM, e.waveM, s.subM, RowInTile(c, s, e),
                c.wavesM, c.subtilesM, c.tileM);
    PlaceUnique(r.wgN, d.waveN, r.subN, d.column, s.wgN, e.waveN, s.subN, e.column, c.wavesN, c.subtilesN, c.tileN);
    MixedRadix.Unique(d.half, r.reg, e.half, s.reg, c.accumulatorDwords);
  }

  /** Every register of the launch stores inside C. */
  lemma OutputInside(c: Config, blocksM: nat, blocksN: nat, r: Register)
    requires c.Target() && c.tileN > 0 && c.wavesN > 0 && c.WaveTileN() > 0 && r.In(c, blocksM, blocksN)
    ensures Element(c, blocksN * c.WorkgroupTileN(), r)
            < blocksM * c.WorkgroupTileM() * (blocksN * c.WorkgroupTileN())
  {
    hide Config.Target, Element, GlobalRow, GlobalColumn, Decoded, Config.WorkgroupTileM, Config.WorkgroupTileN,
         Config.WaveTileN;
    var d := Decode(c, blocksM, blocksN, r);
    ElementIs(c, blocksN * c.WorkgroupTileN(), r, d);
    DecodedInside(c, blocksM, blocksN, r, d);
    MixedRadix.Below(GlobalRow(c, r, d), blocksM * c.WorkgroupTileM(), GlobalColumn(c, r, d),
                     blocksN * c.WorkgroupTileN());
  }

  /** No two registers of the launch store to the same element. */
  lemma OutputInjective(c: Config, blocksM: nat, blocksN: nat, r: Register, s: Register)
    requires c.Target() && c.tileN > 0 && c.wavesN > 0 && c.WaveTileN() > 0
    requires r.In(c, blocksM, blocksN) && s.In(c, blocksM, blocksN)
    requires Element(c, blocksN * c.WorkgroupTileN(), r) == Element(c, blocksN * c.WorkgroupTileN(), s)
    ensures r == s
  {
    hide Config.Target, Element, GlobalRow, GlobalColumn, Decoded, Config.WorkgroupTileM, Config.WorkgroupTileN,
         Config.WaveTileN;
    var n := blocksN * c.WorkgroupTileN();
    var d := Decode(c, blocksM, blocksN, r);
    var e := Decode(c, blocksM, blocksN, s);
    ElementIs(c, n, r, d);
    ElementIs(c, n, s, e);
    DecodedInside(c, blocksM, blocksN, r, d);
    DecodedInside(c, blocksM, blocksN, s, e);
    MixedRadix.Unique(GlobalRow(c, r, d), GlobalColumn(c, r, d), GlobalRow(c, s, e), GlobalColumn(c, s, e), n);
    DecodedUnique(c, r, d, s, e);
  }

  lemma GlobalIsPlace(c: Config, r: Register, d: Coordinates)
    ensures GlobalRow(c, r, d)
         == Place(r.wgM, d.waveM, r.subM, RowInTile(c, r, d), c.wavesM, c.subtilesM, c.tileM)
    ensures GlobalColumn(c, r, d) == Place(r.wgN, d.waveN, r.subN, d.column, c.wavesN, c.subtilesN, c.tileN)
  {
    hide Origin;
  }

  lemma WorkgroupTiles(c: Config)
    ensures c.WorkgroupTileM() == c.wavesM * (c.subtilesM * c.tileM)
    ensures c.WorkgroupTileN() == c.wavesN * (c.subtilesN * c.tileN)
    ensures c.WaveCount() == c.wavesM * c.wavesN
  {}

  lemma EncodeRow(c: Config, blocks: nat, row: nat) returns (wg: nat, wave: nat, sub: nat, half: nat, reg: nat)
    requires c.Target() && row < blocks * c.WorkgroupTileM()
    ensures wg < blocks && wave < c.wavesM && sub < c.subtilesM && half < 2 && reg < c.accumulatorDwords
    ensures half * c.accumulatorDwords + reg < c.tileM
    ensures Place(wg, wave, sub, half * c.accumulatorDwords + reg, c.wavesM, c.subtilesM, c.tileM) == row
  {
    TilesPositive(c);
    WorkgroupTiles(c);
    hide Place, Config.Target, Config.WorkgroupTileM, Config.WorkgroupTileN, Config.WaveTileM, Config.WaveTileN;
    var inner;
    wg, wave, sub, inner := PlaceBack(row, blocks, c.wavesM, c.subtilesM, c.tileM);
    half, reg := MixedRadix.Digits(inner, 2, c.accumulatorDwords);
  }

  lemma EncodeColumn(c: Config, blocks: nat, column: nat) returns (wg: nat, wave: nat, sub: nat, inner: nat)
    requires c.Target() && column < blocks * c.WorkgroupTileN()
    ensures wg < blocks && wave < c.wavesN && sub < c.subtilesN && inner < c.tileN
    ensures Place(wg, wave, sub, inner, c.wavesN, c.subtilesN, c.tileN) == column
  {
    WorkgroupTiles(c);
    hide Place, Config.Target, Config.WorkgroupTileM, Config.WorkgroupTileN, Config.WaveTileM, Config.WaveTileN;
    wg, wave, sub, inner := PlaceBack(column, blocks, c.wavesN, c.subtilesN, c.tileN);
  }

  lemma Encode(c: Config, blocksM: nat, blocksN: nat, row: nat, column: nat) returns (r: Register, d: Coordinates)
    requires c.Target() && row < blocksM * c.WorkgroupTileM() && column < blocksN * c.WorkgroupTileN()
    ensures r.In(c, blocksM, blocksN) && Decoded(c, r, d)
    ensures GlobalRow(c, r, d) == row && GlobalColumn(c, r, d) == column
  {
    hide Place, GlobalRow, GlobalColumn, Config.Target, Config.WorkgroupTileM, Config.WorkgroupTileN;
    TilesPositive(c);
    var wgM, waveM, subM, half, reg := EncodeRow(c, blocksM, row);
    var wgN, waveN, subN, inner := EncodeColumn(c, blocksN, column);
    hide Config.WaveTileM, Config.WaveTileN;
    MixedRadix.Below(waveM, c.wavesM, waveN, c.wavesN);
    MixedRadix.Below(half, 2, inner, c.tileN);
    r := Register(wgM, wgN, waveM * c.wavesN + waveN, subM, subN, half * c.tileN + inner, reg);
    d := Coordinates(waveM, waveN, half, inner);
    GlobalIsPlace(c, r, d);
  }

  /** The digits of a register are the quotients and remainders the kernel computes. */
  lemma DigitsAgree(c: Config, r: Register, d: Coordinates)
    requires Decoded(c, r, d)
    ensures c.wavesN > 0 && c.tileN > 0 && d.waveM == r.wave / c.wavesN && d.waveN == r.wave % c.wavesN
    ensures d.half == r.lane / c.tileN && d.column == r.lane % c.tileN
  {
    MixedRadix.Split(d.waveM, d.waveN, c.wavesN);
    MixedRadix.Split(d.half, d.column, c.tileN);
  }

  /** Every element of C is stored by some register of the launch. */
  lemma OutputCovered(c: Config, blocksM: nat, blocksN: nat, at: nat) returns (r: Register)
    requires c.Target() && c.tileN > 0 && c.wavesN > 0 && c.WaveTileN() > 0
    requires at < blocksM * c.WorkgroupTileM() * (blocksN * c.WorkgroupTileN())
    ensures r.In(c, blocksM, blocksN) && Element(c, blocksN * c.WorkgroupTileN(), r) == at
  {
    hide Config.Target, Element, GlobalRow, GlobalColumn, Decoded, Register.In, Config.WorkgroupTileM,
         Config.WorkgroupTileN, Config.WaveTileN;
    var n := blocksN * c.WorkgroupTileN();
    var row, column := MixedRadix.Digits(at, blocksM * c.WorkgroupTileM(), n);
    var d;
    r, d := Encode(c, blocksM, blocksN, row, column);
    DigitsAgree(c, r, d);
    ElementIs(c, n, r, d);
  }

  /** On every accepted shape each element of C comes from exactly one register, and nothing is stored outside C. */
  lemma LaunchBijection(c: Config, m: nat, n: nat, k: nat, at: nat) returns (r: Register)
    requires c.Target() && c.tileN > 0 && c.wavesN > 0 && c.WaveTileN() > 0
    requires c.WorkgroupTileM() > 0 && c.WorkgroupTileN() > 0 && c.tileK > 0 && ShapeOk(c, m, n, k) && at < m * n
    ensures var blocksM, blocksN := m / c.WorkgroupTileM(), n / c.WorkgroupTileN();
            && r.In(c, blocksM, blocksN) && Element(c, n, r) == at
            && (forall s: Register | s.In(c, blocksM, blocksN) :: Element(c, n, s) < m * n)
            && (forall s: Register | s.In(c, blocksM, blocksN) && Element(c, n, s) == at :: s == r)
  {
    hide Config.Target, Element, Register.In, Config.WorkgroupTileM, Config.WorkgroupTileN, Config.WaveTileN;
    var blocksM, blocksN := m / c.WorkgroupTileM(), n / c.WorkgroupTileN();
    MixedRadix.ExactQuotient(m, c.WorkgroupTileM());
    MixedRadix.ExactQuotient(n, c.WorkgroupTileN());
    r := OutputCovered(c, blocksM, blocksN, at);
    forall s: Register | s.In(c, blocksM, blocksN)
      ensures Element(c, n, s) < m * n && (Element(c, n, s) == at ==> s == r)
    {
      OutputInside(c, blocksM, blocksN, s);
      if Element(c, n, s) == at {
        OutputInjective(c, blocksM, blocksN, s, r);
      }
    }
  }

  // ------------------------------------------------------------------ LDS of the output

  lemma OutputIndexInWave(c: Config, r: Register, d: Coordinates)
    requires c.wavesN > 0 && c.tileN > 0 && Decoded(c, r, d)
    requires d.half == r.lane / c.tileN && d.column == r.lane % c.tileN
    ensures OutputIndex(c, r) < c.CWaveDwords()
  {
    IndexIs(c, r, d);
    InWave(c, r, d);
    hide OutputIndex, RowInWave, ColumnInWave, Decoded, Config.WaveTileM, Config.WaveTileN;
    MixedRadix.Below(RowInWave(c, r, d), c.WaveTileM(), ColumnInWave(c, r, d), c.WaveTileN());
  }

  /** Waves keep to their own C regions, which lie in the allocation. */
  lemma OutputDwordInRegion(c: Config, blocksM: nat, blocksN: nat, r: Register)
    requires c.Target() && c.tileN > 0 && r.In(c, blocksM, blocksN)
    ensures r.wave * c.CWaveDwords() <= OutputDword(c, r) < (r.wave + 1) * c.CWaveDwords()
    ensures OutputDword(c, r) < c.WaveCount() * c.CWaveDwords()
  {
    var d := Decode(c, blocksM, blocksN, r);
    OutputIndexInWave(c, r, d);
    hide OutputIndex, Config.CWaveDwords, Config.Target, Config.WaveTileN, Config.WaveTileM, Decoded;
    MixedRadix.Below(r.wave, r.wave + 1, OutputIndex(c, r), c.CWaveDwords());
    MixedRadix.Below(r.wave, c.WaveCount(), OutputIndex(c, r), c.CWaveDwords());
  }

  /** Within a workgroup no two registers share a staging dword. */
  lemma OutputDwordInjective(c: Config, blocksM: nat, blocksN: nat, r: Register, s: Register)
    requires c.Target() && c.tileN > 0 && r.In(c, blocksM, blocksN) && s.In(c, blocksM, blocksN)
    requires r.wgM == s.wgM && r.wgN == s.wgN && OutputDword(c, r) == OutputDword(c, s)
    ensures r == s
  {
    hide OutputIndex, Config.CWaveDwords, Config.Target, Config.WaveTileN, Config.WaveTileM, Decoded, RowInWave,
         ColumnInWave;
    var d := Decode(c, blocksM, blocksN, r);
    var e := Decode(c, blocksM, blocksN, s);
    OutputIndexInWave(c, r, d);
    OutputIndexInWave(c, s, e);
    MixedRadix.Unique(r.wave, OutputIndex(c, r), s.wave, OutputIndex(c, s), c.CWaveDwords());
    IndexIs(c, r, d);
    IndexIs(c, s, e);
    InWave(c, r, d);
    InWave(c, s, e);
    MixedRadix.Unique(RowInWave(c, r, d), ColumnInWave(c, r, d), RowInWave(c, s, e), ColumnInWave(c, s, e),
                      c.WaveTileN());
    DecodedUnique(c, r, d, s, e);
  }

  /** The one-wave kernel writes with its own formulas; they are those of the general kernel. */
  lemma OneWaveAgrees(c: Config, n: nat, r: Register)
    requires c.tileN > 0 && c.wavesM == c.wavesN == c.subtilesM == c.subtilesN == 1
    requires r.wave == 0 && r.subM == 0 && r.subN == 0
    ensures OutputIndex(c, r)
         == c.tileN * c.accumulatorDwords * (r.lane / c.tileN) + c.tileN * r.reg + r.lane % c.tileN
    ensures TileOrigin(c, n, r) == r.wgM * (c.tileM * n) + r.wgN * c.tileN
  {
    var half := r.lane / c.tileN;
    assert c.tileN * (c.accumulatorDwords * half + r.reg) == c.tileN * c.accumulatorDwords * half + c.tileN * r.reg;
    assert r.wgM * c.tileM * n == r.wgM * (c.tileM * n);
  }

  // -------------------------------------------------------------------- A and B elements

  /** One f16 element of an operand register: subtile, lane, dword of the lane's chunk and half of the dword. */
  datatype Part = Part(sub: nat, lane: nat, dword: nat, half: nat)
  {
    predicate In(c: Config, subs: nat) {
      sub < subs && lane < c.waveSize && dword < c.operandDwords && half < 2
    }
  }

  /** LDS dword, relative to the wave's region, that a lane reads. */
  function InputIndex(c: Config, p: Part): nat
    requires c.tileM > 0
  {
    var row: nat, half: nat, fragment: nat := p.lane % c.tileM, p.lane / c.tileM, c.FragmentDwords();
    c.laneK * row + c.operandDwords * half + p.sub * fragment + p.dword
  }

  /** Row-major element of the wave's staged tile that the part reads; a dword holds two. */
  function InputElement(c: Config, p: Part): nat
    requires c.tileM > 0
  {
    2 * InputIndex(c, p) + p.half
  }

  /** The global element of A (or B) behind a part of iteration `iteration`. */
  function GlobalInput(c: Config, k: nat, row0: nat, iteration: nat, p: Part): nat
    requires c.tileM > 0 && c.tileK > 0
  {
    TdmElement(row0 * k + iteration * c.tileK, k, c.tileK, InputElement(c, p))
  }

  /** Byte sizes divide into dwords without remainder. */
  lemma SizesExact(c: Config)
    requires c.Target()
    ensures c.FragmentDwords() * 2 == c.tileM * c.tileK && c.FragmentDwords() == c.tileM * c.laneK
    ensures c.AWaveDwords() == c.subtilesM * c.FragmentDwords() && c.BWaveDwords() == c.subtilesN * c.FragmentDwords()
  {
    Halved(c.tileM, c.laneK);
    Halved(c.WaveTileM(), c.laneK);
    Halved(c.WaveTileN(), c.laneK);
    MixedRadix.Associates(c.subtilesM, c.tileM, c.laneK);
    MixedRadix.Associates(c.subtilesN, c.tileM, c.laneK);
  }

  lemma Halved(rows: nat, laneK: nat)
    ensures rows * (2 * laneK) * 2 / 4 == rows * laneK && rows * (2 * laneK) == 2 * (rows * laneK)
  {
    assert rows * (2 * laneK) == 2 * (rows * laneK);
  }

  /** A lane reads half a row of its subtile: row `lane % tileM`, columns of its half-wave. */
  lemma InputIs(c: Config, subs: nat, p: Part) returns (row: nat, column: nat)
    requires c.Target() && c.tileM > 0 && p.In(c, subs)
    ensures row == p.sub * c.tileM + p.lane % c.tileM && row < subs * c.tileM
    ensures column == p.lane / c.tileM * c.laneK + (2 * p.dword + p.half) && column < c.tileK
    ensures InputElement(c, p) == row * c.tileK + column
  {
    SizesExact(c);
    hide Config.FragmentDwords, Config.AWaveDwords, Config.BWaveDwords;
    var chunk, lane := MixedRadix.Digits(p.lane, 2, c.tileM);
    row, column := p.sub * c.tileM + lane, chunk * c.laneK + (2 * p.dword + p.half);
    MixedRadix.Below(p.sub, subs, lane, c.tileM);
    MixedRadix.Below(chunk, 2, 2 * p.dword + p.half, c.laneK);
    RowMajor(p.sub, lane, chunk, c.tileM, c.laneK, c.operandDwords);
  }

  lemma RowMajor(sub: nat, lane: nat, chunk: nat, tile: nat, laneK: nat, dwords: nat)
    requires laneK == 2 * dwords
    ensures 2 * (laneK * lane + dwords * chunk + sub * (tile * laneK))
            == (sub * tile + lane) * (2 * laneK) + chunk * laneK
  {
    MixedRadix.Distributes(sub * tile, lane, 2 * laneK);
    MixedRadix.Associates(sub, tile, laneK);
    assert lane * (2 * laneK) == 2 * (laneK * lane);
    assert sub * tile * (2 * laneK) == 2 * (sub * tile * laneK);
    assert 2 * (dwords * chunk) == chunk * laneK;
  }

  /** The part's global element: its own row of the wave's tile, its own slice of the iteration's K columns. */
  lemma GlobalInputIs(c: Config, k: nat, row0: nat, iteration: nat, subs: nat, p: Part)
    requires c.Target() && c.tileM > 0 && c.tileK > 0 && p.In(c, subs)
    ensures GlobalInput(c, k, row0, iteration, p)
         == (row0 + (p.sub * c.tileM + p.lane % c.tileM)) * k
          + (iteration * c.tileK + (p.lane / c.tileM * c.laneK + (2 * p.dword + p.half)))
  {
    var row, column := InputIs(c, subs, p);
    hide Config.Target, InputElement, TdmElement;
    TdmElementIs(row0, iteration * c.tileK, k, row, c.tileK, column);
  }

  /** Every input part of the launch reads inside its operand. */
  lemma GlobalInputInside(c: Config, blocks: nat, wg: nat, waves: nat, wave: nat, subs: nat, steps: nat, iteration: nat,
                          p: Part)
    requires c.Target() && c.tileM > 0 && c.tileK > 0 && p.In(c, subs)
    requires wg < blocks && wave < waves && iteration < steps
    ensures GlobalInput(c, steps * c.tileK, Origin(wg, wave, waves, subs * c.tileM), iteration, p)
            < blocks * (waves * (subs * c.tileM)) * (steps * c.tileK)
  {
    var row, column := InputIs(c, subs, p);
    hide Config.Target, InputElement, TdmElement, InputIndex, Origin;
    var row0 := Origin(wg, wave, waves, subs * c.tileM);
    PlaceInside(wg, blocks, wave, waves, p.sub, subs, p.lane % c.tileM, c.tileM);
    TdmElementIs(row0, iteration * c.tileK, steps * c.tileK, row, c.tileK, column);
    MixedRadix.Below(iteration, steps, column, c.tileK);
    MixedRadix.Below(row0 + row, blocks * (waves * (subs * c.tileM)), iteration * c.tileK + column, steps * c.tileK);
  }

  /** No two parts of a wave read the same staged element. */
  lemma InputInjective(c: Config, subs: nat, p: Part, q: Part)
    requires c.Target() && c.tileM > 0 && p.In(c, subs) && q.In(c, subs) && InputElement(c, p) == InputElement(c, q)
    ensures p == q
  {
    var row, column := InputIs(c, subs, p);
    var row', column' := InputIs(c, subs, q);
    var chunk, lane := MixedRadix.Digits(p.lane, 2, c.tileM);
    var chunk', lane' := MixedRadix.Digits(q.lane, 2, c.tileM);
    hide InputElement, Config.FragmentDwords;
    MixedRadix.Unique(row, column, row', column', c.tileK);
    MixedRadix.Unique(p.sub, lane, q.sub, lane', c.tileM);
    MixedRadix.Unique(chunk, 2 * p.dword + p.half, chunk', 2 * q.dword + q.half, c.laneK);
  }

  /** Every element of the wave's staged tile is read by some part. */
  lemma InputCovered(c: Config, subs: nat, at: nat) returns (p: Part)
    requires c.Target() && c.tileM > 0 && at < subs * c.tileM * c.tileK
    ensures p.In(c, subs) && InputElement(c, p) == at
  {
    var row, column := MixedRadix.Digits(at, subs * c.tileM, c.tileK);
    var sub, lane := MixedRadix.Digits(row, subs, c.tileM);
    var chunk, pair := MixedRadix.Digits(column, 2, c.laneK);
    MixedRadix.Below(chunk, 2, lane, c.tileM);
    MixedRadix.Split(chunk, lane, c.tileM);
    p := Part(sub, chunk * c.tileM + lane, pair / 2, pair % 2);
    var row', column' := InputIs(c, subs, p);
    hide InputElement, Config.FragmentDwords;
  }

  /** A wave's reads stay in the region its TDM loads fill, for A and for B. */
  lemma InputInRegion(c: Config, wave: nat, subs: nat, region: nat, p: Part)
    requires c.Target() && c.tileM > 0 && wave < c.WaveCount() && p.In(c, subs) && region == subs * c.FragmentDwords()
    ensures wave * region <= wave * region + InputIndex(c, p) < (wave + 1) * region <= c.WaveCount() * region
  {
    var row, column := InputIs(c, subs, p);
    SizesExact(c);
    MixedRadix.Below(row, subs * c.tileM, column, c.tileK);
    MixedRadix.Associates(subs, c.tileM, c.tileK);
    HalfProduct(subs, c.FragmentDwords(), c.tileM * c.tileK);
    hide InputIndex, Config.FragmentDwords, Config.Target;
    MixedRadix.Below(wave, wave + 1, InputIndex(c, p), region);
    MixedRadix.Monotone(wave + 1, c.WaveCount(), region);
  }

  lemma HalfProduct(subs: nat, half: nat, whole: nat)
    requires half * 2 == whole
    ensures subs * whole == 2 * (subs * half)
  {}

  /** First row of A (or of B) that a wave's tile covers, with the wave's own number on the axis. */
  function RowsOfA(c: Config, r: Register): nat
    requires c.wavesN > 0
  {
    var waveM: nat := r.wave / c.wavesN;
    Origin(r.wgM, waveM, c.wavesM, c.WaveTileM())
  }

  function RowsOfB(c: Config, r: Register): nat
    requires c.wavesN > 0
  {
    var waveN: nat := r.wave % c.wavesN;
    Origin(r.wgN, waveN, c.wavesN, c.WaveTileN())
  }

  /** Row of its tile that a register holds, in the target's result layout. */
  function ResultRow(c: Config, r: Register): nat
    requires c.tileN > 0
  {
    var half: nat := r.lane / c.tileN;
    half * c.accumulatorDwords + r.reg
  }

  /**
   A register is stored in the row of C that belongs to the row of A, and the column that belongs to the row of B,
   that its MMA reads: for the target's result layout, register `reg` of lane `lane` is the product of the A row
   of lane `half * accumulatorDwords + reg` and the B row of lane `lane % tileN`, in its own subtiles, and all
   their parts of an iteration are of the same K columns.
   */
  lemma OutputMatchesInputs(c: Config, blocksM: nat, blocksN: nat, n: nat, k: nat, iteration: nat, r: Register,
                            a: Part, b: Part)
    returns (row: nat, column: nat, kColumn: nat)
    requires c.Target() && c.tileM > 0 && c.tileN > 0 && c.tileK > 0 && c.wavesN > 0 && c.WaveTileN() > 0
    requires r.In(c, blocksM, blocksN) && a.In(c, c.subtilesM) && b.In(c, c.subtilesN)
    requires a.sub == r.subM && a.lane % c.tileM == ResultRow(c, r)
    requires b.sub == r.subN && b.lane % c.tileM == r.lane % c.tileN
    requires a.lane / c.tileM == b.lane / c.tileM && a.dword == b.dword && a.half == b.half
    ensures row == RowsOfA(c, r) + (r.subM * c.tileM + ResultRow(c, r))
    ensures column == RowsOfB(c, r) + (r.subN * c.tileN + r.lane % c.tileN)
    ensures Element(c, n, r) == row * n + column
    ensures iteration * c.tileK <= kColumn < iteration * c.tileK + c.tileK
    ensures GlobalInput(c, k, RowsOfA(c, r), iteration, a) == row * k + kColumn
    ensures GlobalInput(c, k, RowsOfB(c, r), iteration, b) == column * k + kColumn
  {
    hide *;
    TilesPositive(c);
    var d := Decode(c, blocksM, blocksN, r);
    ElementIs(c, n, r, d);
    RowsAre(c, r, d);
    row, column := GlobalRow(c, r, d), GlobalColumn(c, r, d);
    var chunk := InputAt(c, k, RowsOfA(c, r), iteration, c.subtilesM, a, ResultRow(c, r), a);
    var chunk' := InputAt(c, k, RowsOfB(c, r), iteration, c.subtilesN, b, r.lane % c.tileN, a);
    kColumn := iteration * c.tileK + chunk;
  }

  /** A part's place in its row depends on its chunk and its place in that alone. */
  lemma InputAt(c: Config, k: nat, row0: nat, iteration: nat, subs: nat, p: Part, lane: nat, like: Part)
    returns (chunk: nat)
    requires c.Target() && c.tileM > 0 && c.tileK > 0 && p.In(c, subs) && lane == p.lane % c.tileM
    requires like.lane / c.tileM == p.lane / c.tileM && like.dword == p.dword && like.half == p.half
    ensures chunk < c.tileK && chunk == ChunkPlace(c, like)
    ensures GlobalInput(c, k, row0, iteration, p)
            == (row0 + (p.sub * c.tileM + lane)) * k + (iteration * c.tileK + chunk)
  {
    GlobalInputIs(c, k, row0, iteration, subs, p);
    var row', column := InputIs(c, subs, p);
    hide Config.Target, GlobalInput, InputElement;
    chunk := column;
  }

  function ChunkPlace(c: Config, p: Part): nat
    requires c.tileM > 0
  {
    var chunk: nat := p.lane / c.tileM;
    chunk * c.laneK + (2 * p.dword + p.half)
  }

  lemma RowsAre(c: Config, r: Register, d: Coordinates)
    requires c.wavesN > 0 && c.tileN > 0 && d.waveM == r.wave / c.wavesN && d.waveN == r.wave % c.wavesN
    requires d.half == r.lane / c.tileN && d.column == r.lane % c.tileN
    ensures GlobalRow(c, r, d)
            == RowsOfA(c, r) + (r.subM * c.tileM + ResultRow(c, r))
    ensures GlobalColumn(c, r, d) == RowsOfB(c, r) + (r.subN * c.tileN + r.lane % c.tileN)
  {
    hide Origin, Config.WaveTileM, Config.WaveTileN;
  }
}
