/** The kernel configuration, the checks it must pass, and the geometry an accepted one gives. */
module SubtileConfig {
  import MixedRadix
  import SubtileStage
  import CheckedArith

  const MMA_K := 128

  datatype Verdict = Accepted | Rejected(message: string)

  datatype Config = Config(m: int, n: int, k: int, bm: int, bn: int,
                           waveM: int, waveN: int, waveK: int, targetWaves: int, scaleInput: string)
  {
    predicate Positive() {
      m > 0 && n > 0 && k > 0 && bm > 0 && bn > 0 && waveM > 0 && waveN > 0 && waveK > 0
    }

    function BlockMTiles(): int { bm * waveM }
    function BlockNTiles(): int { bn * waveN }
    function Waves(): int { bm * bn }
    function KSteps(): int { k / MMA_K }
    function ASlots(): int { waveK * BlockMTiles() }
    function BSlots(): int { waveK * BlockNTiles() }
    function StorageK(): int { k / 2 }

    function VirtualKSteps(): int
      requires waveK > 0
    {
      KSteps() / waveK
    }

    function MBlocks(): int
      requires BlockMTiles() > 0
    {
      m / (16 * BlockMTiles())
    }

    function NBlocks(): int
      requires BlockNTiles() > 0
    {
      n / (16 * BlockNTiles())
    }

    function KScaleGroupsPerStep(): int { waveK / 2 }
    function AScaleGroups(): int { (waveM / 2) * KScaleGroupsPerStep() }
    function BScaleGroups(): int { (waveN / 2) * KScaleGroupsPerStep() }

    /** `_validate_config`: the first check that fails names the verdict. */
    function Validate(): Verdict {
      if scaleInput !in ["canonical", "tensilelite"] then Rejected("--scale-input must be canonical or tensilelite")
      else if m <= 0 then Rejected("m must be positive")
      else if n <= 0 then Rejected("n must be positive")
      else if k <= 0 then Rejected("k must be positive")
      else if bm <= 0 then Rejected("bm must be positive")
      else if bn <= 0 then Rejected("bn must be positive")
      else if waveM <= 0 then Rejected("wave_m_tiles must be positive")
      else if waveN <= 0 then Rejected("wave_n_tiles must be positive")
      else if waveK <= 0 then Rejected("wave_k_tiles must be positive")
      else if k % MMA_K != 0 then Rejected("k must divide by 128")
      else if KSteps() % waveK != 0 then Rejected("wave_k_tiles must divide k/128")
      else if waveK % 2 != 0 then Rejected("wave_k_tiles must be even for 2x2 scale groups")
      else if scaleInput == "tensilelite" && waveK != 2 then
        Rejected("tensilelite subtile example models the 2-pass TensileLite mainloop")
      else if scaleInput == "tensilelite" && VirtualKSteps() > 1 && VirtualKSteps() % 2 != 0 then
        Rejected("tensilelite subtile example models PGR2 and requires even virtual K steps")
      else if waveM % 2 != 0 || waveN % 2 != 0 then Rejected("wave M/N tiles must be even for 2x2 scale groups")
      else if !Divides(BlockMTiles(), m / 16) then Rejected("bm * wave_m_tiles must divide m/16")
      else if !Divides(BlockNTiles(), n / 16) then Rejected("bn * wave_n_tiles must divide n/16")
      else if !Divides(Waves(), ASlots()) then Rejected("A DTL slots must divide evenly across waves")
      else if !Divides(Waves(), BSlots()) then Rejected("B DTL slots must divide evenly across waves")
      else if targetWaves < 0 then Rejected("target_waves must be non-negative")
      else Accepted
    }

    predicate Ok() { Validate() == Accepted }
  }

  predicate Divides(d: int, x: int) {
    d > 0 && x % d == 0
  }

  lemma PositiveProduct(x: int, y: int)
    requires x > 0 && y > 0
    ensures x * y > 0
  {}

  /** K is a whole number of steps of `waveK` 128-element tiles. */
  lemma AcceptedK(cfg: Config)
    requires cfg.Ok()
    ensures cfg.Positive() && cfg.VirtualKSteps() >= 1
    ensures cfg.KSteps() == cfg.VirtualKSteps() * cfg.waveK && cfg.k == 128 * cfg.KSteps()
    ensures cfg.StorageK() == 64 * cfg.KSteps()
  {
    var q := cfg.KSteps();
    assert cfg.k == 128 * q;
    MixedRadix.ExactQuotient(q, cfg.waveK);
    assert q > 0 && q / cfg.waveK >= 0;
  }

  /** `compute_virtual_k_steps` of the calibrator. */
  function CalibratorSteps(cfg: Config): CheckedArith.Checked<int> {
    CheckedArith.DivExact(cfg.k, MMA_K * cfg.waveK)
  }

  /** The kernel's trip-count argument: `max(steps - 1, 0)`. */
  function KernelTripCount(steps: int): nat {
    if steps - 1 > 0 then steps - 1 else 0
  }

  /** The calibrator divides exactly, gets the kernel's own step count, and passes one less. */
  lemma TripCountAgrees(cfg: Config)
    requires cfg.Ok()
    ensures CalibratorSteps(cfg) == CheckedArith.Value(cfg.VirtualKSteps())
    ensures KernelTripCount(cfg.VirtualKSteps()) + 1 == cfg.VirtualKSteps()
  {
    AcceptedK(cfg);
    hide Config.Validate, Config.VirtualKSteps, Config.KSteps;
    var steps: nat, block: nat := cfg.VirtualKSteps(), MMA_K * cfg.waveK;
    Regroup(steps, cfg.waveK);
    MixedRadix.Split(steps, 0, block);
  }

  lemma Regroup(steps: nat, waveK: nat)
    ensures 128 * (steps * waveK) == steps * (128 * waveK)
  {}

  /** Dividing in two steps is dividing by the product. */
  lemma TwoDivisions(x: nat, a: nat, b: nat)
    requires a > 0 && b > 0
    ensures a * b > 0 && (x % a == 0 && x / a % b == 0 <==> x % (a * b) == 0)
  {
    PositiveProduct(a, b);
    MixedRadix.Commutes(a, b);
    if x % a == 0 && x / a % b == 0 {
      MixedRadix.ExactQuotient(x, a);
      MixedRadix.ExactQuotient(x / a, b);
      MixedRadix.Associates(x / a / b, b, a);
      MixedRadix.Split(x / a / b, 0, a * b);
    } else if x % (a * b) == 0 {
      var q := x / (a * b);
      MixedRadix.ExactQuotient(x, a * b);
      MixedRadix.Associates(q, b, a);
      MixedRadix.Split(q * b, 0, a);
      MixedRadix.Split(q, 0, b);
    }
  }

  /** A common factor cancels from a division. */
  lemma FactorCancels(c: nat, a: nat, b: nat)
    requires c > 0 && b > 0
    ensures c * b > 0 && (c * a % (c * b) == 0 <==> a % b == 0)
  {
    TwoDivisions(c * a, c, b);
    MixedRadix.Commutes(c, a);
    MixedRadix.Split(a, 0, c);
  }

  /** What the checks on slots and waves come to: the other axis's waves divide a wave's own tiles. */
  lemma SlotsDivide(cfg: Config)
    requires cfg.Positive()
    ensures Divides(cfg.Waves(), cfg.ASlots()) <==> cfg.waveK * cfg.waveM % cfg.bn == 0
    ensures Divides(cfg.Waves(), cfg.BSlots()) <==> cfg.waveK * cfg.waveN % cfg.bm == 0
  {
    FactorCancels(cfg.bm, cfg.waveK * cfg.waveM, cfg.bn);
    FactorCancels(cfg.bn, cfg.waveK * cfg.waveN, cfg.bm);
    SlotProduct(cfg.waveK, cfg.bm, cfg.waveM);
    SlotProduct(cfg.waveK, cfg.bn, cfg.waveN);
    MixedRadix.Commutes(cfg.bm, cfg.bn);
  }

  lemma SlotProduct(waveK: nat, waves: nat, tiles: nat)
    ensures waveK * (waves * tiles) == waves * (waveK * tiles)
  {
    MixedRadix.Associates(waveK, waves, tiles);
    MixedRadix.Associates(waves, waveK, tiles);
    MixedRadix.Commutes(waveK, waves);
  }

  /**
   A configuration is accepted if and only if the sizes are positive, the tiles of a wave even, K a whole number of
   steps (for the pre-swizzled scales one, or an even number, of 256 elements), the blocks divide the whole
   16-row tiles, and the waves of one axis the k-tiles times the tiles of the other.
   */
  lemma AcceptedIff(cfg: Config)
    ensures cfg.Ok() <==>
            && (cfg.scaleInput == "canonical" || cfg.scaleInput == "tensilelite")
            && cfg.Positive() && cfg.targetWaves >= 0
            && cfg.waveM % 2 == 0 && cfg.waveN % 2 == 0 && cfg.waveK % 2 == 0
            && cfg.k % (128 * cfg.waveK) == 0
            && (cfg.scaleInput == "tensilelite" ==> cfg.waveK == 2 && (cfg.k == 256 || cfg.k % 512 == 0))
            && Divides(cfg.bm * cfg.waveM, cfg.m / 16) && Divides(cfg.bn * cfg.waveN, cfg.n / 16)
            && cfg.waveK * cfg.waveM % cfg.bn == 0 && cfg.waveK * cfg.waveN % cfg.bm == 0
  {
    if cfg.Positive() {
      TwoDivisions(cfg.k, 128, cfg.waveK);
      SlotsDivide(cfg);
      EvenSteps(cfg);
    }
    hide Config.Waves, Config.ASlots, Config.BSlots;
  }

  lemma EvenSteps(cfg: Config)
    requires cfg.Positive()
    ensures cfg.waveK == 2 && cfg.k % 256 == 0 ==>
              (!(cfg.VirtualKSteps() > 1 && cfg.VirtualKSteps() % 2 != 0) <==> cfg.k == 256 || cfg.k % 512 == 0)
  {
    if cfg.waveK == 2 && cfg.k % 256 == 0 {
      var q := cfg.k / 256;
      assert cfg.k == 256 * q;
      assert cfg.VirtualKSteps() == q;
    }
  }

  /** Both scale inputs have accepted configurations. */
  lemma SomeAccepted()
    ensures Config(256, 256, 512, 2, 2, 2, 2, 2, 0, "tensilelite").Ok()
    ensures Config(256, 256, 1024, 2, 2, 2, 2, 4, 0, "canonical").Ok()
  {}

  /** The blocks fit the problem, and tile it exactly when its extent is a multiple of 16. */
  lemma BlocksFit(extent: int, tiles: int)
    requires extent > 0 && Divides(tiles, extent / 16)
    ensures 0 <= extent / (16 * tiles) && extent / (16 * tiles) * (16 * tiles) <= extent
    ensures extent / (16 * tiles) * tiles == extent / 16
    ensures extent / (16 * tiles) * (16 * tiles) == extent <==> extent % 16 == 0
  {
    var q := extent / 16;
    var b := q / tiles;
    MixedRadix.ExactQuotient(q, tiles);
    assert extent == b * (16 * tiles) + extent % 16 by {
      assert b * (16 * tiles) == 16 * (b * tiles);
    }
    MixedRadix.Split(b, extent % 16, 16 * tiles);
  }

  /** A configuration that is accepted although its blocks leave the last eight rows uncovered. */
  lemma SomeUncovered()
    ensures var cfg := Config(264, 256, 512, 2, 2, 2, 2, 2, 0, "tensilelite");
            cfg.Ok() && cfg.MBlocks() * (16 * cfg.BlockMTiles()) == 256 < cfg.m
  {}

  /** Geometry of the wave `wave` of any workgroup. */
  function GeometryOf(cfg: Config, wave: nat): SubtileStage.Geometry
    requires cfg.Ok()
  {
    AcceptedK(cfg);
    Nonnegative(cfg, wave);
    SubtileStage.Geometry(
      cfg.waveM, cfg.waveN, cfg.waveK, cfg.BlockMTiles(), cfg.BlockNTiles(), cfg.Waves(),
      cfg.ASlots(), cfg.BSlots(), cfg.AScaleGroups(), cfg.BScaleGroups(), cfg.bm, cfg.bn,
      wave / cfg.bn * cfg.waveM, wave % cfg.bn * cfg.waveN, wave / cfg.bn, wave % cfg.bn,
      cfg.VirtualKSteps(), cfg.scaleInput == "tensilelite")
  }

  lemma Nonnegative(cfg: Config, wave: nat)
    requires cfg.Positive()
    ensures cfg.BlockMTiles() > 0 && cfg.BlockNTiles() > 0 && cfg.Waves() > 0
    ensures cfg.ASlots() > 0 && cfg.BSlots() > 0 && cfg.AScaleGroups() >= 0 && cfg.BScaleGroups() >= 0
    ensures wave / cfg.bn * cfg.waveM >= 0 && wave % cfg.bn * cfg.waveN >= 0
  {
    PositiveProduct(cfg.bm, cfg.waveM);
    PositiveProduct(cfg.bn, cfg.waveN);
    PositiveProduct(cfg.bm, cfg.bn);
    PositiveProduct(cfg.waveK, cfg.BlockMTiles());
    PositiveProduct(cfg.waveK, cfg.BlockNTiles());
    MixedRadix.Monotone(0, cfg.waveM / 2, cfg.waveK / 2);
    MixedRadix.Monotone(0, cfg.waveN / 2, cfg.waveK / 2);
    MixedRadix.Monotone(0, wave / cfg.bn, cfg.waveM);
    MixedRadix.Monotone(0, wave % cfg.bn, cfg.waveN);
  }

  /** Every accepted configuration meets the assumptions of the pipeline, for each of its waves. */
  lemma AcceptedGeometry(cfg: Config, wave: nat)
    requires cfg.Ok() && wave < cfg.Waves()
    ensures GeometryOf(cfg, wave).Valid()
  {
    AcceptedK(cfg);
    Nonnegative(cfg, wave);
    MixedRadix.Compose(wave, cfg.bm, cfg.bn);
    WaveFits(wave / cfg.bn, cfg.bm, cfg.waveM);
    WaveFits(wave % cfg.bn, cfg.bn, cfg.waveN);
  }

  lemma WaveFits(wave: nat, waves: nat, tiles: nat)
    requires wave < waves
    ensures wave * tiles + tiles <= waves * tiles
  {
    MixedRadix.Monotone(wave + 1, waves, tiles);
  }
}
