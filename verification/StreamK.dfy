/**
 Two programs that must agree on a Stream-K launch: the calibrator, which validates arguments in
 unbounded integers, and the runner it starts, which validates them again in fixed-width ones.
 */
module StreamK {
  import MixedRadix
  import opened Blocking
  import opened CheckedArith

  /** The dimensions and tile counts both programs receive. */
  datatype Shape = Shape(m: int, n: int, k: int, bm: int, bn: int, waveM: int, waveN: int, waveK: int, workers: int)

  /** Calibrator arguments that are not passed on to the runner's Stream-K checks. */
  datatype Topology = Topology(swizzleXcds: int, groupM: int, columnMajor: bool, gfx950F16: bool)

  predicate TileShape(a: Shape) {
    (a.bm, a.bn, a.waveM, a.waveN, a.waveK) == (2, 2, 8, 8, 2)
  }

  // ------------------------------------------------------------------ calibrator

  function TileCount(a: Shape): int { (a.m / 256) * (a.n / 256) }

  predicate PositiveInt32(x: int) { 0 < x <= INT_MAX }

  /** `_validate_streamk_target_and_shape` */
  predicate ShapeAccepted(a: Shape, t: Topology) {
    && t.gfx950F16
    && PositiveInt32(a.m) && PositiveInt32(a.n) && PositiveInt32(a.k)
    && a.m % 256 == 0 && a.n % 256 == 0 && a.k % 64 == 0
    && TileShape(a)
  }

  /** `_validate_streamk_topology` */
  predicate TopologyAccepted(a: Shape, t: Topology)
    requires t.groupM > 0
  {
    && t.swizzleXcds in [1, 2, 4, 8] && TileCount(a) % t.swizzleXcds == 0
    && a.m / 256 % t.groupM == 0 && t.columnMajor
  }

  /** `_validate_streamk_buffer_ranges` */
  predicate RangesAccepted(a: Shape) {
    a.m * a.k * 2 <= UINT32_MAX && a.n * a.k * 2 <= UINT32_MAX && a.m * a.n * 2 <= UINT32_MAX
  }

  function WorkspaceFactors(a: Shape): (seq<int>, seq<int>) {
    ([a.workers, 2, 256 * 256, 4], [a.m / 256, a.n / 256, 4])
  }

  /** `_validate_streamk_work` */
  predicate WorkAccepted(a: Shape) {
    var total := TileCount(a) * (a.k / 64);
    && total <= INT_MAX && 1 <= a.workers <= total
    && PartialProductsFit(WorkspaceFactors(a).0) && PartialProductsFit(WorkspaceFactors(a).1)
  }

  predicate CalibratorAccepts(a: Shape, t: Topology)
    requires t.groupM > 0
  {
    ShapeAccepted(a, t) && TopologyAccepted(a, t) && RangesAccepted(a) && WorkAccepted(a)
  }

  // ---------------------------------------------------------------------- runner

  datatype Workspace = Workspace(scratchBytes: nat, counterElements: nat, counterBytes: nat)

  /** `getStreamKWorkspaceSizes` */
  function RunnerWorkspace(a: Shape): Checked<Workspace>
    requires PositiveInt32(a.workers) && PositiveInt32(a.m) && PositiveInt32(a.n)
  {
    var s2 :- CheckedProduct(a.workers, 2);
    var s3 :- CheckedProduct(s2, 256 * 256);
    var scratch :- CheckedProduct(s3, 4);
    var elements :- CheckedProduct(a.m / 256, a.n / 256);
    var bytes :- CheckedProduct(elements, 4);
    Value(Workspace(scratch, elements, bytes))
  }

  /** `validateStreamKBufferRange` */
  function BufferRange(x: int, y: int): Checked<()>
    requires PositiveInt32(x) && PositiveInt32(y)
  {
    var elements :- CheckedProduct(x, y);
    var bytes :- CheckedProduct(elements, 2);
    if bytes > UINT32_MAX then Died else Value(())
  }

  /** `validateStreamKWork` */
  function RunnerWork(a: Shape): Checked<Workspace>
    requires PositiveInt32(a.m) && PositiveInt32(a.n) && PositiveInt32(a.k)
  {
    var tiles :- CheckedProduct(a.m / 256, a.n / 256);
    var total :- CheckedProduct(tiles, a.k / 64);
    if total > INT_MAX then Died
    else if a.workers <= 0 || a.workers > total then Died
    else
      var _ :- BufferRange(a.m, a.k);
      var _ :- BufferRange(a.n, a.k);
      var _ :- BufferRange(a.m, a.n);
      RunnerWorkspace(a)
  }

  /** `validateStreamKArgs` after the positivity checks of `validateArgs`. */
  function RunnerStreamK(a: Shape, columnMajor: bool): Checked<Workspace> {
    if !(PositiveInt32(a.m) && PositiveInt32(a.n) && PositiveInt32(a.k)) then Died
    else if !TileShape(a) then Died
    else if a.m % 256 != 0 || a.n % 256 != 0 || a.k % 64 != 0 then Died
    else if !columnMajor then Died
    else RunnerWork(a)
  }

  function TilesOf(a: Shape): Tiles {
    Tiles(a.m, a.n, a.k, a.bm, a.bn, a.waveM, a.waveN, a.waveK)
  }

  // ------------------------------------------------------------------- agreement

  lemma WorkspaceProducts(a: Shape)
    requires a.workers > 0 && a.m / 256 > 0 && a.n / 256 > 0
    ensures Product(WorkspaceFactors(a).0) == a.workers * 2 * 65536 * 4
    ensures Product(WorkspaceFactors(a).1) == TileCount(a) * 4
    ensures PartialProductsFit(WorkspaceFactors(a).0) <==> a.workers * 2 * 65536 * 4 <= SIZE_T_MAX
    ensures PartialProductsFit(WorkspaceFactors(a).1) <==> TileCount(a) * 4 <= SIZE_T_MAX
  {
    var (s, c) := WorkspaceFactors(a);
    PositiveFactorsExact(s);
    PositiveFactorsExact(c);
    assert s[..3] == [a.workers, 2, 65536] && s[..3][..2] == [a.workers, 2] && s[..2][..1] == [a.workers];
    assert c[..2] == [a.m / 256, a.n / 256] && c[..2][..1] == [a.m / 256];
    assert Product([a.workers]) == a.workers && Product([a.m / 256]) == a.m / 256;
    assert Product([a.workers, 2]) == a.workers * 2;
    assert Product([a.m / 256, a.n / 256]) == TileCount(a);
    assert Product([a.workers, 2, 65536]) == a.workers * 2 * 65536;
  }

  /**
   The calibrator's own factor lists always meet the condition under which its product check is exact, whatever
   the number of workers and for any dimensions that fit an int.
   */
  lemma WorkspaceChecksExact(a: Shape)
    requires a.workers >= 0 && 0 <= a.m <= INT_MAX && 0 <= a.n <= INT_MAX
    ensures PartialProductsFit(WorkspaceFactors(a).0) <==> Product(WorkspaceFactors(a).0) <= SIZE_T_MAX
    ensures PartialProductsFit(WorkspaceFactors(a).1) <==> Product(WorkspaceFactors(a).1) <= SIZE_T_MAX
  {
    var (s, c) := WorkspaceFactors(a);
    SizeProductExactIff(s);
    SizeProductExactIff(c);
    assert c[..0] == [] && s[..0] == [];
    assert c[..1] == [a.m / 256] && c[..1][..0] == [];
    assert FirstZero(s) == 0 || FirstZero(s) == |s|;
    assert FirstZero(c) in [0, 1, 3];
  }

  /** A buffer passes the runner's range check exactly when its f16 elements fit 32-bit byte offsets. */
  lemma BufferRangeExact(x: int, y: int)
    requires PositiveInt32(x) && PositiveInt32(y)
    ensures BufferRange(x, y).Value? <==> x * y * 2 <= UINT32_MAX
  {
    MixedRadix.Monotone(x, INT_MAX, y);
    MixedRadix.Monotone(y, INT_MAX, INT_MAX);
    hide CheckedProduct;
  }

  /** The two Stream-K validators accept the same work, and then size scratch and counters alike. */
  lemma ValidatorsAgree(a: Shape)
    requires PositiveInt32(a.m) && PositiveInt32(a.n) && PositiveInt32(a.k)
    requires a.m % 256 == 0 && a.n % 256 == 0 && a.k % 64 == 0
    ensures RunnerWork(a).Value? <==> RangesAccepted(a) && WorkAccepted(a)
    ensures RunnerWork(a).Value? ==>
      && RunnerWork(a).value.scratchBytes == Product(WorkspaceFactors(a).0)
      && RunnerWork(a).value.counterBytes == Product(WorkspaceFactors(a).1)
      && RunnerWork(a).value.counterElements == TileCount(a)
  {
    BufferRangeExact(a.m, a.k);
    BufferRangeExact(a.n, a.k);
    BufferRangeExact(a.m, a.n);
    TotalBound(a);
    if a.workers > 0 {
      WorkspaceProducts(a);
    }
    hide BufferRange, Product, PartialProductsFit, WorkspaceFactors, CheckedProduct;
  }

  /** Tile counts of int-sized dimensions always fit 64 bits; iteration counts need not. */
  lemma TotalBound(a: Shape)
    requires PositiveInt32(a.m) && PositiveInt32(a.n) && PositiveInt32(a.k)
    ensures 0 <= TileCount(a) <= UINT64_MAX
    ensures 0 <= TileCount(a) * (a.k / 64)
  {
    var x, y := a.m / 256, a.n / 256;
    MixedRadix.Monotone(x, 0x80_0000, y);
    MixedRadix.Monotone(0, x, y);
    MixedRadix.Monotone(0, x * y, a.k / 64);
  }

  /**
   Every configuration the calibrator accepts passes the runner's Stream-K, blocking and
   output-count checks, with the calibrator's workspace sizes and an integral launch shape.
   */
  lemma AcceptedRuns(a: Shape, t: Topology)
    requires t.groupM > 0 && CalibratorAccepts(a, t)
    ensures RunnerStreamK(a, t.columnMajor).Value?
    ensures RunnerStreamK(a, t.columnMajor).value.scratchBytes == Product(WorkspaceFactors(a).0)
    ensures RunnerStreamK(a, t.columnMajor).value.counterBytes == Product(WorkspaceFactors(a).1)
    ensures GetBlocking(TilesOf(a), 64, 32) == Value(Blocks(a.m / 256, a.n / 256, a.k / 64, 4, 256))
    ensures CheckedIntProduct(a.m, a.n) == Value(a.m * a.n)
  {
    ValidatorsAgree(a);
    CheckedIntProductExact(a.m, a.n);
    MixedRadix.Monotone(1, a.m, a.n);
    Blocked(a);
    hide RunnerWork, Product, PartialProductsFit, CheckedIntProduct, GetBlocking;
  }

  /** There are such configurations. */
  lemma SomeAccepted()
    ensures CalibratorAccepts(Shape(4096, 4096, 4096, 2, 2, 8, 8, 2, 256), Topology(8, 4, true, true))
  {
    var a := Shape(4096, 4096, 4096, 2, 2, 8, 8, 2, 256);
    WorkspaceProducts(a);
    hide PartialProductsFit, Product, WorkspaceFactors;
  }

  lemma Blocked(a: Shape)
    requires PositiveInt32(a.m) && PositiveInt32(a.n) && PositiveInt32(a.k) && TileShape(a)
    requires a.m % 256 == 0 && a.n % 256 == 0 && a.k % 64 == 0
    ensures GetBlocking(TilesOf(a), 64, 32) == Value(Blocks(a.m / 256, a.n / 256, a.k / 64, 4, 256))
  {
    BlockingExact(TilesOf(a), 64, 32);
    hide GetBlocking;
  }
}
