/** How the runner cuts a matmul into workgroups, waves and steps, in checked ints. */
module Blocking {
  import MixedRadix
  import opened CheckedArith

  /** The dimensions and tile counts of a launch. */
  datatype Tiles = Tiles(m: int, n: int, k: int, bm: int, bn: int, waveM: int, waveN: int, waveK: int)
  {
    /** The positivity checks of `validateArgs`, on ints. */
    predicate Positive() {
      && Extent(m) && Extent(n) && Extent(k) && Extent(bm) && Extent(bn)
      && Extent(waveM) && Extent(waveN) && Extent(waveK)
    }
  }

  predicate Extent(x: int) { 0 < x <= INT_MAX }

  datatype Blocks = Blocks(blocksX: int, blocksY: int, virtualKSteps: int, waves: int, threads: int)

  function BoundedProduct(lhs: int, rhs: int): (r: Checked<int>)
    requires IsInt32(lhs) && IsInt32(rhs)
    ensures r == CheckedIntProduct(lhs, rhs)
    ensures r.Value? ==> IsInt32(r.value)
  {
    CheckedIntProductExact(lhs, rhs);
    CheckedIntProduct(lhs, rhs)
  }

  /** `getMatmulBlocking` */
  function GetBlocking(t: Tiles, waveSize: int, mmaK: int): Checked<Blocks>
    requires IsInt32(t.bm) && IsInt32(t.bn) && IsInt32(t.waveM) && IsInt32(t.waveN) && IsInt32(t.waveK)
    requires IsInt32(waveSize) && IsInt32(mmaK)
  {
    var mTiles :- BoundedProduct(t.bm, t.waveM);
    var nTiles :- BoundedProduct(t.bn, t.waveN);
    var mRows :- BoundedProduct(16, mTiles);
    var nCols :- BoundedProduct(16, nTiles);
    var kBlock :- BoundedProduct(mmaK, t.waveK);
    var waves :- BoundedProduct(t.bm, t.bn);
    var threads :- BoundedProduct(waves, waveSize);
    var x :- DivExact(t.m, mRows);
    var y :- DivExact(t.n, nCols);
    var z :- DivExact(t.k, kBlock);
    Value(Blocks(x, y, z, waves, threads))
  }

  /** A product of positive ints passes exactly when it fits. */
  lemma PositiveProduct(lhs: int, rhs: int)
    requires Extent(lhs) && Extent(rhs)
    ensures lhs * rhs > 0
    ensures BoundedProduct(lhs, rhs) == if lhs * rhs <= INT_MAX then Value(lhs * rhs) else Died
  {
    MixedRadix.AtLeastOnce(lhs, rhs);
    CheckedIntProductExact(lhs, rhs);
  }

  /** A block that does not fit an int divides no extent. */
  lemma TooLargeToDivide(x: int, d: int)
    requires Extent(x) && d > INT_MAX
    ensures x % d != 0
  {}

  /** Blocks of one axis: the products pass and the division is exact if and only if the block divides the extent. */
  lemma AxisExact(x: int, factor: int, lhs: int, rhs: int)
    requires Extent(x) && Extent(factor) && Extent(lhs) && Extent(rhs)
    ensures lhs * rhs > 0 && factor * (lhs * rhs) > 0
    ensures var tiles := BoundedProduct(lhs, rhs);
            x % (factor * (lhs * rhs)) == 0
            <==> tiles.Value? && BoundedProduct(factor, tiles.value).Value?
                 && DivExact(x, BoundedProduct(factor, tiles.value).value).Value?
    ensures x % (factor * (lhs * rhs)) == 0 ==>
              && BoundedProduct(lhs, rhs) == Value(lhs * rhs)
              && BoundedProduct(factor, lhs * rhs) == Value(factor * (lhs * rhs))
              && DivExact(x, factor * (lhs * rhs)) == Value(x / (factor * (lhs * rhs)))
  {
    PositiveProduct(lhs, rhs);
    var tiles := lhs * rhs;
    MixedRadix.AtLeastOnce(factor, tiles);
    if tiles <= INT_MAX {
      PositiveProduct(factor, tiles);
      if factor * tiles > INT_MAX {
        TooLargeToDivide(x, factor * tiles);
      }
    } else {
      TooLargeToDivide(x, factor * tiles);
    }
    hide BoundedProduct;
  }

  /** What the runner's blocking demands, and what it then is. */
  predicate Divides(t: Tiles, waveSize: int, mmaK: int)
    requires t.Positive() && Extent(waveSize) && Extent(mmaK)
  {
    && (t.bm * t.waveM > 0 && 16 * (t.bm * t.waveM) > 0 && t.m % (16 * (t.bm * t.waveM)) == 0)
    && (t.bn * t.waveN > 0 && 16 * (t.bn * t.waveN) > 0 && t.n % (16 * (t.bn * t.waveN)) == 0)
    && (mmaK * t.waveK > 0 && t.k % (mmaK * t.waveK) == 0)
    && t.bm * t.bn * waveSize <= INT_MAX
  }

  /**
   The runner blocks a launch if and only if its blocks divide the extents and a workgroup's threads fit an int;
   no other of its overflow checks can fail.
   */
  lemma BlockingExact(t: Tiles, waveSize: int, mmaK: int)
    requires t.Positive() && Extent(waveSize) && Extent(mmaK)
    ensures GetBlocking(t, waveSize, mmaK).Value? <==> Divides(t, waveSize, mmaK)
    ensures Divides(t, waveSize, mmaK) ==>
              GetBlocking(t, waveSize, mmaK)
              == Value(Blocks(t.m / (16 * (t.bm * t.waveM)), t.n / (16 * (t.bn * t.waveN)), t.k / (mmaK * t.waveK),
                              t.bm * t.bn, t.bm * t.bn * waveSize))
  {
    AxisExact(t.m, 16, t.bm, t.waveM);
    AxisExact(t.n, 16, t.bn, t.waveN);
    StepExact(t.k, mmaK, t.waveK);
    PositiveProduct(t.bm, t.bn);
    if t.bm * t.bn <= INT_MAX {
      PositiveProduct(t.bm * t.bn, waveSize);
    } else {
      MixedRadix.Monotone(1, waveSize, t.bm * t.bn);
    }
    hide BoundedProduct, DivExact;
  }

  lemma StepExact(k: int, mmaK: int, waveK: int)
    requires Extent(k) && Extent(mmaK) && Extent(waveK)
    ensures mmaK * waveK > 0
    ensures k % (mmaK * waveK) == 0
            <==> BoundedProduct(mmaK, waveK).Value? && DivExact(k, BoundedProduct(mmaK, waveK).value).Value?
    ensures k % (mmaK * waveK) == 0 ==>
              && BoundedProduct(mmaK, waveK) == Value(mmaK * waveK)
              && DivExact(k, mmaK * waveK) == Value(k / (mmaK * waveK))
  {
    PositiveProduct(mmaK, waveK);
    if mmaK * waveK > INT_MAX {
      TooLargeToDivide(k, mmaK * waveK);
    }
    hide BoundedProduct;
  }
}
