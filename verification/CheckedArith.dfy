/** Overflow-checked products of the runner (fixed-width C++) and of the calibrator (unbounded Python). */
module CheckedArith {
  import MixedRadix

  const INT_MAX := 0x7fff_ffff
  const INT_MIN := -0x8000_0000
  const UINT32_MAX := 0xffff_ffff
  const UINT64_MAX := 0xffff_ffff_ffff_ffff
  const SIZE_T_MAX := UINT64_MAX

  /** A checked computation either yields its value or ends the program. */
  datatype Checked<+T> = Value(value: T) | Died {
    predicate IsFailure() { Died? }
    function PropagateFailure<U>(): Checked<U>
      requires Died?
    {
      Died
    }
    function Extract(): T
      requires Value?
    {
      value
    }
  }

  /** `checkedU64Product` and `checkedSizeProduct`: fail exactly when the true product does not fit. */
  function CheckedProduct(lhs: nat, rhs: nat): (r: Checked<nat>)
    requires lhs <= UINT64_MAX && rhs <= UINT64_MAX
    ensures r.Value? <==> lhs * rhs <= UINT64_MAX
    ensures r.Value? ==> r.value == lhs * rhs
  {
    QuotientGuard(lhs, rhs, UINT64_MAX);
    if rhs != 0 && lhs > UINT64_MAX / rhs then Died else Value(lhs * rhs)
  }

  lemma QuotientGuard(lhs: nat, rhs: nat, limit: nat)
    ensures rhs != 0 && lhs > limit / rhs <==> lhs * rhs > limit
  {
    if rhs != 0 {
      var q := limit / rhs;
      assert q * rhs <= limit < (q + 1) * rhs;
      if lhs > q {
        MixedRadix.Monotone(q + 1, lhs, rhs);
      } else {
        MixedRadix.Monotone(lhs, q, rhs);
      }
    }
  }

  predicate IsInt32(x: int) { INT_MIN <= x <= INT_MAX }

  /** Conversion of a C++ int to uint64_t. */
  function AsU64(x: int): (r: nat)
    requires IsInt32(x)
    ensures r <= UINT64_MAX
  {
    if x < 0 then x + UINT64_MAX + 1 else x
  }

  /** `checkedIntProduct` on any two ints, negative ones included. */
  function CheckedIntProduct(lhs: int, rhs: int): Checked<int>
    requires IsInt32(lhs) && IsInt32(rhs)
  {
    match CheckedProduct(AsU64(lhs), AsU64(rhs))
    case Died => Died
    case Value(product) => if product > INT_MAX then Died else Value(product)
  }

  /** It never wraps: it yields the true product, and only for factors of one sign fit for an extent, or a zero. */
  lemma CheckedIntProductExact(lhs: int, rhs: int)
    requires IsInt32(lhs) && IsInt32(rhs)
    ensures CheckedIntProduct(lhs, rhs).Value? <==> lhs == 0 || rhs == 0 || (lhs > 0 && rhs > 0 && lhs * rhs <= INT_MAX)
    ensures CheckedIntProduct(lhs, rhs).Value? ==> CheckedIntProduct(lhs, rhs).value == lhs * rhs
  {
    if lhs < 0 && rhs != 0 {
      MixedRadix.Monotone(1, AsU64(rhs), AsU64(lhs));
    } else if rhs < 0 && lhs != 0 {
      MixedRadix.Monotone(1, AsU64(lhs), AsU64(rhs));
    }
  }

  /** `divExact` */
  function DivExact(num: int, den: int): (r: Checked<int>)
    ensures r.Value? <==> den > 0 && num % den == 0
    ensures r.Value? ==> r.value * den == num
  {
    if den <= 0 || num % den != 0 then Died
    else
      var q := num / den;
      assert q * den == num;
      Value(q)
  }

  /** `checkedAlignUp` */
  function CheckedAlignUp(value: nat, alignment: nat): (r: Checked<nat>)
    requires value <= INT_MAX && 0 < alignment <= INT_MAX
    ensures r.Value? ==> r.value % alignment == 0 && value <= r.value < value + alignment && r.value <= INT_MAX
    ensures r.Died? ==> forall x | x % alignment == 0 && x >= value :: x > INT_MAX
  {
    var remainder := value % alignment;
    if remainder == 0 then Value(value)
    else
      var increment := alignment - remainder;
      NextAligned(value, alignment);
      if value > INT_MAX - increment then Died else Value(value + increment)
  }

  lemma NextAligned(value: nat, alignment: nat)
    requires alignment > 0 && value % alignment != 0
    ensures (value + (alignment - value % alignment)) % alignment == 0
    ensures forall x | x % alignment == 0 && x >= value :: x >= value + (alignment - value % alignment)
  {
    var q, next := value / alignment, value + (alignment - value % alignment);
    assert next == (q + 1) * alignment + 0;
    MixedRadix.Split(q + 1, 0, alignment);
    forall x | x % alignment == 0 && x >= value ensures x >= next {
      AlignedAbove(x, value, q, alignment);
    }
  }

  lemma AlignedAbove(x: nat, value: nat, q: nat, alignment: nat)
    requires alignment > 0 && x % alignment == 0 && x >= value && value > q * alignment
    ensures x >= (q + 1) * alignment
  {
    MixedRadix.ExactQuotient(x, alignment);
    MixedRadix.LessCancels(q, x / alignment, alignment, 0);
    MixedRadix.Monotone(q + 1, x / alignment, alignment);
  }

  // --------------------------------------------------------- the calibrator's product

  function Product(values: seq<int>): int {
    if values == [] then 1 else Product(values[..|values| - 1]) * values[|values| - 1]
  }

  /** No factor is negative and no partial product exceeds size_t. */
  predicate PartialProductsFit(values: seq<int>) {
    values == [] ||
    (var n := |values| - 1; PartialProductsFit(values[..n]) && values[n] >= 0 && Product(values) <= SIZE_T_MAX)
  }

  lemma {:induction false} FailurePersists(values: seq<int>, n: nat)
    requires n <= |values| && PartialProductsFit(values)
    ensures PartialProductsFit(values[..n])
  {
    if n == |values| {
      assert values[..n] == values;
    } else {
      FailurePersists(values[..|values| - 1], n);
      assert values[..|values| - 1][..n] == values[..n];
    }
  }

  /** `_checked_size_product`: raises at the first partial product that does not fit. */
  method CheckedSizeProduct(values: seq<int>) returns (r: Checked<nat>)
    ensures r.Value? <==> PartialProductsFit(values)
    ensures r.Value? ==> r.value == Product(values)
  {
    var result := 1;
    for i := 0 to |values|
      invariant PartialProductsFit(values[..i]) && 0 <= result == Product(values[..i])
    {
      var value := values[i];
      assert values[..i + 1][..i] == values[..i];
      assert Product(values[..i + 1]) == result * value;
      if value >= 0 {
        QuotientGuard(result, value, SIZE_T_MAX);
      }
      if value < 0 || (value != 0 && result > SIZE_T_MAX / value) {
        if PartialProductsFit(values) {
          FailurePersists(values, i + 1);
        }
        return Died;
      }
      result := result * value;
    }
    assert values[..|values|] == values;
    return Value(result);
  }

  /** On positive factors the check is exact: it fails exactly when the whole product does not fit. */
  lemma {:induction false} PositiveFactorsExact(values: seq<int>)
    requires forall i | 0 <= i < |values| :: values[i] > 0
    ensures Product(values) > 0
    ensures PartialProductsFit(values) <==> Product(values) <= SIZE_T_MAX
  {
    if values != [] {
      var n := |values| - 1;
      PositiveFactorsExact(values[..n]);
      MixedRadix.Monotone(1, values[n], Product(values[..n]));
    }
  }

  /** Index of the first zero factor, or the number of factors. */
  function FirstZero(values: seq<int>): (z: nat)
    ensures z <= |values| && (z < |values| ==> values[z] == 0)
    ensures forall i | 0 <= i < z :: values[i] != 0
  {
    if values == [] then 0
    else
      var n := |values| - 1;
      var z := FirstZero(values[..n]);
      if z < n || values[n] == 0 then z else n + 1
  }

  predicate NonNegative(values: seq<int>) { forall i | 0 <= i < |values| :: values[i] >= 0 }

  /** A product with a zero factor is zero. */
  lemma {:induction false} ZeroProduct(values: seq<int>)
    requires FirstZero(values) < |values|
    ensures Product(values) == 0
  {
    var n := |values| - 1;
    if FirstZero(values[..n]) < n {
      ZeroProduct(values[..n]);
    }
  }

  /** What decides is the product of the factors before the first zero, and that no factor is negative. */
  lemma {:induction false} FitsUpToFirstZero(values: seq<int>)
    ensures PartialProductsFit(values) <==> NonNegative(values) && Product(values[..FirstZero(values)]) <= SIZE_T_MAX
  {
    if values != [] {
      var n := |values| - 1;
      var rest, z := values[..n], FirstZero(values);
      FitsUpToFirstZero(rest);
      assert NonNegative(values) <==> NonNegative(rest) && values[n] >= 0;
      if FirstZero(rest) < n {
        ZeroProduct(rest);
        assert rest[..z] == values[..z];
      } else {
        assert rest[..n] == rest;
        if values[n] == 0 {
          assert values[..z] == rest;
        } else {
          assert values[..z] == values;
          if NonNegative(values) {
            PositivePrefix(rest);
            MixedRadix.Monotone(1, values[n], Product(rest));
          }
        }
      }
    }
  }

  lemma PositivePrefix(values: seq<int>)
    requires NonNegative(values) && FirstZero(values) == |values|
    ensures Product(values) > 0
  {
    PositiveFactorsExact(values);
  }

  /**
   The check is exact for factors of which none is negative if and only if there is no zero among them or the
   factors before the first zero have a product that fits.
   */
  lemma SizeProductExactIff(values: seq<int>)
    requires NonNegative(values)
    ensures var z := FirstZero(values);
            (PartialProductsFit(values) <==> Product(values) <= SIZE_T_MAX)
            <==> z == |values| || Product(values[..z]) <= SIZE_T_MAX
  {
    FitsUpToFirstZero(values);
    if FirstZero(values) == |values| {
      assert values[..|values|] == values;
    } else {
      ZeroProduct(values);
    }
  }

  /** The condition can fail: these factors have product zero and are refused, and in another order accepted. */
  lemma ZeroFactorOrderMatters()
    ensures Product([0x8000_0000_0000_0000, 2, 0]) == 0
    ensures !PartialProductsFit([0x8000_0000_0000_0000, 2, 0])
    ensures PartialProductsFit([0, 0x8000_0000_0000_0000, 2])
  {
    var bad, good := [0x8000_0000_0000_0000, 2, 0], [0, 0x8000_0000_0000_0000, 2];
    assert bad[..2] == [0x8000_0000_0000_0000, 2] && bad[..2][..1] == [0x8000_0000_0000_0000];
    assert Product([0x8000_0000_0000_0000]) == 0x8000_0000_0000_0000;
    assert good[..2] == [0, 0x8000_0000_0000_0000] && good[..2][..1] == [0];
    assert Product([0]) == 0;
  }
}
