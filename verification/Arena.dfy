/**
 The bump allocator of the wavec front end, in exact 64-bit size arithmetic.
 An address is a natural number and 0 is the null pointer.
 */
module ArenaAllocator {
  import MixedRadix

  const SIZE_MAX: nat := 0xFFFF_FFFF_FFFF_FFFF
  const PAGE: nat := 4096

  type Size = n: nat | n <= SIZE_MAX

  // ------------------------------------------------------------------ rounding with a mask

  /** Bitwise and. */
  function And(a: nat, b: nat): nat
    decreases a
  {
    if a == 0 then 0 else 2 * And(a / 2, b / 2) + (if a % 2 == 1 && b % 2 == 1 then 1 else 0)
  }

  predicate PowerOfTwo(a: nat)
    decreases a
  {
    a == 1 || (a > 1 && a % 2 == 0 && PowerOfTwo(a / 2))
  }

  /** `(n + mask) & ~mask` with `mask` one below the alignment. */
  function RoundUp(n: nat, align: nat): nat
    requires align > 0
  {
    AndBound(n + (align - 1), align - 1);
    n + (align - 1) - And(n + (align - 1), align - 1)
  }

  lemma {:induction false} AndBound(a: nat, b: nat)
    ensures And(a, b) <= a && And(a, b) <= b
    decreases a
  {
    if a > 0 {
      AndBound(a / 2, b / 2);
    }
  }

  lemma DoubledRemainder(x: nat, half: nat)
    requires half > 0
    ensures x % (2 * half) == 2 * (x / 2 % half) + x % 2
  {
    var q, r := x / 2 / half, x / 2 % half;
    assert x / 2 == q * half + r;
    assert x == q * (2 * half) + (2 * r + x % 2);
    MixedRadix.Split(q, 2 * r + x % 2, 2 * half);
  }

  /** Below a power of two, masking is the remainder. */
  lemma {:induction false} MaskIsRemainder(x: nat, align: nat)
    requires PowerOfTwo(align)
    ensures And(x, align - 1) == x % align
    decreases align
  {
    if align > 1 {
      MaskIsRemainder(x / 2, align / 2);
      DoubledRemainder(x, align / 2);
      assert (align - 1) / 2 == align / 2 - 1 && (align - 1) % 2 == 1;
    } else {
      AndBound(x, 0);
    }
  }

  function LowBit(a: nat): nat
    requires a > 0
    decreases a
  {
    if a % 2 == 1 then 1 else 2 * LowBit(a / 2)
  }

  lemma {:induction false} AndItself(a: nat)
    ensures And(a, a) == a
    decreases a
  {
    if a > 0 {
      AndItself(a / 2);
    }
  }

  lemma {:induction false} MaskDropsLowBit(a: nat)
    requires a > 0
    ensures And(a, a - 1) == a - LowBit(a) && 1 <= LowBit(a) <= a && (LowBit(a) == a <==> PowerOfTwo(a))
    decreases a
  {
    if a % 2 == 0 {
      MaskDropsLowBit(a / 2);
      assert (a - 1) / 2 == a / 2 - 1;
    } else {
      AndItself(a / 2);
      assert (a - 1) / 2 == a / 2;
      assert a > 1 ==> !PowerOfTwo(a);
    }
  }

  /** Rounding never goes back, whatever the alignment, and goes up by less than it. */
  lemma RoundUpBounds(n: nat, align: nat)
    requires align > 0
    ensures n <= RoundUp(n, align) < n + align
  {
    AndBound(n + (align - 1), align - 1);
  }

  lemma RoundUpIsQuotient(n: nat, align: nat) returns (q: nat)
    requires PowerOfTwo(align)
    ensures RoundUp(n, align) == q * align && q * align <= n + (align - 1) < (q + 1) * align
  {
    var x := n + (align - 1);
    MaskIsRemainder(x, align);
    assert RoundUp(n, align) == x - x % align;
    hide And, PowerOfTwo, RoundUp;
    q := Quotient(x, align);
  }

  lemma Quotient(x: nat, d: nat) returns (q: nat)
    requires d > 0
    ensures q * d == x - x % d && q * d <= x < (q + 1) * d
  {
    q := x / d;
    assert x == q * d + x % d;
    MixedRadix.Distributes(q, 1, d);
  }

  lemma LeastMultiple(n: nat, q: nat, k: nat, d: nat)
    requires q * d < n + d && n <= k * d
    ensures q * d <= k * d
  {
    MixedRadix.Distributes(k, 1, d);
    MixedRadix.LessCancels(q, k + 1, d, 0);
    MixedRadix.Monotone(q, k, d);
  }

  /** For a power of two the rounded value is the least multiple that is not below. */
  lemma RoundUpIsLeast(n: nat, align: nat, k: nat)
    requires PowerOfTwo(align)
    ensures RoundUp(n, align) % align == 0
    ensures n <= k * align ==> RoundUp(n, align) <= k * align
  {
    var q := RoundUpIsQuotient(n, align);
    hide RoundUp, PowerOfTwo;
    MixedRadix.Split(q, 0, align);
    if n <= k * align {
      LeastMultiple(n, q, k, align);
    }
  }

  lemma RoundUpOne(align: nat)
    requires align > 0
    ensures RoundUp(1, align) % align == 0 <==> PowerOfTwo(align)
  {
    MaskDropsLowBit(align);
    var low := LowBit(align);
    assert RoundUp(1, align) == low;
    hide And, LowBit, PowerOfTwo, RoundUp;
    SmallRemainder(low, align);
  }

  lemma SmallRemainder(x: nat, d: nat)
    requires 1 <= x <= d
    ensures x % d == 0 <==> x == d
  {
    if x < d {
      MixedRadix.Split(0, x, d);
    } else {
      MixedRadix.Split(1, 0, d);
    }
  }

  /**
   The result is aligned for every cursor if and only if the alignment is a power of two: any other
   alignment already fails with the cursor at 1.
   */
  lemma AlignedIffPowerOfTwo(align: nat)
    requires align > 0
    ensures (forall n :: RoundUp(n, align) % align == 0) <==> PowerOfTwo(align)
    ensures RoundUp(1, align) % align == 0 <==> PowerOfTwo(align)
  {
    hide RoundUp, PowerOfTwo;
    RoundUpOne(align);
    if PowerOfTwo(align) {
      forall n
        ensures RoundUp(n, align) % align == 0
      {
        RoundUpIsLeast(n, align, 0);
      }
    }
  }

  lemma {:induction false} HighBitKept(x: nat, mask: nat, bit: nat)
    requires PowerOfTwo(bit) && mask < bit <= x
    ensures x - And(x, mask) >= bit
    decreases bit
  {
    if bit > 1 {
      HighBitKept(x / 2, mask / 2, bit / 2);
    } else {
      AndBound(x, 0);
    }
  }

  lemma Doubles(half: nat, b: nat)
    requires PowerOfTwo(half * b)
    ensures PowerOfTwo(2 * half * b)
  {
    hide PowerOfTwo;
    MixedRadix.Associates(2, half, b);
    DoubleIsPower(half * b);
  }

  lemma DoubleIsPower(p: nat)
    requires PowerOfTwo(p)
    ensures PowerOfTwo(2 * p)
  {
    assert (2 * p) / 2 == p && (2 * p) % 2 == 0;
  }

  lemma {:induction false} PowerProduct(a: nat, b: nat)
    requires PowerOfTwo(a) && PowerOfTwo(b)
    ensures PowerOfTwo(a * b)
    decreases a
  {
    if a > 1 {
      PowerProduct(a / 2, b);
      Doubles(a / 2, b);
    }
  }

  lemma SizeIsPower()
    ensures PowerOfTwo(SIZE_MAX + 1)
  {
    PageIsPower();
    PowerProduct(PAGE, PAGE);
    PowerProduct(PAGE, PAGE * PAGE);
    PowerProduct(PAGE, PAGE * (PAGE * PAGE));
    PowerProduct(PAGE, PAGE * (PAGE * (PAGE * PAGE)));
    assert PowerOfTwo(16);
    PowerProduct(16, PAGE * (PAGE * (PAGE * (PAGE * PAGE))));
  }

  /** A smaller power of two divides a larger one. */
  lemma {:induction false} PowersDivide(a: nat, b: nat)
    requires PowerOfTwo(a) && PowerOfTwo(b) && a <= b
    ensures b % a == 0
    decreases a
  {
    if a > 1 {
      PowersDivide(a / 2, b / 2);
      DoubledRemainder(b, a / 2);
    }
  }

  // ------------------------------------------------------------------------- the arena

  /** A returned pointer with the size and alignment it was asked for. */
  datatype Block = Block(addr: nat, size: nat, align: nat)

  predicate Disjoint(a: Block, b: Block) { a.addr + a.size <= b.addr || b.addr + b.size <= a.addr }

  function Effective(align: nat): nat { if align == 0 then 1 else align }

  lemma {:induction false} DoubledMasked(m: nat)
    requires m > 0
    ensures And(2 * m, m) < m
    decreases m
  {
    assert (2 * m) / 2 == m && (2 * m) % 2 == 0;
    if m % 2 == 1 {
      AndBound(m, m / 2);
    } else {
      DoubledMasked(m / 2);
    }
  }

  /** Any alignment above 1 moves a cursor one below it. */
  lemma MovesCursor(align: nat)
    requires align > 1
    ensures RoundUp(align - 1, align) != align - 1
  {
    DoubledMasked(align - 1);
  }

  lemma AtThree()
    ensures !PowerOfTwo(3) && RoundUp(2, 3) == 4
  {
    assert And(1, 0) == 0;
    assert And(2, 1) == 0;
  }

  /**
   A request is placed byte by byte, as the source says of a zero and of any alignment that is no power
   of two, if and only if the alignment is 0 or 1: alignment 3 takes the cursor from 2 to 4.
   */
  lemma ByteAlignedIff(align: nat)
    ensures (forall n :: RoundUp(n, Effective(align)) == n) <==> align <= 1
    ensures !PowerOfTwo(3) && RoundUp(2, 3) == 4
  {
    AtThree();
    hide RoundUp, PowerOfTwo;
    if align <= 1 {
      forall n
        ensures RoundUp(n, Effective(align)) == n
      {
        RoundUpBounds(n, 1);
      }
    } else {
      MovesCursor(align);
      assert Effective(align) == align;
    }
  }

  /** The aligned request ends within the capacity. */
  predicate Fits(used: nat, capacity: nat, bytes: nat, align: nat) {
    RoundUp(used, Effective(align)) + bytes <= capacity
  }

  /** `round_up_pow2`: fails if and only if the addition would wrap. */
  method RoundUpPow2(n: Size, align: Size) returns (ok: bool, out: nat)
    requires align > 0
    ensures ok <==> n + (align - 1) <= SIZE_MAX
    ensures ok ==> out == RoundUp(n, align)
  {
    var mask := align - 1;
    if n > SIZE_MAX - mask {
      return false, 0;
    }
    ok, out := true, RoundUp(n, align);
  }

  class Arena {
    var raw: nat
    var base: nat
    var used: nat
    var capacity: nat
    /** The blocks handed out since the last reset, oldest first. */
    ghost var blocks: seq<Block>

    ghost predicate Valid()
      reads this
    {
      && (base == 0 ==> used == capacity == 0 && blocks == [])
      && base % PAGE == 0 && raw <= base && base + capacity <= SIZE_MAX + 1
      && used <= capacity <= SIZE_MAX
      && Inside() && Ascending() && Aligned()
    }

    /** Every block lies in the consumed part of the usable region. */
    ghost predicate Inside()
      reads this
    {
      forall i :: 0 <= i < |blocks| ==> base <= blocks[i].addr && blocks[i].addr + blocks[i].size <= base + used
    }

    /** A block ends before any later one begins. */
    ghost predicate Ascending()
      reads this
    {
      forall i, j :: 0 <= i < j < |blocks| ==> blocks[i].addr + blocks[i].size <= blocks[j].addr
    }

    /** Addresses are aligned for every power of two up to the page size. */
    ghost predicate Aligned()
      reads this
    {
      forall i :: 0 <= i < |blocks| && PowerOfTwo(blocks[i].align) && blocks[i].align <= PAGE
                  ==> blocks[i].addr % blocks[i].align == 0
    }

    /**
     `arena_create`; `malloc` is the host allocator, which returns 0 or the address of that many bytes.
     */
    constructor (size: Size, malloc: Size -> nat)
      requires forall n :: malloc(n) + n <= SIZE_MAX + 1
      ensures Valid() && blocks == [] && used == 0
      ensures var wanted := if size == 0 then PAGE else size;
              if wanted + (PAGE - 1) <= SIZE_MAX && malloc(wanted + (PAGE - 1)) != 0
              then && raw == malloc(wanted + (PAGE - 1)) && base != 0 && capacity == wanted
                   && base + capacity <= raw + (wanted + (PAGE - 1))
              else raw == base == capacity == 0
    {
      raw, base, used, capacity, blocks := 0, 0, 0, 0, [];
      var wanted: Size := if size == 0 then PAGE else size;
      if wanted <= SIZE_MAX - (PAGE - 1) {
        var request: Size := wanted + (PAGE - 1);
        var p := malloc(request);
        raw := p;
        if p != 0 {
          PageIsPower();
          RoundUpBounds(p, PAGE);
          RoundUpIsLeast(p, PAGE, 0);
          base := RoundUp(p, PAGE);
          capacity := wanted;
        }
      }
    }

    /** Hands out the bytes from `start` on and moves the cursor past them. */
    method Take(start: nat, bytes: nat, align: nat) returns (p: nat)
      requires Valid() && base != 0 && used <= start && start + bytes <= capacity
      requires PowerOfTwo(align) && align <= PAGE ==> (base + start) % align == 0
      modifies this`used, this`blocks
      ensures Valid() && used == start + bytes && p == base + start
      ensures blocks == old(blocks) + [Block(p, bytes, align)]
    {
      hide PowerOfTwo;
      used := start + bytes;
      p := base + start;
      blocks := blocks + [Block(p, bytes, align)];
    }

    /** `arena_reset` */
    method Reset()
      requires Valid()
      modifies this`used, this`blocks
      ensures Valid() && used == 0 && blocks == []
    {
      used, blocks := 0, [];
    }

    /** `arena_destroy`; a second call changes nothing. */
    method Destroy()
      modifies this
      ensures Valid() && raw == base == used == capacity == 0 && blocks == []
    {
      raw, base, used, capacity, blocks := 0, 0, 0, 0, [];
    }
  }

  lemma PageIsPower()
    ensures PowerOfTwo(PAGE)
  {
    assert PowerOfTwo(8);
    assert PowerOfTwo(64);
    assert PowerOfTwo(512);
  }

  /**
   `arena_alloc`: null exactly when the arena is dead or the aligned request does not fit; the overflow
   guards reject nothing else. Otherwise a new block after every live one.
   */
  method Alloc(a: Arena?, bytes: Size, align: Size) returns (p: nat)
    requires a != null ==> a.Valid()
    modifies a
    ensures a != null ==> a.Valid() && a.base == old(a.base) && a.capacity == old(a.capacity) && a.raw == old(a.raw)
    ensures p == 0 <==> a == null || a.base == 0 || !Fits(old(a.used), a.capacity, bytes, align)
    ensures a != null && p == 0 ==> a.used == old(a.used) && a.blocks == old(a.blocks)
    ensures p != 0 ==> && p == a.base + RoundUp(old(a.used), Effective(align))
                       && a.used == RoundUp(old(a.used), Effective(align)) + bytes
                       && a.blocks == old(a.blocks) + [Block(p, bytes, Effective(align))]
    ensures p != 0 && align > 0 && PowerOfTwo(align) && align <= PAGE ==>
              LeastAligned(p, align, a.base + old(a.used))
    ensures p != 0 ==> p - a.base == if align == 0 then old(a.used) else RoundUp(old(a.used), align)
    ensures a != null && a.base != 0 ==>
              (p == 0 <==> (if align == 0 then old(a.used) else RoundUp(old(a.used), align)) + bytes > a.capacity)
  {
    hide RoundUp, PowerOfTwo, LeastAligned, Effective, Fits, Arena.Inside, Arena.Ascending, Arena.Aligned;
    if a == null || a.base == 0 {
      return 0;
    }
    var step: Size := if align == 0 then 1 else align;
    RoundUpBounds(a.used, step);
    AsAsked(a.used, a.capacity, bytes, align, step);
    var ok, alignedUsed := RoundUpPow2(a.used, step);
    if !ok {
      assert !Fits(a.used, a.capacity, bytes, align) by {
        RoundUpOverflow(a.used, step, a.capacity);
      }
      return 0;
    }
    if alignedUsed > SIZE_MAX - bytes {
      return 0;
    }
    var end := alignedUsed + bytes;
    if end > a.capacity {
      return 0;
    }
    BlockAligned(a.base, a.used, step);
    if align > 0 && PowerOfTwo(align) && align <= PAGE {
      LeastAddress(a.base, a.used, align);
    }
    p := a.Take(alignedUsed, bytes, step);
  }

  /** The alignment used is the one asked for, but that zero asks for none. */
  lemma AsAsked(used: nat, capacity: nat, bytes: nat, align: nat, step: nat)
    requires step == if align == 0 then 1 else align
    ensures Effective(align) == step
    ensures RoundUp(used, step) == if align == 0 then used else RoundUp(used, align)
    ensures Fits(used, capacity, bytes, align) <==> RoundUp(used, step) + bytes <= capacity
  {
    RoundUpBounds(used, 1);
    hide RoundUp;
  }

  /** A block's address is aligned if and only if the base is; the page-aligned base always is up to a page. */
  lemma BlockAligned(base: nat, used: nat, align: nat)
    requires base % PAGE == 0 && align > 0
    ensures PowerOfTwo(align)
            ==> ((base + RoundUp(used, align)) % align == 0 <==> base % align == 0)
                && (align <= PAGE ==> base % align == 0)
  {
    hide PowerOfTwo, RoundUp;
    if PowerOfTwo(align) {
      RoundUpIsLeast(used, align, 0);
      MixedRadix.SumRemainder(base, RoundUp(used, align), align);
      if align <= PAGE {
        PageIsPower();
        PowersDivide(align, PAGE);
        Multiple(base, PAGE, align);
      }
    }
  }

  /** The least multiple of `align` that is not below `from`. */
  ghost predicate LeastAligned(p: nat, align: nat, from: nat)
    requires align > 0
  {
    p % align == 0 && p >= from && forall q: nat | q >= from && q % align == 0 :: p <= q
  }

  /** Whatever the alignment, the rounded cursor has none of the mask's bits. */
  lemma {:induction false} MaskCleared(x: nat, mask: nat)
    ensures And(x, mask) <= x && And(x - And(x, mask), mask) == 0
    decreases x
  {
    if x > 0 {
      AndBound(x, mask);
      MaskCleared(x / 2, mask / 2);
      var rest := x / 2 - And(x / 2, mask / 2);
      var low := if x % 2 == 1 && mask % 2 == 1 then 0 else x % 2;
      assert x - And(x, mask) == 2 * rest + low;
      assert (2 * rest + low) / 2 == rest && (2 * rest + low) % 2 == low;
    }
  }

  /** So the mask undoes itself: the cursor handed out has no bit of the mask. */
  lemma RoundUpClears(n: nat, align: nat)
    requires align > 0
    ensures And(RoundUp(n, align), align - 1) == 0
  {
    MaskCleared(n + (align - 1), align - 1);
    hide And;
  }

  /** The address a request gets is the least one so aligned that is not below the cursor's. */
  lemma LeastAddress(base: nat, used: nat, align: nat)
    requires base % PAGE == 0 && align > 0 && PowerOfTwo(align) && align <= PAGE
    ensures LeastAligned(base + RoundUp(used, align), align, base + used)
  {
    BlockAligned(base, used, align);
    RoundUpBounds(used, align);
    hide PowerOfTwo, RoundUp, LeastAligned;
    var p := base + RoundUp(used, align);
    forall q: nat | q >= base + used && q % align == 0
      ensures p <= q
    {
      NoneBetween(base, used, align, q);
    }
    IsLeast(p, align, base + used);
  }

  lemma IsLeast(p: nat, align: nat, from: nat)
    requires align > 0 && p % align == 0 && p >= from
    requires forall q: nat | q >= from && q % align == 0 :: p <= q
    ensures LeastAligned(p, align, from)
  {}

  lemma NoneBetween(base: nat, used: nat, align: nat, q: nat)
    requires align > 0 && PowerOfTwo(align) && base % align == 0 && q % align == 0 && q >= base + used
    ensures base + RoundUp(used, align) <= q
  {
    hide PowerOfTwo, RoundUp;
    var k := MultipleBeyond(base, q, align);
    RoundUpIsLeast(used, align, k);
  }

  /** The distance between two multiples is one. */
  lemma MultipleBeyond(base: nat, q: nat, align: nat) returns (k: nat)
    requires align > 0 && base % align == 0 && q % align == 0 && base <= q
    ensures k * align == q - base
  {
    MixedRadix.SumRemainder(q - base, base, align);
    MixedRadix.ExactQuotient(q - base, align);
    k := (q - base) / align;
  }

  lemma Multiple(x: nat, y: nat, d: nat)
    requires d > 0 && y > 0 && x % y == 0 && y % d == 0
    ensures x % d == 0
  {
    MixedRadix.ExactQuotient(x, y);
    MixedRadix.ExactQuotient(y, d);
    MixedRadix.Associates(x / y, y / d, d);
    MixedRadix.Split(x / y * (y / d), 0, d);
  }

  /** When the rounding addition would wrap, even the rounded cursor exceeds every capacity. */
  lemma RoundUpOverflow(used: nat, align: nat, capacity: nat)
    requires 0 < align <= SIZE_MAX && used <= capacity <= SIZE_MAX && used + (align - 1) > SIZE_MAX
    ensures RoundUp(used, align) > capacity
  {
    SizeIsPower();
    HighBitKept(used + (align - 1), align - 1, SIZE_MAX + 1);
  }

  /** Live blocks of a valid arena never overlap. */
  lemma BlocksDisjoint(a: Arena, i: nat, j: nat)
    requires a.Valid() && i < |a.blocks| && j < |a.blocks| && i != j
    ensures Disjoint(a.blocks[i], a.blocks[j])
  {
    if i < j {
      assert a.blocks[i].addr + a.blocks[i].size <= a.blocks[j].addr;
    }
  }
}
