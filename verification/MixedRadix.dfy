/** The few facts about products, quotients and remainders that the layout proofs rest on. */
module MixedRadix {

  /** Digits below their radices stay below the product. */
  lemma Below(hi: nat, his: nat, lo: nat, los: nat)
    requires hi < his && lo < los
    ensures hi * los + lo < his * los
    ensures hi * los <= hi * los + lo
  {
    assert (hi + 1) * los <= his * los;
    assert (hi + 1) * los == hi * los + los;
  }

  /** Splitting a number into digits undoes composing it from them. */
  lemma Split(hi: nat, lo: nat, los: nat)
    requires lo < los
    ensures (hi * los + lo) / los == hi && (hi * los + lo) % los == lo
  {
    var x := hi * los + lo;
    assert x == (x / los) * los + x % los;
    Unique(hi, lo, x / los, x % los, los);
  }

  lemma Unique(hi: int, lo: int, hi': int, lo': int, los: int)
    requires 0 <= lo < los && 0 <= lo' < los && hi * los + lo == hi' * los + lo'
    ensures hi == hi' && lo == lo'
  {
    assert (hi - hi') * los == lo' - lo;
    SmallMultiple(hi - hi', los);
  }

  lemma SmallMultiple(q: int, d: int)
    requires -d < q * d < d
    ensures q == 0
  {
    AtLeastOnce(q, d);
    AtLeastOnce(-q, d);
    assert (-q) * d == -(q * d);
  }

  lemma AtLeastOnce(q: int, d: int)
    ensures q >= 1 && d >= 0 ==> q * d >= d
  {
    assert q * d == (q - 1) * d + d;
    if q >= 1 && d >= 0 {
      assert (q - 1) * d >= 0;
    }
  }

  /** Composing the digits of a number gives it back, and they are in range. */
  lemma Compose(x: nat, his: nat, los: nat)
    requires x < his * los
    ensures los > 0 && x / los < his && x % los < los && (x / los) * los + x % los == x
  {
    if los > 0 {
      LessCancels(x / los, his, los, x % los);
    }
  }

  /** The digits of a number, as values of their own. */
  lemma Digits(x: nat, his: nat, los: nat) returns (hi: nat, lo: nat)
    requires x < his * los
    ensures hi < his && lo < los && hi * los + lo == x
    ensures los > 0 && hi == x / los && lo == x % los
  {
    Compose(x, his, los);
    hi, lo := x / los, x % los;
  }

  lemma LessCancels(a: nat, b: nat, d: nat, r: nat)
    requires a * d + r < b * d
    ensures a < b
  {
    assert a >= b ==> a * d >= b * d by {
      if a >= b {
        Monotone(b, a, d);
      }
    }
  }

  lemma ExactQuotient(x: nat, d: nat)
    requires d > 0 && x % d == 0
    ensures (x / d) * d == x
  {}

  /** A quotient times the divisor is the number exactly when nothing remains. */
  lemma Quotient(x: int, d: int)
    requires d > 0
    ensures x / d * d == x <==> x % d == 0
  {}

  lemma Monotone(a: nat, b: nat, c: nat)
    requires a <= b
    ensures a * c <= b * c && c * a <= c * b
  {}

  lemma SumRemainder(x: nat, y: nat, d: nat)
    requires d > 0 && y % d == 0
    ensures (x + y) % d == x % d
  {
    ExactQuotient(y, d);
    assert x == x / d * d + x % d;
    Distributes(x / d, y / d, d);
    Split(x / d + y / d, x % d, d);
  }

  lemma RemainderOf(q: nat, r: nat, d: nat)
    requires d > 0
    ensures (q * d + r) % d == r % d
  {
    var q', r' := r / d, r % d;
    assert r == q' * d + r';
    Distributes(q, q', d);
    Split(q + q', r', d);
  }

  lemma RemainderNext(n: nat, d: nat)
    requires d > 0
    ensures (n % d + 1) % d == (n + 1) % d
  {
    var q, r := n / d, n % d;
    assert n == q * d + r;
    RemainderOf(q, r + 1, d);
  }

  lemma Commutes(a: nat, b: nat)
    ensures a * b == b * a
  {}

  lemma Distributes(a: nat, b: nat, c: nat)
    ensures (a + b) * c == a * c + b * c
  {}

  lemma Associates(a: nat, b: nat, c: nat)
    ensures a * (b * c) == a * b * c
  {}
}
