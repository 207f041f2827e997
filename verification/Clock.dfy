/** Division by 10000 as multiplication with a reciprocal. */
module Clock {
  const TWO_32 := 0x1_0000_0000
  const TWO_64 := 0x1_0000_0000_0000_0000
  const RECIPROCAL := 0x6_8DB8_BAC7_10CC
  const RECIPROCAL_HIGH := 0x68DB8
  const RECIPROCAL_LOW := 0xBAC7_10CC

  /** With 128-bit arithmetic. */
  function DivideWide(value: nat): nat
  {
    value * RECIPROCAL / TWO_64
  }

  /** With 64-bit arithmetic only.  Every intermediate result wraps at 64 bits. */
  function DivideNarrow(value: nat): nat
  {
    var x0 := value % TWO_32 * RECIPROCAL_LOW % TWO_64 / TWO_32;
    var x1 := value % TWO_32 * RECIPROCAL_HIGH % TWO_64;
    var x2 := (value / TWO_32 * RECIPROCAL_LOW % TWO_64 + x1 % TWO_32 + x0) % TWO_64 / TWO_32;
    (value / TWO_32 * RECIPROCAL_HIGH % TWO_64 + x2 + x1 / TWO_32) % TWO_64
  }

  /** The product, in terms of quotient and remainder: the reciprocal exceeds 2^64 / 10000 by
      0.8384. */
  lemma Product(value: nat)
    ensures value * RECIPROCAL == value / 10000 * TWO_64 + (value / 10000 * 8384 + value % 10000 * RECIPROCAL)
  {
    assert value == value / 10000 * 10000 + value % 10000;
  }

  /** For every 64-bit number the result is the quotient or one more, and it is exactly the
      quotient if and only if the accumulated error stays below the gap to the next one. */
  lemma WideQuotient(value: nat)
    requires value < TWO_64
    ensures DivideWide(value) == value / 10000 || DivideWide(value) == value / 10000 + 1
    ensures DivideWide(value) == value / 10000 <==> 8384 * value < TWO_64 * (10000 - value % 10000)
  {
    Product(value);
    var q, r := value / 10000, value % 10000;
    var error := q * 8384 + r * RECIPROCAL;
    assert 10000 * error == 8384 * value + TWO_64 * r;
    assert error < 2 * TWO_64;
    QuotientOf(q, error);
  }

  lemma QuotientOf(q: nat, error: nat)
    requires error < 2 * TWO_64
    ensures (q * TWO_64 + error) / TWO_64 == if error < TWO_64 then q else q + 1
  {
  }

  /** The error first shows at this value, less than seven years of 100-nanosecond ticks. */
  lemma FirstWrongQuotient(value: nat)
    requires value < 2200231879029999
    ensures DivideWide(value) == value / 10000
    ensures DivideWide(2200231879029999) == 2200231879029999 / 10000 + 1
  {
    WideQuotient(2200231879029999);
    WideQuotient(value);
  }

  /** Larger inputs never give smaller results. */
  lemma WideIsMonotone(a: nat, b: nat)
    requires a <= b
    ensures DivideWide(a) <= DivideWide(b)
  {
    assert a * RECIPROCAL <= b * RECIPROCAL;
  }

  /** The parts that the narrow form works with, before any wrapping. */
  function LowProduct(lo: nat): nat { lo * RECIPROCAL_LOW }

  function CrossProduct(lo: nat): nat { lo * RECIPROCAL_HIGH }

  function Middle(hi: nat, lo: nat): nat
  {
    hi * RECIPROCAL_LOW + CrossProduct(lo) % TWO_32 + LowProduct(lo) / TWO_32
  }

  /** No intermediate result reaches 2^64. */
  lemma NothingOverflows(hi: nat, lo: nat)
    requires hi < TWO_32 && lo < TWO_32
    ensures LowProduct(lo) < TWO_64 && CrossProduct(lo) < TWO_64
    ensures Middle(hi, lo) < TWO_64
    ensures hi * RECIPROCAL_HIGH + Middle(hi, lo) / TWO_32 + CrossProduct(lo) / TWO_32 < TWO_64
  {
    assert LowProduct(lo) / TWO_32 < TWO_32;
    assert hi * RECIPROCAL_LOW <= (TWO_32 - 1) * RECIPROCAL_LOW;
  }

  lemma Unwrapped(x: nat)
    requires x < TWO_64
    ensures x % TWO_64 == x
  {
  }

  lemma NarrowWithoutWrapping(value: nat)
    requires value < TWO_64
    ensures var hi, lo := value / TWO_32, value % TWO_32;
            DivideNarrow(value) == hi * RECIPROCAL_HIGH + Middle(hi, lo) / TWO_32 + CrossProduct(lo) / TWO_32
  {
    var hi, lo := value / TWO_32, value % TWO_32;
    NothingOverflows(hi, lo);
    Unwrapped(LowProduct(lo));
    Unwrapped(CrossProduct(lo));
    Unwrapped(hi * RECIPROCAL_LOW);
    Unwrapped(Middle(hi, lo));
    Unwrapped(hi * RECIPROCAL_HIGH);
    Unwrapped(hi * RECIPROCAL_HIGH + Middle(hi, lo) / TWO_32 + CrossProduct(lo) / TWO_32);
  }

  /** The whole product, assembled from the parts. */
  lemma ProductOfHalves(hi: nat, lo: nat)
    ensures (hi * TWO_32 + lo) * RECIPROCAL
            == (hi * RECIPROCAL_HIGH + CrossProduct(lo) / TWO_32) * TWO_64
               + Middle(hi, lo) * TWO_32 + LowProduct(lo) % TWO_32
  {
    var x, low := CrossProduct(lo), LowProduct(lo);
    assert x == x / TWO_32 * TWO_32 + x % TWO_32 && low == low / TWO_32 * TWO_32 + low % TWO_32;
  }

  lemma HighPart(a: nat, middle: nat, low: nat)
    requires low < TWO_32
    ensures (a * TWO_64 + middle * TWO_32 + low) / TWO_64 == a + middle / TWO_32
  {
    assert middle == middle / TWO_32 * TWO_32 + middle % TWO_32;
  }

  /** The narrow form never overflows and agrees with the wide one on every 64-bit number. */
  lemma NarrowIsWide(value: nat)
    requires value < TWO_64
    ensures DivideNarrow(value) == DivideWide(value)
  {
    var hi, lo := value / TWO_32, value % TWO_32;
    NarrowWithoutWrapping(value);
    ProductOfHalves(hi, lo);
    HighPart(hi * RECIPROCAL_HIGH + CrossProduct(lo) / TWO_32, Middle(hi, lo), LowProduct(lo) % TWO_32);
    assert value == hi * TWO_32 + lo;
  }
}
