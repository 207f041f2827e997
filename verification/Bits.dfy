/** Counting with a 14-bit field: the number it denotes, and that it moves by one when the
    pattern does. */
module Bits {
  /** The number in a field of at most 14 bits. */
  function Number(field: bv64): nat
    requires field <= 0x3FFF
  {
    field as bv14 as nat
  }

  lemma Halves(x: bv14)
    ensures x as int == 128 * ((x >> 7) as bv7 as int) + (x & 0x7F) as bv7 as int
  {
  }

  lemma HalfSuccessor(x: bv7)
    requires x < 0x7F
    ensures (x + 1) as int == x as int + 1
  {
  }

  lemma NoCarry(x: bv14)
    requires x < 0x3FFF && x & 0x7F < 0x7F
    ensures ((x + 1) >> 7) as bv7 == (x >> 7) as bv7
    ensures ((x + 1) & 0x7F) as bv7 == (x & 0x7F) as bv7 + 1
  {
  }

  lemma Carry(x: bv14)
    requires x < 0x3FFF && x & 0x7F == 0x7F
    ensures x >> 7 < 0x7F
    ensures ((x + 1) >> 7) as bv7 == (x >> 7) as bv7 + 1
    ensures ((x + 1) & 0x7F) as bv7 == 0
  {
  }

  lemma Successor(x: bv14)
    requires x < 0x3FFF
    ensures (x + 1) as int == x as int + 1
  {
    Halves(x);
    Halves(x + 1);
    if x & 0x7F < 0x7F {
      NoCarry(x);
      HalfSuccessor((x & 0x7F) as bv7);
    } else {
      Carry(x);
      HalfSuccessor((x >> 7) as bv7);
    }
  }

  lemma NarrowSuccessor(x: bv14, y: bv14)
    requires x < 0x3FFF && y == x + 1
    ensures y as int == x as int + 1
  {
    Successor(x);
  }

  lemma FieldSuccessor(x: bv64, y: bv64)
    requires x < 0x3FFF && y == x + 1
    ensures y as bv14 as int == x as bv14 as int + 1 && y <= 0x3FFF
  {
    NarrowSuccessor(x as bv14, y as bv14);
  }

  /** One more in the pattern is one more in the number. */
  lemma NumberOfSuccessor(x: bv64, y: bv64)
    requires x < 0x3FFF && y == x + 1
    ensures y <= 0x3FFF
    ensures Number(y) == Number(x) + 1
  {
    FieldSuccessor(x, y);
    assert Number(y) == y as bv14 as int;
    assert Number(x) == x as bv14 as int;
  }

  /** The numbers that the code tests for. */
  lemma NumberLandmarks(x: bv64)
    requires x <= 0x3FFF
    ensures Number(x) == 0 <==> x == 0
    ensures Number(x) == 0x3FFF <==> x == 0x3FFF
    ensures Number(x) < 16382 <==> x < 16382
  {
  }
}
