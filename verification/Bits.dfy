/** The bits of a number, taken apart and put together again. */
module Bits {
  lemma NextBit(raw: nat, d: nat)
    requires d > 0
    ensures raw % (2 * d) == raw % d + d * (raw / d % 2)
  {
    var q, r := raw / d, raw % d;
    Quotient(raw, d);
    Halves(d, q / 2, q % 2, r);
    Remainder(2 * d, q / 2, d * (q % 2) + r);
  }

  lemma Quotient(n: nat, d: nat)
    requires d > 0
    ensures n == d * (n / d) + n % d && n % d < d
  {
  }

  lemma Halves(d: nat, p: nat, b: nat, r: nat)
    requires b < 2 && r < d
    ensures d * (2 * p + b) + r == (2 * d) * p + (d * b + r)
    ensures d * b + r < 2 * d
  {
    if b == 1 {
      assert d * (2 * p + 1) == d * (2 * p) + d;
    }
  }

  lemma Remainder(d: nat, q: nat, r: nat)
    requires r < d
    ensures (d * q + r) % d == r
  {
    var n := d * q + r;
    var p, m := n / d, n % d;
    Quotient(n, d);
    if p < q {
      NextMultiple(d, p, q);
    } else if q < p {
      NextMultiple(d, q, p);
    }
  }

  lemma {:induction false} NextMultiple(d: nat, p: nat, q: nat)
    requires p < q
    ensures d * p + d <= d * q
  {
    assert d * q == d * (q - 1) + d;
    if p < q - 1 {
      NextMultiple(d, p, q - 1);
    }
  }

  /** The low eight bits of the flags, one by one. */
  lemma LowBits(raw: nat)
    ensures raw % 0x100 == raw % 2 + 2 * (raw / 2 % 2) + 4 * (raw / 4 % 2) + 8 * (raw / 8 % 2) + 16 * (raw / 16 % 2)
                         + 32 * (raw / 32 % 2) + 64 * (raw / 64 % 2) + 128 * (raw / 128 % 2)
  {
    NextBit(raw, 2);
    NextBit(raw, 4);
    NextBit(raw, 8);
    NextBit(raw, 16);
    NextBit(raw, 32);
    NextBit(raw, 64);
    NextBit(raw, 128);
  }

  lemma LowFourBits(raw: nat)
    ensures raw % 16 == raw % 2 + 2 * (raw / 2 % 2) + 4 * (raw / 4 % 2) + 8 * (raw / 8 % 2)
  {
    NextBit(raw, 2);
    NextBit(raw, 4);
    NextBit(raw, 8);
  }

  /** Six bits put together are taken apart again. */
  lemma SixBits(b0: nat, b1: nat, b2: nat, b3: nat, b4: nat, b5: nat)
    requires b0 < 2 && b1 < 2 && b2 < 2 && b3 < 2 && b4 < 2 && b5 < 2
    ensures var c := b0 + 2 * b1 + 4 * b2 + 8 * b3 + 16 * b4 + 32 * b5;
            c % 2 == b0 && c / 2 % 2 == b1 && c / 4 % 2 == b2 && c / 8 % 2 == b3 && c / 16 % 2 == b4 && c / 32 % 2 == b5
  {
    var c := b0 + 2 * b1 + 4 * b2 + 8 * b3 + 16 * b4 + 32 * b5;
    assert c / 2 == b1 + 2 * b2 + 4 * b3 + 8 * b4 + 16 * b5;
    assert c / 4 == b2 + 2 * b3 + 4 * b4 + 8 * b5;
    assert c / 8 == b3 + 2 * b4 + 4 * b5;
    assert c / 16 == b4 + 2 * b5;
    assert c / 32 == b5;
  }

  /** Eight bits and a ninth put together are taken apart again. */
  lemma NineBits(b0: nat, b1: nat, b2: nat, b3: nat, b4: nat, b5: nat, b6: nat, b7: nat)
    requires b0 < 2 && b1 < 2 && b2 < 2 && b3 < 2 && b4 < 2 && b5 < 2 && b6 < 2 && b7 < 2
    ensures var c := 256 + b0 + 2 * b1 + 4 * b2 + 8 * b3 + 16 * b4 + 32 * b5 + 64 * b6 + 128 * b7;
            && c % 2 == b0 && c / 2 % 2 == b1 && c / 4 % 2 == b2 && c / 8 % 2 == b3
            && c / 16 % 2 == b4 && c / 32 % 2 == b5 && c / 64 % 2 == b6 && c / 128 % 2 == b7 && c / 256 == 1
  {
    var c := 256 + b0 + 2 * b1 + 4 * b2 + 8 * b3 + 16 * b4 + 32 * b5 + 64 * b6 + 128 * b7;
    assert c / 2 == 128 + b1 + 2 * b2 + 4 * b3 + 8 * b4 + 16 * b5 + 32 * b6 + 64 * b7;
    assert c / 4 == 64 + b2 + 2 * b3 + 4 * b4 + 8 * b5 + 16 * b6 + 32 * b7;
    assert c / 8 == 32 + b3 + 2 * b4 + 4 * b5 + 8 * b6 + 16 * b7;
    assert c / 16 == 16 + b4 + 2 * b5 + 4 * b6 + 8 * b7;
    assert c / 32 == 8 + b5 + 2 * b6 + 4 * b7;
    assert c / 64 == 4 + b6 + 2 * b7;
    assert c / 128 == 2 + b7;
    assert c / 256 == 1;
  }
}
