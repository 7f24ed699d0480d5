/** Bytes as eight bits, with the numbers they stand for. */
module Octet8 {

  type Octet = bv8

  type Octets = seq<Octet>

  /** One of the eight bits. */
  function Bit(on: bool, weight: Octet): Octet {
    if on then weight else 0
  }

  function Weight(o: Octet, mask: Octet, weight: nat): nat {
    if o & mask != 0 then weight else 0
  }

  /** The number the bits stand for. */
  function Number(o: Octet): nat {
    Weight(o, 0x80, 0x80) + Weight(o, 0x40, 0x40) + Weight(o, 0x20, 0x20) + Weight(o, 0x10, 0x10)
    + Weight(o, 8, 8) + Weight(o, 4, 4) + Weight(o, 2, 2) + Weight(o, 1, 1)
  }

  function FromBits(a: bool, b: bool, c: bool, d: bool, e: bool, f: bool, g: bool, h: bool): Octet {
    Bit(a, 0x80) | Bit(b, 0x40) | Bit(c, 0x20) | Bit(d, 0x10) | Bit(e, 8) | Bit(f, 4) | Bit(g, 2) | Bit(h, 1)
  }

  predicate Odd(n: nat) {
    n % 2 == 1
  }

  /** The octet of a number below 256. */
  function OctetOf(n: nat): Octet
    requires n < 0x100
  {
    FromBits(Odd(n / 0x80), Odd(n / 0x40), Odd(n / 0x20), Odd(n / 0x10), Odd(n / 8), Odd(n / 4), Odd(n / 2), Odd(n))
  }

  lemma BitsAreKept(a: bool, b: bool, c: bool, d: bool, e: bool, f: bool, g: bool, h: bool)
    ensures var o := FromBits(a, b, c, d, e, f, g, h);
            && (o & 0x80 != 0 <==> a) && (o & 0x40 != 0 <==> b) && (o & 0x20 != 0 <==> c) && (o & 0x10 != 0 <==> d)
            && (o & 8 != 0 <==> e) && (o & 4 != 0 <==> f) && (o & 2 != 0 <==> g) && (o & 1 != 0 <==> h)
  {
  }

  function Part(n: nat): nat {
    if Odd(n) then 1 else 0
  }

  lemma Halve(n: nat)
    ensures n == 2 * (n / 2) + Part(n)
  {
  }

  lemma BinaryDigits(n: nat)
    requires n < 0x100
    ensures n == 0x80 * Part(n / 0x80) + 0x40 * Part(n / 0x40) + 0x20 * Part(n / 0x20) + 0x10 * Part(n / 0x10)
             + 8 * Part(n / 8) + 4 * Part(n / 4) + 2 * Part(n / 2) + Part(n)
  {
    hide Part;
    Halve(n);
    Halve(n / 2);
    Halve(n / 4);
    Halve(n / 8);
    Halve(n / 0x10);
    Halve(n / 0x20);
    Halve(n / 0x40);
    Halve(n / 0x80);
    assert n / 4 == n / 2 / 2 && n / 8 == n / 4 / 2 && n / 0x10 == n / 8 / 2;
    assert n / 0x20 == n / 0x10 / 2 && n / 0x40 == n / 0x20 / 2 && n / 0x80 == n / 0x40 / 2;
    assert n / 0x80 / 2 == 0;
  }

  lemma OctetRoundTrip(n: nat)
    requires n < 0x100
    ensures Number(OctetOf(n)) == n
  {
    hide FromBits, Odd;
    BinaryDigits(n);
    BitsAreKept(Odd(n / 0x80), Odd(n / 0x40), Odd(n / 0x20), Odd(n / 0x10), Odd(n / 8), Odd(n / 4), Odd(n / 2), Odd(n));
  }

  /** Octets of numbers up to 125 have the top bit clear and are no marks of a longer length. */
  lemma SmallNumber(o: Octet)
    requires Number(o) <= 125
    ensures o < 0x80 && o != 126 && o != 127
  {
    hide Number;
    assert Number(126) == 126 && Number(127) == 127 by {
      SevenBits();
    }
    TopBit(o);
  }

  lemma SevenBits()
    ensures Number(126) == 126 && Number(127) == 127
  {
  }

  lemma TopBit(o: Octet)
    ensures o >= 0x80 ==> Number(o) >= 0x80
  {
    assert o >= 0x80 ==> o & 0x80 != 0;
  }
}
