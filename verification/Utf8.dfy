/** The strict conversion between wide text and UTF-8 (client/text_encoding.cpp), by the table of section 3 of
    RFC 3629: no unpaired surrogates, no longer form than needed, nothing past U+10FFFF. */
module Utf8 {
  import opened WideText
  import opened Frames

  function At(n: nat): Byte
    requires n < 0x100
  {
    n as Byte
  }

  /** One code unit that is no surrogate. */
  function UnitBytes(u: Unit): Bytes {
    var n := u as nat;
    if n < 0x80 then [At(n)]
    else if n < 0x800 then [At(0xC0 + n / 0x40), At(0x80 + n % 0x40)]
    else [At(0xE0 + n / 0x1000), At(0x80 + n / 0x40 % 0x40), At(0x80 + n % 0x40)]
  }

  /** The character a pair of surrogates stands for. */
  function PairNumber(high: Unit, low: Unit): nat
    requires IsHighSurrogate(high) && IsLowSurrogate(low)
  {
    0x1_0000 + (high as nat - 0xD800) * 0x400 + (low as nat - 0xDC00)
  }

  function FourBytes(n: nat): Bytes
    requires n < 0x20_0000
  {
    [At(0xF0 + n / 0x4_0000), At(0x80 + n / 0x1000 % 0x40), At(0x80 + n / 0x40 % 0x40), At(0x80 + n % 0x40)]
  }

  function Encode(t: Text): Option<Bytes> {
    if t == [] then Some([])
    else if IsHighSurrogate(t[0]) then
      if |t| > 1 && IsLowSurrogate(t[1]) then
        var rest := Encode(t[2..]);
        if rest.Some? then Some(FourBytes(PairNumber(t[0], t[1])) + rest.value) else None
      else None
    else if IsLowSurrogate(t[0]) then None
    else
      var rest := Encode(t[1..]);
      if rest.Some? then Some(UnitBytes(t[0]) + rest.value) else None
  }

  predicate Follows(b: Byte) {
    0x80 <= b < 0xC0
  }

  /** The units of the first character, and the bytes after it. */
  datatype First = Char(units: Text, rest: Bytes) | Malformed

  function Low6(b: Byte): nat
    requires Follows(b)
  {
    b as nat - 0x80
  }

  function FirstChar(b: Bytes): (r: First)
    requires b != []
    ensures r.Char? ==> |r.rest| < |b|
  {
    var head := b[0] as nat;
    if head < 0x80 then Char([head as Unit], b[1..])
    else if 0xC0 <= head < 0xE0 then
      if |b| < 2 || !Follows(b[1]) then Malformed
      else
        var n := (head - 0xC0) * 0x40 + Low6(b[1]);
        if n < 0x80 then Malformed else Char([n as Unit], b[2..])
    else if 0xE0 <= head < 0xF0 then
      if |b| < 3 || !Follows(b[1]) || !Follows(b[2]) then Malformed
      else
        var n := (head - 0xE0) * 0x1000 + Low6(b[1]) * 0x40 + Low6(b[2]);
        if n < 0x800 || 0xD800 <= n < 0xE000 then Malformed else Char([n as Unit], b[3..])
    else if 0xF0 <= head < 0xF8 then
      if |b| < 4 || !Follows(b[1]) || !Follows(b[2]) || !Follows(b[3]) then Malformed
      else
        var n := (head - 0xF0) * 0x4_0000 + Low6(b[1]) * 0x1000 + Low6(b[2]) * 0x40 + Low6(b[3]);
        if n < 0x1_0000 || n >= 0x11_0000 then Malformed else Char(PairOf(n), b[4..])
    else Malformed
  }

  function PairOf(n: nat): Text
    requires 0x1_0000 <= n < 0x11_0000
  {
    [(0xD800 + (n - 0x1_0000) / 0x400) as Unit, (0xDC00 + (n - 0x1_0000) % 0x400) as Unit]
  }

  function Decode(b: Bytes): Option<Text>
    decreases |b|
  {
    if b == [] then Some([])
    else
      match FirstChar(b)
      case Malformed => None
      case Char(units, rest) =>
        var more := Decode(rest);
        if more.Some? then Some(units + more.value) else None
  }

  // ---- One character ----

  lemma UnitIsRead(u: Unit, rest: Bytes)
    requires !IsHighSurrogate(u) && !IsLowSurrogate(u)
    ensures FirstChar(UnitBytes(u) + rest) == Char([u], rest)
    ensures |UnitBytes(u)| == UnitCost(u)
  {
    var n, b := u as nat, UnitBytes(u) + rest;
    assert b[|UnitBytes(u)|..] == rest;
    assert n / 0x1000 == n / 0x40 / 0x40;
  }

  lemma PairIsRead(high: Unit, low: Unit, rest: Bytes)
    requires IsHighSurrogate(high) && IsLowSurrogate(low)
    ensures FirstChar(FourBytes(PairNumber(high, low)) + rest) == Char([high, low], rest)
    ensures |FourBytes(PairNumber(high, low))| == 4
  {
    var n := PairNumber(high, low);
    var b := FourBytes(n) + rest;
    SixBits(n);
    assert b[4..] == rest;
    assert (n - 0x1_0000) / 0x400 == high as nat - 0xD800 && (n - 0x1_0000) % 0x400 == low as nat - 0xDC00;
    assert PairOf(n) == [high, low];
  }

  lemma SixBits(n: nat)
    ensures n / 0x4_0000 * 0x4_0000 + n / 0x1000 % 0x40 * 0x1000 + n / 0x40 % 0x40 * 0x40 + n % 0x40 == n
  {
    var a := n / 0x40;
    var c := a / 0x40;
    assert n / 0x1000 == c && n / 0x4_0000 == c / 0x40;
  }

  lemma OneOrTwo(b: Bytes)
    requires b != [] && b[0] < 0xE0 && FirstChar(b).Char?
    ensures var c := FirstChar(b);
            |c.units| == 1 && !IsHighSurrogate(c.units[0]) && !IsLowSurrogate(c.units[0]) && b == UnitBytes(c.units[0]) + c.rest
  {
    if b[0] >= 0x80 {
      assert b == [b[0], b[1]] + b[2..];
    } else {
      assert b == [b[0]] + b[1..];
    }
  }

  lemma Three(b: Bytes)
    requires b != [] && 0xE0 <= b[0] < 0xF0 && FirstChar(b).Char?
    ensures var c := FirstChar(b);
            |c.units| == 1 && !IsHighSurrogate(c.units[0]) && !IsLowSurrogate(c.units[0]) && b == UnitBytes(c.units[0]) + c.rest
  {
    assert b == [b[0], b[1], b[2]] + b[3..];
    var x, y, z := b[0] as nat - 0xE0, Low6(b[1]), Low6(b[2]);
    var n := x * 0x1000 + y * 0x40 + z;
    assert n / 0x40 == x * 0x40 + y && n % 0x40 == z;
    assert n / 0x1000 == x && n / 0x40 % 0x40 == y;
  }

  lemma FourDigits(w: nat, x: nat, y: nat, z: nat)
    requires x < 0x40 && y < 0x40 && z < 0x40
    ensures var n := w * 0x4_0000 + x * 0x1000 + y * 0x40 + z;
            n / 0x4_0000 == w && n / 0x1000 % 0x40 == x && n / 0x40 % 0x40 == y && n % 0x40 == z
  {
    var n := w * 0x4_0000 + x * 0x1000 + y * 0x40 + z;
    var a := w * 0x1000 + x * 0x40 + y;
    var c := w * 0x40 + x;
    assert n == a * 0x40 + z && a == c * 0x40 + y;
    assert n / 0x40 == a && a / 0x40 == c && c / 0x40 == w;
    assert n / 0x1000 == a / 0x40 && n / 0x4_0000 == c / 0x40;
  }

  lemma FourAreWritten(b: Bytes, n: nat)
    requires |b| >= 4 && 0xF0 <= b[0] < 0xF8 && Follows(b[1]) && Follows(b[2]) && Follows(b[3])
    requires n == (b[0] as nat - 0xF0) * 0x4_0000 + Low6(b[1]) * 0x1000 + Low6(b[2]) * 0x40 + Low6(b[3])
    ensures n < 0x20_0000 && b == FourBytes(n) + b[4..]
  {
    FourDigits(b[0] as nat - 0xF0, Low6(b[1]), Low6(b[2]), Low6(b[3]));
    assert b == [b[0], b[1], b[2], b[3]] + b[4..];
  }

  lemma Four(b: Bytes)
    requires b != [] && 0xF0 <= b[0] && FirstChar(b).Char?
    ensures var c := FirstChar(b);
            && |c.units| == 2 && IsHighSurrogate(c.units[0]) && IsLowSurrogate(c.units[1])
            && b == FourBytes(PairNumber(c.units[0], c.units[1])) + c.rest
  {
    hide PairOf, FourBytes, PairNumber;
    var n := (b[0] as nat - 0xF0) * 0x4_0000 + Low6(b[1]) * 0x1000 + Low6(b[2]) * 0x40 + Low6(b[3]);
    FourAreWritten(b, n);
    PairNumberOf(n);
  }

  lemma PairNumberOf(n: nat)
    requires 0x1_0000 <= n < 0x11_0000
    ensures var pair := PairOf(n); |pair| == 2 && IsHighSurrogate(pair[0]) && IsLowSurrogate(pair[1]) && PairNumber(pair[0], pair[1]) == n
  {
  }

  // ---- Texts ----

  /** Exactly the texts without an unpaired surrogate have a UTF-8 form. It is as long as the limits count, and it
      is read back as the text. */
  lemma {:induction false} EncodeThenDecode(t: Text)
    ensures Encode(t).Some? <==> Utf8Size(t).Some?
    ensures Encode(t).Some? ==> |Encode(t).value| == Utf8Size(t).value && Decode(Encode(t).value) == Some(t)
  {
    hide FirstChar, UnitBytes, FourBytes, PairNumber, UnitCost;
    if t == [] {
    } else if IsHighSurrogate(t[0]) {
      if |t| > 1 && IsLowSurrogate(t[1]) {
        EncodeThenDecode(t[2..]);
        if Encode(t[2..]).Some? {
          PairIsRead(t[0], t[1], Encode(t[2..]).value);
          assert t == [t[0], t[1]] + t[2..];
        }
      }
    } else if !IsLowSurrogate(t[0]) {
      EncodeThenDecode(t[1..]);
      if Encode(t[1..]).Some? {
        UnitIsRead(t[0], Encode(t[1..]).value);
        assert t == [t[0]] + t[1..];
        assert UnitBytes(t[0]) != [] by {
          CostIsPositive(t[0]);
        }
      }
    }
  }

  lemma CostIsPositive(u: Unit)
    ensures |UnitBytes(u)| > 0
  {
  }

  lemma FirstIsWritten(b: Bytes)
    requires b != [] && FirstChar(b).Char?
    ensures var c := FirstChar(b);
            if |c.units| == 1 then
              !IsHighSurrogate(c.units[0]) && !IsLowSurrogate(c.units[0]) && b == UnitBytes(c.units[0]) + c.rest
            else
              && |c.units| == 2 && IsHighSurrogate(c.units[0]) && IsLowSurrogate(c.units[1])
              && b == FourBytes(PairNumber(c.units[0], c.units[1])) + c.rest
  {
    if b[0] < 0xE0 {
      OneOrTwo(b);
    } else if b[0] < 0xF0 {
      Three(b);
    } else {
      Four(b);
    }
  }

  /** Bytes that are read at all are the one UTF-8 form of the text they are read as. */
  lemma {:induction false} DecodeThenEncode(b: Bytes)
    requires Decode(b).Some?
    ensures Encode(Decode(b).value) == Some(b)
    decreases |b|
  {
    hide FirstChar, UnitBytes, FourBytes, PairNumber;
    if b != [] {
      var c := FirstChar(b);
      DecodeThenEncode(c.rest);
      FirstIsWritten(b);
      var t, more := Decode(b).value, Decode(c.rest).value;
      assert t == c.units + more;
      assert t[|c.units|..] == more;
    }
  }
}
