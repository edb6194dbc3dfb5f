/** The reader of UTF-8 accepts exactly what encoding characters gives. */
module Utf8Laws {
  import opened Framing
  import opened Quotients

  /** A Unicode scalar value. */
  predicate IsScalar(n: int) {
    0 <= n < 0xD800 || 0xE000 <= n < 0x11_0000
  }

  function Tail(n: int): char
    requires 0 <= n < 64
  {
    (0x80 + n) as char
  }

  /** One character in UTF-8, by section 3 of RFC 3629. */
  function EncodedChar(n: int): (s: string)
    requires IsScalar(n)
    ensures 1 <= |s| <= 4
  {
    if n < 0x80 then [n as char]
    else if n < 0x800 then [(0xC0 + n / 64) as char, Tail(n % 64)]
    else if n < 0x1_0000 then [(0xE0 + n / 4096) as char, Tail(n / 64 % 64), Tail(n % 64)]
    else [(0xF0 + n / 262_144) as char, Tail(n / 4096 % 64), Tail(n / 64 % 64), Tail(n % 64)]
  }

  function AllEncoded(codes: seq<int>): string
    requires forall i | 0 <= i < |codes| :: IsScalar(codes[i])
  {
    if codes == [] then "" else EncodedChar(codes[0]) + AllEncoded(codes[1..])
  }

  lemma EncodedIsFirst(n: int, rest: string)
    requires IsScalar(n)
    ensures FirstWidth(EncodedChar(n) + rest) == |EncodedChar(n)|
  {
    var s := EncodedChar(n) + rest;
    assert forall i | 0 <= i < |EncodedChar(n)| :: s[i] == EncodedChar(n)[i];
  }

  /** The bits of a byte of a character. */
  function Bits(s: string, i: nat, mark: int): int
    requires i < |s|
  {
    s[i] as int - mark
  }

  /** The character a well-formed start encodes. */
  function FirstCode(s: string): int
    requires FirstWidth(s) > 0
  {
    match FirstWidth(s)
    case 1 => Bits(s, 0, 0)
    case 2 => SixMore(Bits(s, 0, 0xC0), Bits(s, 1, 0x80))
    case 3 => SixMore(SixMore(Bits(s, 0, 0xE0), Bits(s, 1, 0x80)), Bits(s, 2, 0x80))
    case _ => SixMore(SixMore(SixMore(Bits(s, 0, 0xF0), Bits(s, 1, 0x80)), Bits(s, 2, 0x80)), Bits(s, 3, 0x80))
  }

  function SixMore(high: int, low: int): int {
    high * 64 + low
  }

  lemma SixMoreSplits(high: int, low: int)
    requires 0 <= high && 0 <= low < 64
    ensures SixMore(high, low) / 64 == high && SixMore(high, low) % 64 == low
  {
  }

  lemma FirstIsEncoded(s: string)
    requires FirstWidth(s) > 0
    ensures IsScalar(FirstCode(s)) && EncodedChar(FirstCode(s)) == s[..FirstWidth(s)]
  {
    match FirstWidth(s) {
      case 1 => assert s[..1] == [s[0]];
      case 2 => TwoBytes(s);
      case 3 => ThreeBytes(s);
      case _ => FourBytes(s);
    }
  }

  lemma TwoBytes(s: string)
    requires FirstWidth(s) == 2
    ensures IsScalar(FirstCode(s)) && EncodedChar(FirstCode(s)) == s[..2]
  {
    var a, b := Bits(s, 0, 0xC0), Bits(s, 1, 0x80);
    SixMoreSplits(a, b);
    assert 0x80 <= SixMore(a, b) < 0x800;
    assert s[..2] == [s[0], s[1]];
  }

  lemma ThreeBytes(s: string)
    requires FirstWidth(s) == 3
    ensures IsScalar(FirstCode(s)) && EncodedChar(FirstCode(s)) == s[..3]
  {
    var a, b, c := Bits(s, 0, 0xE0), Bits(s, 1, 0x80), Bits(s, 2, 0x80);
    var n := SixMore(SixMore(a, b), c);
    SixMoreSplits(a, b);
    SixMoreSplits(SixMore(a, b), c);
    assert n / 4096 == a by {
      DividedTwice(n, 64, 64);
    }
    assert 0x800 <= n < 0x1_0000 && IsScalar(n);
    assert s[..3] == [s[0], s[1], s[2]];
  }

  lemma FourBytes(s: string)
    requires FirstWidth(s) == 4
    ensures IsScalar(FirstCode(s)) && EncodedChar(FirstCode(s)) == s[..4]
  {
    var a, b, c, d := Bits(s, 0, 0xF0), Bits(s, 1, 0x80), Bits(s, 2, 0x80), Bits(s, 3, 0x80);
    var n := SixMore(SixMore(SixMore(a, b), c), d);
    SixMoreSplits(a, b);
    SixMoreSplits(SixMore(a, b), c);
    SixMoreSplits(SixMore(SixMore(a, b), c), d);
    assert n / 4096 == SixMore(a, b) by {
      DividedTwice(n, 64, 64);
    }
    assert n / 262_144 == a by {
      DividedTwice(n, 4096, 64);
    }
    assert 0x1_0000 <= n < 0x11_0000;
    assert s[..4] == [s[0], s[1], s[2], s[3]];
  }

  lemma {:induction false} CodesOf(s: string) returns (codes: seq<int>)
    requires Utf8(s)
    ensures forall i | 0 <= i < |codes| :: IsScalar(codes[i])
    ensures s == AllEncoded(codes)
    decreases |s|
  {
    hide FirstWidth, FirstCode, EncodedChar, IsScalar;
    if s == "" {
      codes := [];
    } else {
      var k := FirstWidth(s);
      FirstIsEncoded(s);
      var rest := CodesOf(s[k..]);
      codes := [FirstCode(s)] + rest;
      assert codes[1..] == rest && s == s[..k] + s[k..];
    }
  }

  lemma {:induction false} EncodedIsUtf8(codes: seq<int>)
    requires forall i | 0 <= i < |codes| :: IsScalar(codes[i])
    ensures Utf8(AllEncoded(codes))
    decreases |codes|
  {
    hide FirstWidth, EncodedChar, IsScalar;
    if codes == [] {
    } else {
      var rest := AllEncoded(codes[1..]);
      EncodedIsUtf8(codes[1..]);
      EncodedIsFirst(codes[0], rest);
      assert (EncodedChar(codes[0]) + rest)[|EncodedChar(codes[0])|..] == rest;
    }
  }

  /** Bytes are UTF-8 if and only if they are some characters, encoded. */
  lemma Utf8Exactly(s: string)
    ensures Utf8(s) <==>
            exists codes: seq<int> :: (forall i | 0 <= i < |codes| :: IsScalar(codes[i])) && s == AllEncoded(codes)
  {
    hide Utf8, AllEncoded, IsScalar;
    if Utf8(s) {
      var codes := CodesOf(s);
    }
    forall codes: seq<int> | (forall i | 0 <= i < |codes| :: IsScalar(codes[i])) && s == AllEncoded(codes)
      ensures Utf8(s)
    {
      EncodedIsUtf8(codes);
    }
  }
}
