/**
 * UTF-8 as section 4 of RFC 3629 defines it: which byte sequences stand for a scalar value, and which one each does.
 */
module Utf8 {
  import opened Common

  predicate IsScalar(c: nat) {
    c < 0xd800 || 0xe000 <= c < 0x11_0000
  }

  predicate IsTail(b: byte) {
    0x80 <= b < 0xc0
  }

  /** How many bytes a character takes, going by its first byte. No character starts with a byte of width zero. */
  function Width(first: byte): (w: nat)
    ensures w <= 4
  {
    if first < 0x80 then 1
    else if 0xc2 <= first < 0xe0 then 2
    else if 0xe0 <= first < 0xf0 then 3
    else if 0xf0 <= first < 0xf5 then 4
    else 0
  }

  /** What the second byte may be depends on the first, so that no value has two encodings. */
  predicate IsSecond(first: byte, second: byte) {
    && IsTail(second)
    && (first == 0xe0 ==> second >= 0xa0)
    && (first == 0xed ==> second < 0xa0)
    && (first == 0xf0 ==> second >= 0x90)
    && (first == 0xf4 ==> second < 0x90)
  }

  /** The first `Width` bytes of `bytes` are a character. */
  predicate StartsWithCharacter(bytes: seq<byte>) {
    && bytes != []
    && var w := Width(bytes[0]);
    && 0 < w <= |bytes|
    && (w > 1 ==> IsSecond(bytes[0], bytes[1]))
    && (w > 2 ==> IsTail(bytes[2]))
    && (w > 3 ==> IsTail(bytes[3]))
  }

  function Two(b0: int, b1: int): int { (b0 - 0xc0) * 64 + (b1 - 0x80) }

  function Three(b0: int, b1: int, b2: int): int { (b0 - 0xe0) * 4096 + (b1 - 0x80) * 64 + (b2 - 0x80) }

  function Four(b0: int, b1: int, b2: int, b3: int): int {
    (b0 - 0xf0) * 262144 + (b1 - 0x80) * 4096 + (b2 - 0x80) * 64 + (b3 - 0x80)
  }

  /** The value of the character that `bytes` starts with. */
  function Value(bytes: seq<byte>): nat
    requires StartsWithCharacter(bytes)
  {
    match Width(bytes[0])
    case 1 => bytes[0]
    case 2 => Two(bytes[0], bytes[1])
    case 3 => Three(bytes[0], bytes[1], bytes[2])
    case _ => Four(bytes[0], bytes[1], bytes[2], bytes[3])
  }

  function Encode2(c: nat): (bytes: seq<byte>)
    requires c < 0x800
    ensures |bytes| == 2
  {
    [0xc0 + c / 64, 0x80 + c % 64]
  }

  function Encode3(c: nat): (bytes: seq<byte>)
    requires c < 0x1_0000
    ensures |bytes| == 3
  {
    [0xe0 + c / 4096, 0x80 + c / 64 % 64, 0x80 + c % 64]
  }

  function Encode4(c: nat): (bytes: seq<byte>)
    requires c < 0x11_0000
    ensures |bytes| == 4
  {
    [0xf0 + c / 262144, 0x80 + c / 4096 % 64, 0x80 + c / 64 % 64, 0x80 + c % 64]
  }

  function Encode(c: nat): (bytes: seq<byte>)
    requires IsScalar(c)
    ensures 1 <= |bytes| <= 4
  {
    if c < 0x80 then [c] else if c < 0x800 then Encode2(c) else if c < 0x1_0000 then Encode3(c) else Encode4(c)
  }

  lemma TwoOf(c: nat)
    requires 0x80 <= c < 0x800
    ensures var e := Encode2(c);
            Width(e[0]) == 2 && IsSecond(e[0], e[1]) && Two(e[0], e[1]) == c
  {
  }

  lemma ThreeOf(c: nat)
    requires 0x800 <= c < 0x1_0000 && IsScalar(c)
    ensures var e := Encode3(c);
            Width(e[0]) == 3 && IsSecond(e[0], e[1]) && IsTail(e[2]) && Three(e[0], e[1], e[2]) == c
  {
    assert c / 4096 == c / 64 / 64;
  }

  lemma FourOf(c: nat)
    requires 0x1_0000 <= c < 0x11_0000
    ensures var e := Encode4(c);
            && Width(e[0]) == 4 && IsSecond(e[0], e[1]) && IsTail(e[2]) && IsTail(e[3])
            && Four(e[0], e[1], e[2], e[3]) == c
  {
    assert c / 4096 == c / 64 / 64;
    assert c / 262144 == c / 4096 / 64;
  }

  /** Decoding undoes encoding, whatever follows. */
  lemma DecodeEncoded(c: nat, rest: seq<byte>)
    requires IsScalar(c)
    ensures var bytes := Encode(c) + rest;
            StartsWithCharacter(bytes) && Width(bytes[0]) == |Encode(c)| && Value(bytes) == c
  {
    hide Encode2, Encode3, Encode4, Two, Three, Four;
    if c < 0x80 {
    } else if c < 0x800 {
      TwoOf(c);
    } else if c < 0x1_0000 {
      ThreeOf(c);
    } else {
      FourOf(c);
    }
  }

  lemma ValueOfTwo(b0: byte, b1: byte)
    requires Width(b0) == 2 && IsSecond(b0, b1)
    ensures 0x80 <= Two(b0, b1) < 0x800 && Encode2(Two(b0, b1)) == [b0, b1]
  {
  }

  lemma ValueOfThree(b0: byte, b1: byte, b2: byte)
    requires Width(b0) == 3 && IsSecond(b0, b1) && IsTail(b2)
    ensures var c := Three(b0, b1, b2);
            0x800 <= c < 0x1_0000 && IsScalar(c) && Encode3(c) == [b0, b1, b2]
  {
    assert Three(b0, b1, b2) / 64 == (b0 - 0xe0) * 64 + (b1 - 0x80);
  }

  lemma ValueOfFour(b0: byte, b1: byte, b2: byte, b3: byte)
    requires Width(b0) == 4 && IsSecond(b0, b1) && IsTail(b2) && IsTail(b3)
    ensures var c := Four(b0, b1, b2, b3);
            0x1_0000 <= c < 0x11_0000 && Encode4(c) == [b0, b1, b2, b3]
  {
    assert Four(b0, b1, b2, b3) / 64 == (b0 - 0xf0) * 4096 + (b1 - 0x80) * 64 + (b2 - 0x80);
    assert Four(b0, b1, b2, b3) / 4096 == (b0 - 0xf0) * 64 + (b1 - 0x80);
  }

  /** Encoding undoes decoding: every character is the one encoding of its value, which is a scalar value. */
  lemma EncodeDecoded(bytes: seq<byte>)
    requires StartsWithCharacter(bytes)
    ensures IsScalar(Value(bytes)) && Encode(Value(bytes)) == bytes[..Width(bytes[0])]
  {
    hide Encode2, Encode3, Encode4, Two, Three, Four;
    match Width(bytes[0])
    case 1 =>
    case 2 => ValueOfTwo(bytes[0], bytes[1]);
    case 3 => ValueOfThree(bytes[0], bytes[1], bytes[2]);
    case _ => ValueOfFour(bytes[0], bytes[1], bytes[2], bytes[3]);
  }

  /** The length of the longest prefix made of whole characters, as the library's validation reports it. */
  function ValidUpTo(bytes: seq<byte>): (n: nat)
    ensures n <= |bytes|
  {
    if !StartsWithCharacter(bytes) then 0 else Width(bytes[0]) + ValidUpTo(bytes[Width(bytes[0])..])
  }

  /** Text read as characters where it can be, and as single bytes where it cannot. */
  datatype Item = Character(scalar: nat) | Invalid(raw: byte)

  function ItemWidth(bytes: seq<byte>): (w: nat)
    requires bytes != []
    ensures 0 < w <= |bytes|
  {
    if StartsWithCharacter(bytes) then Width(bytes[0]) else 1
  }

  function Items(bytes: seq<byte>): seq<Item> {
    if bytes == [] then []
    else
      [if StartsWithCharacter(bytes) then Character(Value(bytes)) else Invalid(bytes[0])]
      + Items(bytes[ItemWidth(bytes)..])
  }
}
