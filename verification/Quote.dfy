/** Go-style quoting of arbitrary bytes in report templates, and the string literals that read it back. */
module Quoting {
  import opened Common
  import opened Bits
  import opened Utf8

  const QUOTE: byte := 0x22
  const BACKSLASH: byte := 0x5c
  const LOWER_X: byte := 0x78
  const LOWER_U: byte := 0x75
  const UPPER_U: byte := 0x55

  datatype QuoteError = OutputLimit

  // ---------------------------------------------------------------------
  // Hexadecimal digits
  // ---------------------------------------------------------------------

  function HexDigit(d: nat): byte
    requires d < 16
  {
    if d < 10 then 0x30 + d else 0x61 + d - 10
  }

  /** The `n` lowest hexadecimal digits of a value, highest first. */
  function HexDigits(value: nat, n: nat): (digits: seq<byte>)
    ensures |digits| == n
  {
    if n == 0 then [] else HexDigits(value / 16, n - 1) + [HexDigit(value % 16)]
  }

  /** A value has no more than `n` hexadecimal digits. */
  predicate FitsHex(value: nat, n: nat) {
    if n == 0 then value == 0 else FitsHex(value / 16, n - 1)
  }

  lemma ScalarFitsHex(c: nat)
    ensures c < 0x100 ==> FitsHex(c, 2)
    ensures c < 0x1_0000 ==> FitsHex(c, 4)
    ensures c < 0x11_0000 ==> FitsHex(c, 8)
  {
    var c1 := c / 16;
    var c2 := c1 / 16;
    var c3 := c2 / 16;
    var c4 := c3 / 16;
    var c6 := c4 / 16 / 16;
    assert FitsHex(c, 2) <==> FitsHex(c2, 0);
    assert FitsHex(c2, 2) <==> FitsHex(c4, 0);
    assert FitsHex(c4, 2) <==> FitsHex(c6, 0);
    assert FitsHex(c6, 2) <==> FitsHex(c6 / 16 / 16, 0);
    assert FitsHex(c, 4) <==> FitsHex(c2, 2);
    assert FitsHex(c4, 4) <==> FitsHex(c6, 2);
    assert FitsHex(c, 6) <==> FitsHex(c2, 4);
    assert FitsHex(c2, 4) <==> FitsHex(c4, 2);
    assert FitsHex(c2, 6) <==> FitsHex(c4, 4);
    assert FitsHex(c, 8) <==> FitsHex(c2, 6);
  }

  // ---------------------------------------------------------------------
  // What quoting writes
  // ---------------------------------------------------------------------

  /** The letter that stands for a character with a short escape. */
  function ShortEscape(c: nat): Option<byte> {
    match c
    case 0x22 => Some(0x22)
    case 0x5c => Some(0x5c)
    case 0x07 => Some(0x61)
    case 0x08 => Some(0x62)
    case 0x0c => Some(0x66)
    case 0x0a => Some(0x6e)
    case 0x0d => Some(0x72)
    case 0x09 => Some(0x74)
    case 0x0b => Some(0x76)
    case _ => None
  }

  function HexEscape(prefix: byte, value: nat, digits: nat): (r: seq<byte>)
    ensures |r| == 2 + digits
  {
    [BACKSLASH, prefix] + HexDigits(value, digits)
  }

  /** What stands for one character. `printable` is the table of characters that Go prints as they are. */
  function QuotedCharacter(c: nat, printable: nat -> bool): (r: seq<byte>)
    requires IsScalar(c)
    ensures r != []
  {
    if ShortEscape(c).Some? then [BACKSLASH, ShortEscape(c).value]
    else if c == 0x20 || printable(c) then Encode(c)
    else if c <= 0xff then HexEscape(LOWER_X, c, 2)
    else if c <= 0xffff then HexEscape(LOWER_U, c, 4)
    else HexEscape(UPPER_U, c, 8)
  }

  const LOWER_DIGITS: string := "0123456789abcdef"

  /** Digit `k` of so many hexadecimal digits, from the highest, which is digit 0. */
  function DigitAt(value: nat, n: nat, k: nat): (d: nat)
    requires k < n
    ensures d < 16
  {
    if k == n - 1 then value % 16 else DigitAt(value / 16, n - 1, k)
  }

  /** Hexadecimal digits are written in lower case. */
  lemma {:induction false} LowerCase(value: nat, n: nat, k: nat)
    requires k < n
    ensures HexDigits(value, n)[k] == LOWER_DIGITS[DigitAt(value, n, k)] as int
  {
    if k < n - 1 {
      LowerCase(value / 16, n - 1, k);
    }
  }

  /** How characters are spelled: the eight short escapes, and otherwise the character itself or its digits. */
  lemma Spelling(c: nat, printable: nat -> bool)
    requires IsScalar(c)
    ensures QuotedCharacter(0x0a, printable) == [0x5c, 'n' as int]
            && QuotedCharacter(0x0d, printable) == [0x5c, 'r' as int]
    ensures QuotedCharacter(0x09, printable) == [0x5c, 't' as int]
            && QuotedCharacter(0x0b, printable) == [0x5c, 'v' as int]
    ensures QuotedCharacter(0x07, printable) == [0x5c, 'a' as int]
            && QuotedCharacter(0x08, printable) == [0x5c, 'b' as int]
    ensures QuotedCharacter(0x0c, printable) == [0x5c, 'f' as int]
    ensures QuotedCharacter(0x22, printable) == [0x5c, '"' as int] && QuotedCharacter(0x5c, printable) == [0x5c, 0x5c]
    ensures c !in {0x07, 0x08, 0x09, 0x0a, 0x0b, 0x0c, 0x0d, 0x22, 0x5c} ==>
              QuotedCharacter(c, printable)
              == if c == 0x20 || printable(c) then Encode(c)
                 else if c < 0x100 then [0x5c, 'x' as int] + HexDigits(c, 2)
                 else if c < 0x1_0000 then [0x5c, 'u' as int] + HexDigits(c, 4)
                 else [0x5c, 'U' as int] + HexDigits(c, 8)
  {
  }

  predicate IsItem(item: Item) {
    item.Character? ==> IsScalar(item.scalar)
  }

  function QuotedItem(item: Item, printable: nat -> bool): (r: seq<byte>)
    requires IsItem(item)
    ensures r != []
  {
    match item
    case Character(c) => QuotedCharacter(c, printable)
    case Invalid(raw) => HexEscape(LOWER_X, raw, 2)
  }

  function QuotedItems(items: seq<Item>, printable: nat -> bool): seq<byte>
    requires forall i | 0 <= i < |items| :: IsItem(items[i])
  {
    if items == [] then [] else QuotedItem(items[0], printable) + QuotedItems(items[1..], printable)
  }

  lemma {:induction false} ItemsAreItems(bytes: seq<byte>)
    ensures forall i | 0 <= i < |Items(bytes)| :: IsItem(Items(bytes)[i])
  {
    if bytes != [] {
      ItemsAreItems(bytes[ItemWidth(bytes)..]);
      if StartsWithCharacter(bytes) {
        EncodeDecoded(bytes);
      }
    }
  }

  /** The quoted form of a byte string. */
  function Quoted(bytes: seq<byte>, printable: nat -> bool): seq<byte> {
    ItemsAreItems(bytes);
    [QUOTE] + QuotedItems(Items(bytes), printable) + [QUOTE]
  }

  // ---------------------------------------------------------------------
  // String literals
  // ---------------------------------------------------------------------

  datatype ParseError =
    | UnterminatedEscape
    | ShortHex
    | InvalidHex
    | InvalidByte
    | InvalidUnicode
    | UnsupportedEscape
    | UnterminatedLiteral

  function HexValueOf(b: byte): Option<nat> {
    if 0x30 <= b <= 0x39 then Some(b as nat - 0x30)
    else if 0x61 <= b <= 0x66 then Some(b as nat - 0x61 + 10)
    else if 0x41 <= b <= 0x46 then Some(b as nat - 0x41 + 10)
    else None
  }

  /** The value of a run of hexadecimal digits. */
  function HexValue(digits: seq<byte>): Option<nat> {
    if digits == [] then Some(0)
    else
      var last := |digits| - 1;
      match HexValue(digits[..last])
      case None => None
      case Some(high) =>
        match HexValueOf(digits[last])
        case None => None
        case Some(low) => Some(high * 16 + low)
  }

  /** A hexadecimal number of `n` digits at the front of `text`. */
  function HexAt(text: seq<byte>, n: nat): Result<nat, ParseError> {
    if |text| < n then Err(ShortHex)
    else match HexValue(text[..n])
      case None => Err(InvalidHex)
      case Some(value) => Ok(value)
  }

  /** What a short escape stands for. */
  function ShortValue(letter: byte): Option<byte> {
    match letter
    case 0x61 => Some(0x07)
    case 0x62 => Some(0x08)
    case 0x66 => Some(0x0c)
    case 0x6e => Some(0x0a)
    case 0x72 => Some(0x0d)
    case 0x74 => Some(0x09)
    case 0x76 => Some(0x0b)
    case 0x5c => Some(0x5c)
    case 0x22 => Some(0x22)
    case _ => None
  }

  /** Bytes read from a literal, and how many bytes of its text they took. */
  datatype Read = Read(bytes: seq<byte>, width: nat)

  /** The escape that `text`, which starts with a backslash, stands for. */
  function EscapeAt(text: seq<byte>): (r: Result<Read, ParseError>)
    requires text != []
    ensures r.Ok? ==> 0 < r.value.width <= |text|
  {
    if |text| < 2 then Err(UnterminatedEscape)
    else
      var letter := text[1];
      if ShortValue(letter).Some? then Ok(Read([ShortValue(letter).value], 2))
      else if letter == LOWER_X then
        match HexAt(text[2..], 2)
        case Err(e) => Err(e)
        case Ok(value) => if value < 256 then Ok(Read([value], 4)) else Err(InvalidByte)
      else if letter == LOWER_U || letter == UPPER_U then
        var digits := if letter == LOWER_U then 4 else 8;
        match HexAt(text[2..], digits)
        case Err(e) => Err(e)
        case Ok(value) => if IsScalar(value) then Ok(Read(Encode(value), 2 + digits)) else Err(InvalidUnicode)
      else Err(UnsupportedEscape)
  }

  /** The literal whose text, behind the opening quote, is `text`: its value and how much of the text it takes. */
  function Literal(text: seq<byte>): (r: Result<Read, ParseError>)
    ensures r.Ok? ==> r.value.width <= |text|
  {
    if text == [] then Err(UnterminatedLiteral)
    else if text[0] == QUOTE then Ok(Read([], 1))
    else if text[0] == BACKSLASH then
      match EscapeAt(text)
      case Err(e) => Err(e)
      case Ok(escape) => After(escape, Literal(text[escape.width..]))
    else After(Read([text[0]], 1), Literal(text[1..]))
  }

  /** A result with something read before it. */
  function After(first: Read, rest: Result<Read, ParseError>): Result<Read, ParseError> {
    match rest
    case Err(e) => Err(e)
    case Ok(more) => Ok(Read(first.bytes + more.bytes, first.width + more.width))
  }

  // ---------------------------------------------------------------------
  // Reading back what was quoted
  // ---------------------------------------------------------------------

  lemma HexDigitRead(d: nat)
    requires d < 16
    ensures HexValueOf(HexDigit(d)) == Some(d)
  {
  }

  lemma {:induction false} HexRoundTrip(value: nat, n: nat)
    requires FitsHex(value, n)
    ensures HexValue(HexDigits(value, n)) == Some(value)
  {
    if n > 0 {
      var high := HexDigits(value / 16, n - 1);
      HexRoundTrip(value / 16, n - 1);
      HexDigitRead(value % 16);
      assert HexDigits(value, n)[..n - 1] == high;
    }
  }

  lemma HexAtRead(value: nat, n: nat, rest: seq<byte>)
    requires FitsHex(value, n)
    ensures HexAt(HexDigits(value, n) + rest, n) == Ok(value)
  {
    HexRoundTrip(value, n);
    assert (HexDigits(value, n) + rest)[..n] == HexDigits(value, n);
  }

  lemma ByteEscapeRead(c: nat, rest: seq<byte>)
    requires c < 256
    ensures EscapeAt(HexEscape(LOWER_X, c, 2) + rest) == Ok(Read([c], 4))
  {
    ScalarFitsHex(c);
    HexAtRead(c, 2, rest);
    assert (HexEscape(LOWER_X, c, 2) + rest)[2..] == HexDigits(c, 2) + rest;
  }

  lemma ScalarEscapeRead(c: nat, letter: byte, digits: nat, rest: seq<byte>)
    requires IsScalar(c) && FitsHex(c, digits)
    requires (letter == LOWER_U && digits == 4) || (letter == UPPER_U && digits == 8)
    ensures EscapeAt(HexEscape(letter, c, digits) + rest) == Ok(Read(Encode(c), 2 + digits))
  {
    hide HexAt, HexDigits, FitsHex, Encode;
    HexAtRead(c, digits, rest);
    assert (HexEscape(letter, c, digits) + rest)[2..] == HexDigits(c, digits) + rest;
  }

  lemma AfterTwice(first: Read, second: Read, rest: Result<Read, ParseError>)
    ensures After(first, After(second, rest))
            == After(Read(first.bytes + second.bytes, first.width + second.width), rest)
  {
    if rest.Ok? {
      assert first.bytes + (second.bytes + rest.value.bytes) == first.bytes + second.bytes + rest.value.bytes;
    }
  }

  /** Text without quotes and backslashes stands for itself. */
  lemma {:induction false} PlainRead(plain: seq<byte>, rest: seq<byte>)
    requires QUOTE !in plain && BACKSLASH !in plain
    ensures Literal(plain + rest) == After(Read(plain, |plain|), Literal(rest))
  {
    if plain == [] {
      assert plain + rest == rest;
      assert Literal(rest).Ok? ==> [] + Literal(rest).value.bytes == Literal(rest).value.bytes;
    } else {
      PlainRead(plain[1..], rest);
      assert (plain + rest)[1..] == plain[1..] + rest;
      AfterTwice(Read([plain[0]], 1), Read(plain[1..], |plain| - 1), Literal(rest));
      assert plain == [plain[0]] + plain[1..];
    }
  }

  lemma EncodedPlain(c: nat)
    requires IsScalar(c) && c != 0x22 && c != 0x5c
    ensures QUOTE !in Encode(c) && BACKSLASH !in Encode(c)
  {
  }

  /** The scalars that quoting writes as a single byte escape although UTF-8 needs two bytes for them. */
  predicate Narrowed(item: Item, printable: nat -> bool) {
    item.Character? && 0x80 <= item.scalar <= 0xff && !printable(item.scalar)
  }

  /** The bytes that an item was read from. */
  function ItemBytes(item: Item): (bytes: seq<byte>)
    requires IsItem(item)
    ensures bytes != []
  {
    if item.Character? then Encode(item.scalar) else [item.raw]
  }

  /** The bytes that reading an item's quoted form gives. */
  function ReadBack(item: Item, printable: nat -> bool): (bytes: seq<byte>)
    requires IsItem(item)
    ensures bytes != []
  {
    if Narrowed(item, printable) then [item.scalar] else ItemBytes(item)
  }

  lemma EscapeRead(escape: seq<byte>, rest: seq<byte>, bytes: seq<byte>)
    requires escape != [] && escape[0] == BACKSLASH && EscapeAt(escape + rest) == Ok(Read(bytes, |escape|))
    ensures Literal(escape + rest) == After(Read(bytes, |escape|), Literal(rest))
  {
    assert (escape + rest)[|escape|..] == rest;
  }

  lemma NoEscape(c: nat)
    requires ShortEscape(c).None?
    ensures c != 0x22 && c != 0x5c
  {
  }

  lemma AsciiByte(c: nat)
    requires c < 0x80
    ensures Encode(c) == [c]
  {
  }

  lemma ShortEscapeRead(c: nat, rest: seq<byte>)
    requires ShortEscape(c).Some?
    ensures Encode(c) == [c] && EscapeAt([BACKSLASH, ShortEscape(c).value] + rest) == Ok(Read([c], 2))
  {
  }

  lemma CharacterRead(c: nat, printable: nat -> bool, rest: seq<byte>)
    requires IsScalar(c)
    ensures var text := QuotedCharacter(c, printable);
            Literal(text + rest) == After(Read(ReadBack(Character(c), printable), |text|), Literal(rest))
  {
    hide EscapeAt, Literal, HexDigits, ShortEscape, Encode;
    var text, bytes := QuotedCharacter(c, printable), ReadBack(Character(c), printable);
    if ShortEscape(c).Some? {
      ShortEscapeRead(c, rest);
      EscapeRead(text, rest, bytes);
    } else if c == 0x20 || printable(c) {
      NoEscape(c);
      EncodedPlain(c);
      PlainRead(Encode(c), rest);
    } else {
      ScalarFitsHex(c);
      if c <= 0xff {
        if c < 0x80 {
          AsciiByte(c);
        }
        ByteEscapeRead(c, rest);
      } else if c <= 0xffff {
        ScalarEscapeRead(c, LOWER_U, 4, rest);
      } else {
        ScalarEscapeRead(c, UPPER_U, 8, rest);
      }
      EscapeRead(text, rest, bytes);
    }
  }

  lemma ItemRead(item: Item, printable: nat -> bool, rest: seq<byte>)
    requires IsItem(item)
    ensures var text := QuotedItem(item, printable);
            Literal(text + rest) == After(Read(ReadBack(item, printable), |text|), Literal(rest))
  {
    match item
    case Character(c) => CharacterRead(c, printable, rest);
    case Invalid(raw) =>
      ByteEscapeRead(raw, rest);
      assert (QuotedItem(item, printable) + rest)[4..] == rest;
  }

  function AllReadBack(items: seq<Item>, printable: nat -> bool): seq<byte>
    requires forall i | 0 <= i < |items| :: IsItem(items[i])
  {
    if items == [] then [] else ReadBack(items[0], printable) + AllReadBack(items[1..], printable)
  }

  lemma ClosingQuote(rest: seq<byte>)
    ensures Literal([QUOTE] + rest) == Ok(Read([], 1))
  {
  }

  lemma {:induction false} ItemsRead(items: seq<Item>, printable: nat -> bool, rest: seq<byte>)
    requires forall i | 0 <= i < |items| :: IsItem(items[i])
    ensures var text := QuotedItems(items, printable);
            Literal(text + [QUOTE] + rest) == Ok(Read(AllReadBack(items, printable), |text| + 1))
  {
    hide Literal, QuotedItem, ReadBack;
    var text := QuotedItems(items, printable);
    if items == [] {
      assert text + [QUOTE] + rest == [QUOTE] + rest;
      ClosingQuote(rest);
    } else {
      var tail := QuotedItems(items[1..], printable) + [QUOTE] + rest;
      assert text + [QUOTE] + rest == QuotedItem(items[0], printable) + tail;
      ItemRead(items[0], printable, tail);
      ItemsRead(items[1..], printable, rest);
    }
  }

  function AllBytes(items: seq<Item>): seq<byte>
    requires forall i | 0 <= i < |items| :: IsItem(items[i])
  {
    if items == [] then [] else ItemBytes(items[0]) + AllBytes(items[1..])
  }

  /** The items of a byte string are all of it. */
  lemma {:induction false} ItemsCover(bytes: seq<byte>)
    ensures (forall i | 0 <= i < |Items(bytes)| :: IsItem(Items(bytes)[i])) && AllBytes(Items(bytes)) == bytes
  {
    hide Value, IsSecond, IsTail;
    ItemsAreItems(bytes);
    if bytes != [] {
      var w := ItemWidth(bytes);
      ItemsCover(bytes[w..]);
      assert Items(bytes)[1..] == Items(bytes[w..]);
      if StartsWithCharacter(bytes) {
        EncodeDecoded(bytes);
      }
      assert bytes == bytes[..w] + bytes[w..];
    }
  }

  predicate AnyNarrowed(items: seq<Item>, printable: nat -> bool) {
    items != [] && (Narrowed(items[0], printable) || AnyNarrowed(items[1..], printable))
  }

  lemma NarrowedShorter(item: Item, printable: nat -> bool)
    requires IsItem(item)
    ensures |ReadBack(item, printable)| + (if Narrowed(item, printable) then 1 else 0) == |ItemBytes(item)|
    ensures !Narrowed(item, printable) ==> ReadBack(item, printable) == ItemBytes(item)
  {
  }

  /** Reading back never makes a string longer, and gives the same bytes exactly if nothing was narrowed. */
  lemma {:induction false} ReadBackSame(items: seq<Item>, printable: nat -> bool)
    requires forall i | 0 <= i < |items| :: IsItem(items[i])
    ensures |AllReadBack(items, printable)| <= |AllBytes(items)|
    ensures AllReadBack(items, printable) == AllBytes(items) <==> !AnyNarrowed(items, printable)
    ensures AnyNarrowed(items, printable) ==> |AllReadBack(items, printable)| < |AllBytes(items)|
  {
    hide ReadBack, ItemBytes, Narrowed;
    if items != [] {
      NarrowedShorter(items[0], printable);
      ReadBackSame(items[1..], printable);
    }
  }

  /**
   * A quoted string is read back in one piece, whatever follows it, and the bytes that come back are the ones quoted if
   * and only if the string holds no unprintable character from U+0080 to U+00FF.
   */
  lemma QuoteRoundTrip(bytes: seq<byte>, printable: nat -> bool, rest: seq<byte>)
    ensures var text := Quoted(bytes, printable);
            && text[0] == QUOTE
            && Literal(text[1..] + rest).Ok?
            && Literal(text[1..] + rest).value.width == |text| - 1
            && (Literal(text[1..] + rest).value.bytes == bytes <==> !AnyNarrowed(Items(bytes), printable))
  {
    hide Literal, Items, QuotedItems, AllReadBack, AllBytes, AnyNarrowed;
    ItemsCover(bytes);
    var items := Items(bytes);
    ItemsRead(items, printable, rest);
    assert Quoted(bytes, printable)[1..] + rest == QuotedItems(items, printable) + [QUOTE] + rest;
    ReadBackSame(items, printable);
  }

  /**
   * The one-byte escape loses a character: U+00AD, which Go does not print, comes back as one byte that is not UTF-8.
   */
  lemma SoftHyphenLost()
    ensures var bytes := Encode(0xad);
            var text := Quoted(bytes, _ => false);
            Literal(text[1..]).Ok? && Literal(text[1..]).value.bytes != bytes
  {
    hide Literal, Quoted, QuotedItems, Encode;
    var bytes := Encode(0xad);
    DecodeEncoded(0xad, []);
    assert bytes + [] == bytes;
    QuoteRoundTrip(bytes, _ => false, []);
    var text := Quoted(bytes, _ => false);
    assert text[1..] + [] == text[1..];
    assert Items(bytes)[0] == Character(0xad);
  }

  // ---------------------------------------------------------------------
  // Quoting within an output limit
  // ---------------------------------------------------------------------

  /** Everything fits, or the limit is reported. */
  ghost predicate Limited(r: Result<seq<byte>, QuoteError>, whole: seq<byte>, limit: nat) {
    r == if |whole| <= limit then Ok(whole) else Err(OutputLimit)
  }

  method PushLimited(output: seq<byte>, b: byte, limit: nat) returns (r: Result<seq<byte>, QuoteError>)
    ensures Limited(r, output + [b], limit)
  {
    r := if |output| >= limit then Err(OutputLimit) else Ok(output + [b]);
  }

  method AppendLimited(output: seq<byte>, bytes: seq<byte>, limit: nat) returns (r: Result<seq<byte>, QuoteError>)
    ensures Limited(r, output + bytes, limit)
  {
    r := if |output| + |bytes| > limit then Err(OutputLimit) else Ok(output + bytes);
  }

  lemma HexStep(value: nat, shift: nat, n: nat)
    ensures HexDigits(ShiftRight(value, 4 * shift), n + 1)
         == HexDigits(ShiftRight(value, 4 * shift + 4), n) + [HexDigit(ShiftRight(value, 4 * shift) % 16)]
  {
    var x := ShiftRight(value, 4 * shift);
    assert ShiftRight(value, 4 * shift + 2) == x / 2 / 2;
    assert ShiftRight(value, 4 * shift + 4) == x / 2 / 2 / 2 / 2 == x / 16;
  }

  /** Appends a backslash, a letter and the digits of a value, highest first. */
  method AppendHexEscape(output: seq<byte>, prefix: byte, value: nat, digits: nat, limit: nat)
    returns (r: Result<seq<byte>, QuoteError>)
    ensures Limited(r, output + HexEscape(prefix, value, digits), limit)
  {
    ghost var whole := output + HexEscape(prefix, value, digits);
    r := AppendLimited(output, [BACKSLASH], limit);
    if r.Err? {
      return;
    }
    r := PushLimited(r.value, prefix, limit);
    if r.Err? {
      return;
    }
    ghost var front := r.value;
    assert whole == front + HexDigits(value, digits);
    var shift := digits;
    ghost var written: seq<byte> := [];
    assert front + written == front;
    while shift > 0
      invariant 0 <= shift <= digits
      invariant r == Ok(front + written) && |written| == digits - shift && |front + written| <= limit
      invariant written == HexDigits(ShiftRight(value, 4 * shift), digits - shift)
    {
      shift := shift - 1;
      var digit := HexDigit(ShiftRight(value, 4 * shift) % 16);
      HexStep(value, shift, digits - shift - 1);
      assert front + written + [digit] == front + (written + [digit]);
      r := PushLimited(r.value, digit, limit);
      if r.Err? {
        return;
      }
      written := written + [digit];
    }
  }

  /** The items of text that is valid UTF-8 throughout. */
  predicate IsText(items: seq<Item>) {
    forall i | 0 <= i < |items| :: items[i].Character? && IsItem(items[i])
  }

  method AppendQuotedCharacter(output: seq<byte>, c: nat, limit: nat, printable: nat -> bool)
    returns (r: Result<seq<byte>, QuoteError>)
    requires IsScalar(c)
    ensures Limited(r, output + QuotedCharacter(c, printable), limit)
  {
    var short := ShortEscape(c);
    if short.Some? {
      r := AppendLimited(output, [BACKSLASH, short.value], limit);
    } else if c == 0x20 || printable(c) {
      r := AppendLimited(output, Encode(c), limit);
    } else if c <= 0xff {
      r := AppendHexEscape(output, LOWER_X, c, 2, limit);
    } else if c <= 0xffff {
      r := AppendHexEscape(output, LOWER_U, c, 4, limit);
    } else {
      r := AppendHexEscape(output, UPPER_U, c, 8, limit);
    }
  }

  lemma QuotedItemsSplit(items: seq<Item>, k: nat, printable: nat -> bool)
    requires IsText(items) && k < |items|
    ensures QuotedItems(items[k..], printable)
         == QuotedCharacter(items[k].scalar, printable) + QuotedItems(items[k + 1..], printable)
  {
    assert items[k..][0] == items[k] && items[k..][1..] == items[k + 1..];
  }

  /** Appends the quoted forms of characters. */
  method AppendQuotedValid(output: seq<byte>, valid: seq<Item>, limit: nat, printable: nat -> bool)
    returns (r: Result<seq<byte>, QuoteError>)
    requires IsText(valid) && |output| <= limit
    ensures Limited(r, output + QuotedItems(valid, printable), limit)
  {
    hide QuotedCharacter, QuotedItems;
    ghost var whole := output + QuotedItems(valid, printable);
    r := Ok(output);
    assert valid[0..] == valid;
    for k := 0 to |valid|
      invariant r.Ok? && |r.value| <= limit && whole == r.value + QuotedItems(valid[k..], printable)
    {
      QuotedItemsSplit(valid, k, printable);
      ghost var more := QuotedCharacter(valid[k].scalar, printable);
      assert whole == r.value + more + QuotedItems(valid[k + 1..], printable);
      r := AppendQuotedCharacter(r.value, valid[k].scalar, limit, printable);
      if r.Err? {
        return;
      }
    }
    NothingQuoted(valid[|valid|..], printable);
    assert r.value + [] == r.value;
  }

  lemma NothingQuoted(items: seq<Item>, printable: nat -> bool)
    requires items == []
    ensures QuotedItems(items, printable) == []
  {
  }

  lemma SamePrefix(bytes: seq<byte>, n: nat)
    requires StartsWithCharacter(bytes) && Width(bytes[0]) <= n <= |bytes|
    ensures StartsWithCharacter(bytes[..n]) && Value(bytes[..n]) == Value(bytes)
  {
  }

  lemma FirstItem(bytes: seq<byte>, n: nat)
    requires StartsWithCharacter(bytes) && Width(bytes[0]) <= n <= |bytes|
    ensures var w := Width(bytes[0]);
            Items(bytes[..n]) == [Character(Value(bytes))] + Items(bytes[w..][..n - w]) && IsScalar(Value(bytes))
  {
    SamePrefix(bytes, n);
    EncodeDecoded(bytes);
    hide Value, StartsWithCharacter, Encode;
    var w := Width(bytes[0]);
    assert bytes[..n][w..] == bytes[w..][..n - w];
  }

  /** What of a text stands behind its first `n` bytes, when byte `n` is not part of a character. */
  ghost function Behind(bytes: seq<byte>, n: nat): seq<Item>
    requires n <= |bytes|
  {
    if n == |bytes| then [] else [Invalid(bytes[n])] + Items(bytes[n + 1..])
  }

  lemma BehindTail(bytes: seq<byte>, w: nat, n: nat)
    requires w <= n <= |bytes|
    ensures Behind(bytes[w..], n - w) == Behind(bytes, n)
  {
    if n < |bytes| {
      assert bytes[w..][n - w + 1..] == bytes[n + 1..];
    }
  }

  lemma NoCharacter(bytes: seq<byte>)
    requires !StartsWithCharacter(bytes)
    ensures Items(bytes) == Behind(bytes, 0) && Items(bytes[..0]) == []
  {
  }

  /** The characters up to the first byte that is not part of one, and that byte, are the first items of a text. */
  lemma {:induction false} ItemsSplit(bytes: seq<byte>)
    ensures var n := ValidUpTo(bytes);
            IsText(Items(bytes[..n])) && Items(bytes) == Items(bytes[..n]) + Behind(bytes, n)
  {
    hide Value, Behind, Items, IsScalar, IsSecond, IsTail;
    var n := ValidUpTo(bytes);
    if StartsWithCharacter(bytes) {
      var w := Width(bytes[0]);
      var tail := bytes[w..];
      ItemsSplit(tail);
      FirstItem(bytes, n);
      FirstItem(bytes, |bytes|);
      BehindTail(bytes, w, n);
      assert bytes[..|bytes|] == bytes && tail[..|bytes| - w] == tail;
    } else {
      NoCharacter(bytes);
    }
  }

  lemma {:induction false} QuotedItemsAppend(a: seq<Item>, b: seq<Item>, printable: nat -> bool)
    requires forall i | 0 <= i < |a| :: IsItem(a[i])
    requires forall i | 0 <= i < |b| :: IsItem(b[i])
    ensures forall i | 0 <= i < |a + b| :: IsItem((a + b)[i])
    ensures QuotedItems(a + b, printable) == QuotedItems(a, printable) + QuotedItems(b, printable)
  {
    hide QuotedItem;
    if a == [] {
      assert a + b == b;
    } else {
      QuotedItemsAppend(a[1..], b, printable);
      assert (a + b)[1..] == a[1..] + b;
    }
  }

  /** What quoting writes for all of `bytes`. */
  function QuotedText(bytes: seq<byte>, printable: nat -> bool): seq<byte> {
    ItemsAreItems(bytes);
    QuotedItems(Items(bytes), printable)
  }

  lemma InvalidFirst(raw: byte, items: seq<Item>, printable: nat -> bool)
    requires forall i | 0 <= i < |items| :: IsItem(items[i])
    ensures forall i | 0 <= i < |[Invalid(raw)] + items| :: IsItem(([Invalid(raw)] + items)[i])
    ensures QuotedItems([Invalid(raw)] + items, printable) == HexEscape(LOWER_X, raw, 2) + QuotedItems(items, printable)
  {
    assert ([Invalid(raw)] + items)[1..] == items;
  }

  lemma QuotedTextSplit(bytes: seq<byte>, printable: nat -> bool)
    ensures var n := ValidUpTo(bytes);
            && IsText(Items(bytes[..n]))
            && var text := QuotedItems(Items(bytes[..n]), printable);
            && QuotedText(bytes, printable) == text + EscapeAndRest(bytes, n, printable)
  {
    hide HexEscape, QuotedItems, Items, ValidUpTo, IsItem;
    var n := ValidUpTo(bytes);
    ItemsSplit(bytes);
    ItemsAreItems(bytes);
    var valid := Items(bytes[..n]);
    if n < |bytes| {
      ItemsAreItems(bytes[n + 1..]);
      var tail := Items(bytes[n + 1..]);
      TextIsItems(valid);
      assert Behind(bytes, n) == [Invalid(bytes[n])] + tail;
      InvalidBetween(valid, bytes[n], tail, printable);
    } else {
      assert Behind(bytes, n) == [] && valid + [] == valid;
    }
  }

  lemma TextIsItems(items: seq<Item>)
    requires IsText(items)
    ensures forall i | 0 <= i < |items| :: IsItem(items[i])
  {
  }

  /** An invalid byte between characters and other items. */
  lemma InvalidBetween(valid: seq<Item>, raw: byte, tail: seq<Item>, printable: nat -> bool)
    requires forall i | 0 <= i < |valid| :: IsItem(valid[i])
    requires forall i | 0 <= i < |tail| :: IsItem(tail[i])
    requires forall i | 0 <= i < |valid + ([Invalid(raw)] + tail)| :: IsItem((valid + ([Invalid(raw)] + tail))[i])
    ensures QuotedItems(valid + ([Invalid(raw)] + tail), printable)
         == QuotedItems(valid, printable) + (HexEscape(LOWER_X, raw, 2) + QuotedItems(tail, printable))
  {
    hide HexEscape, QuotedItems, IsItem;
    InvalidFirst(raw, tail, printable);
    QuotedItemsAppend(valid, [Invalid(raw)] + tail, printable);
  }

  lemma {:induction false} QuotedTextLength(items: seq<Item>, printable: nat -> bool)
    requires forall i | 0 <= i < |items| :: IsItem(items[i])
    ensures |AllBytes(items)| <= |QuotedItems(items, printable)|
  {
    if items != [] {
      QuotedItemLength(items[0], printable);
      hide QuotedItem, ItemBytes;
      QuotedTextLength(items[1..], printable);
    }
  }

  lemma QuotedItemLength(item: Item, printable: nat -> bool)
    requires IsItem(item)
    ensures |ItemBytes(item)| <= |QuotedItem(item, printable)|
  {
  }

  /** Quotes a byte string. It succeeds exactly when the quoted form is within the limit. */
  method GoQuote(bytes: seq<byte>, limit: nat, printable: nat -> bool) returns (r: Result<seq<byte>, QuoteError>)
    ensures Limited(r, Quoted(bytes, printable), limit)
  {
    hide QuotedItems, Items, HexEscape, AllBytes, ValidUpTo;
    assert Quoted(bytes, printable) == [QUOTE] + QuotedText(bytes, printable) + [QUOTE];
    if |bytes| * 4 + 2 > limit && |bytes| > limit {
      ItemsCover(bytes);
      QuotedTextLength(Items(bytes), printable);
      return Err(OutputLimit);
    }
    hide Quoted;
    ghost var quoted := Quoted(bytes, printable);
    r := PushLimited([], QUOTE, limit);
    if r.Err? {
      return;
    }
    var remaining := bytes;
    while remaining != []
      invariant r.Ok? && |r.value| <= limit
      invariant Remains(quoted, r.value, QuotedText(remaining, printable))
      decreases |remaining|
    {
      hide QuotedText, Remains;
      var n := ValidUpTo(remaining);
      QuotedTextSplit(remaining, printable);
      ghost var before := r.value;
      ghost var valid := QuotedItems(Items(remaining[..n]), printable);
      ghost var behind := EscapeAndRest(remaining, n, printable);
      WriteOn(quoted, before, valid, behind);
      r := AppendQuotedValid(r.value, Items(remaining[..n]), limit, printable);
      if r.Err? {
        return;
      }
      if n == |remaining| {
        remaining := [];
        NothingLeft(printable);
        break;
      }
      ghost var escape := HexEscape(LOWER_X, remaining[n], 2);
      WriteOn(quoted, before + valid, escape, QuotedText(remaining[n + 1..], printable));
      r := AppendHexEscape(r.value, LOWER_X, remaining[n], 2, limit);
      if r.Err? {
        return;
      }
      remaining := remaining[n + 1..];
    }
    NothingLeft(printable);
    assert r.value + [] + [QUOTE] == r.value + [QUOTE];
    r := PushLimited(r.value, QUOTE, limit);
  }

  /** What has been written, what remains to be written, and the closing quote are the quoted form. */
  ghost predicate Remains(quoted: seq<byte>, written: seq<byte>, rest: seq<byte>) {
    quoted == written + rest + [QUOTE]
  }

  lemma WriteOn(quoted: seq<byte>, written: seq<byte>, next: seq<byte>, rest: seq<byte>)
    requires Remains(quoted, written, next + rest)
    ensures Remains(quoted, written + next, rest) && |written + next| <= |quoted|
  {
    assert written + (next + rest) == written + next + rest;
  }

  /** What quoting writes behind the first `n` bytes, when they are characters and the next is none. */
  ghost function EscapeAndRest(bytes: seq<byte>, n: nat, printable: nat -> bool): seq<byte>
    requires n <= |bytes|
  {
    if n == |bytes| then [] else HexEscape(LOWER_X, bytes[n], 2) + QuotedText(bytes[n + 1..], printable)
  }

  lemma NothingLeft(printable: nat -> bool)
    ensures QuotedText([], printable) == []
  {
  }

  // ---------------------------------------------------------------------
  // Parsing
  // ---------------------------------------------------------------------

  lemma {:induction false} HexBound(digits: seq<byte>)
    ensures HexValue(digits).Some? ==> HexValue(digits).value < ShiftLeft(1, 4 * |digits|)
  {
    if digits != [] {
      HexBound(digits[..|digits| - 1]);
      var n := 4 * (|digits| - 1);
      assert ShiftLeft(1, n + 2) == 4 * ShiftLeft(1, n);
      assert ShiftLeft(1, n + 4) == 4 * ShiftLeft(1, n + 2);
    }
  }

  lemma {:induction false} HexFails(digits: seq<byte>, k: nat)
    requires k <= |digits| && HexValue(digits[..k]).None?
    ensures HexValue(digits).None?
    decreases |digits|
  {
    if k < |digits| {
      assert digits[..|digits| - 1][..k] == digits[..k];
      HexFails(digits[..|digits| - 1], k);
    } else {
      assert digits[..k] == digits;
    }
  }

  /** Reads a hexadecimal number, which fits a `u32` when it has at most eight digits. */
  method ParseHex(text: seq<byte>, n: nat) returns (r: Result<nat, ParseError>)
    requires n <= 8
    ensures r == HexAt(text, n)
    ensures r.Ok? ==> r.value < 0x1_0000_0000 && (n == 2 ==> r.value < 256)
  {
    if |text| < n {
      return Err(ShortHex);
    }
    ghost var digits := text[..n];
    var value: nat := 0;
    for k := 0 to n
      invariant HexValue(digits[..k]) == Some(value)
    {
      assert digits[..k + 1][..k] == digits[..k];
      var digit := HexValueOf(text[k]);
      if digit.None? {
        HexFails(digits, k + 1);
        return Err(InvalidHex);
      }
      value := value * 16 + digit.value;
    }
    assert digits[..n] == digits;
    HexBound(digits);
    OneMonotone(4 * n, 32);
    ShiftLeftConstants(1);
    r := Ok(value);
  }

  /** Reads the escape behind a backslash. The checked narrowing of a byte escape never fails. */
  method ParseEscape(text: seq<byte>) returns (r: Result<Read, ParseError>)
    requires text != []
    ensures r == EscapeAt(text) && r != Err(InvalidByte)
  {
    if |text| < 2 {
      return Err(UnterminatedEscape);
    }
    var letter := text[1];
    var short := ShortValue(letter);
    if short.Some? {
      return Ok(Read([short.value], 2));
    }
    if letter == LOWER_X {
      var value := ParseHex(text[2..], 2);
      if value.Err? {
        return Err(value.error);
      }
      return if value.value < 256 then Ok(Read([value.value], 4)) else Err(InvalidByte);
    }
    if letter == LOWER_U || letter == UPPER_U {
      var digits := if letter == LOWER_U then 4 else 8;
      var scalar := ParseHex(text[2..], digits);
      if scalar.Err? {
        return Err(scalar.error);
      }
      return if IsScalar(scalar.value) then Ok(Read(Encode(scalar.value), 2 + digits)) else Err(InvalidUnicode);
    }
    r := Err(UnsupportedEscape);
  }

  lemma LiteralEnds(text: seq<byte>)
    ensures text == [] ==> Literal(text) == Err(UnterminatedLiteral)
    ensures text != [] && text[0] == QUOTE ==> Literal(text) == Ok(Read([], 1))
    ensures text != [] && text[0] == BACKSLASH && EscapeAt(text).Err? ==> Literal(text) == Err(EscapeAt(text).error)
  {
  }

  /** What a literal goes on with: an escape, or any other byte. */
  lemma LiteralGoesOn(text: seq<byte>, step: Read)
    requires text != [] && text[0] != QUOTE
    requires if text[0] == BACKSLASH then EscapeAt(text) == Ok(step) else step == Read([text[0]], 1)
    ensures step.width <= |text| && Literal(text) == After(step, Literal(text[step.width..]))
  {
  }

  /** Reads the literal that starts with the quote at the front of `source`: its value, and where it ends. */
  method ParseStringLiteral(source: seq<byte>) returns (r: Result<Read, ParseError>)
    ensures r == if source == [] then Err(UnterminatedLiteral) else After(Read([], 1), Literal(source[1..]))
    ensures r.Ok? ==> r.value.width <= |source|
  {
    hide Literal, EscapeAt;
    if source == [] {
      return Err(UnterminatedLiteral);
    }
    var value: seq<byte>, cursor: nat := [], 1;
    ghost var whole := After(Read([], 1), Literal(source[1..]));
    while cursor < |source|
      invariant 1 <= cursor <= |source|
      invariant whole == After(Read(value, cursor), Literal(source[cursor..]))
    {
      ghost var rest := source[cursor..];
      var next := source[cursor];
      assert rest[0] == next;
      LiteralEnds(rest);
      if next == QUOTE {
        assert value + [] == value;
        return Ok(Read(value, cursor + 1));
      }
      var step: Read;
      if next == BACKSLASH {
        var escape := ParseEscape(source[cursor..]);
        if escape.Err? {
          return Err(escape.error);
        }
        step := escape.value;
      } else {
        step := Read([next], 1);
      }
      LiteralGoesOn(rest, step);
      assert rest[step.width..] == source[cursor + step.width..];
      AfterTwice(Read(value, cursor), step, Literal(source[cursor + step.width..]));
      value, cursor := value + step.bytes, cursor + step.width;
    }
    LiteralEnds(source[cursor..]);
    r := Err(UnterminatedLiteral);
  }

  /**
   * Parsing the quoted form of a string takes exactly that form, and gives the string back when nothing was narrowed.
   */
  lemma ParseUndoesQuote(bytes: seq<byte>, printable: nat -> bool, rest: seq<byte>)
    requires !AnyNarrowed(Items(bytes), printable)
    ensures var source := Quoted(bytes, printable) + rest;
            After(Read([], 1), Literal(source[1..])) == Ok(Read(bytes, |Quoted(bytes, printable)|))
  {
    hide Literal, Quoted;
    QuoteRoundTrip(bytes, printable, rest);
    var text := Quoted(bytes, printable);
    assert (text + rest)[1..] == text[1..] + rest;
    assert [] + bytes == bytes;
  }
}
