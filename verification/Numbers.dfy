/** RAR variable-length integers: seven bits a byte, lowest group first. */
module VariableInteger {
  import opened Common
  import opened Bits

  datatype VintError = Truncated | Overflow | TooLong

  datatype Taken = Taken(value: Result<nat, VintError>, rest: seq<byte>)

  /** The integer at the front of `input`, when `k` groups of it have been read before. */
  function Vint(input: seq<byte>, k: nat): (t: Taken)
    requires k <= 9
    decreases 9 - k
  {
    if input == [] then Taken(Err(Truncated), [])
    else
      var b, rest := input[0], input[1..];
      if k == 9 && b > 1 then Taken(Err(Overflow), rest)
      else if b < 128 then Taken(Ok(b), rest)
      else
        var t := Vint(rest, k + 1);
        if t.value.Ok? then Taken(Ok(b - 128 + 128 * t.value.value), t.rest) else t
  }

  /** The bytes that `put_vint` writes. */
  function VintBytes(value: nat): seq<byte> {
    if value < 128 then [value] else [128 + value % 128] + VintBytes(value / 128)
  }

  method PutVint(output: seq<byte>, value: nat) returns (written: seq<byte>)
    ensures written == output + VintBytes(value)
  {
    written := output;
    var v := value;
    while true
      invariant written + VintBytes(v) == output + VintBytes(value)
      decreases v
    {
      var b: byte := v % 128;
      var next := v / 128;
      if next != 0 {
        ContinuationBit(b);
        b := BitOr(b, 128);
      }
      VintBytesStep(written, v, b);
      written := written + [b];
      v := next;
      if v == 0 {
        return;
      }
    }
  }

  lemma ContinuationBit(b: byte)
    requires b < 128
    ensures BitOr(b, 128) == 128 + b
  {
    ShiftLeftConstants(1);
    BitOrDisjoint(b, 1, 7);
  }

  lemma VintBytesStep(written: seq<byte>, v: nat, b: byte)
    requires b == v % 128 + if v / 128 != 0 then 128 else 0
    ensures written + VintBytes(v) == (written + [b]) + if v / 128 == 0 then [] else VintBytes(v / 128)
  {
  }

  /** What is known once `value` has been read below bit `shift` and the rest of the integer is `t`. */
  ghost function Resume(value: nat, shift: nat, t: Taken): Taken {
    if t.value.Ok? then Taken(Ok(value + ShiftLeft(t.value.value, shift)), t.rest) else t
  }

  lemma ShiftGroup(low: nat, v: nat, shift: nat)
    ensures ShiftLeft(low + 128 * v, shift) == ShiftLeft(low, shift) + ShiftLeft(v, shift + 7)
  {
    ShiftLeftConstants(v);
    ShiftLeftTwice(v, 7, shift);
    ShiftLeftSum(low, 128 * v, shift);
  }

  lemma ResumeStep(value: nat, shift: nat, input: seq<byte>, k: nat)
    requires input != [] && k < 9 && input[0] >= 128
    ensures Resume(value, shift, Vint(input, k))
         == Resume(value + ShiftLeft(input[0] - 128, shift), shift + 7, Vint(input[1..], k + 1))
  {
    var t := Vint(input[1..], k + 1);
    if t.value.Ok? {
      ShiftGroup(input[0] - 128, t.value.value, shift);
    }
  }

  lemma GroupFits(value: nat, low: nat, shift: nat)
    requires low < 128 && value < ShiftLeft(1, shift)
    ensures value + ShiftLeft(low, shift) < ShiftLeft(1, shift + 7)
  {
    ShiftGroup(0, 1, shift);
    ShiftLeftSum(low, 1, shift);
    ShiftLeftMonotone(low + 1, 128, shift);
    ShiftLeftSum(0, 0, shift);
  }

  lemma SumFits(value: nat, low: nat, k: nat)
    requires k <= 9 && low < 128 && (k == 9 ==> low <= 1) && value < ShiftLeft(1, 7 * k)
    ensures value + ShiftLeft(low, 7 * k) < U64_BOUND
  {
    ShiftLeftConstants(1);
    if k == 9 {
      ShiftLeftMonotone(low, 1, 63);
      assert ShiftLeft(1, 64) == 2 * ShiftLeft(1, 63);
    } else {
      GroupFits(value, low, 7 * k);
      OneMonotone(7 * k + 7, 64);
    }
  }

  lemma GroupRead(value: nat, low: nat, shift: nat)
    requires low < 128 && value < ShiftLeft(1, shift)
    ensures BitOr(value, ShiftLeft(low, shift)) == value + ShiftLeft(low, shift) < ShiftLeft(1, shift + 7)
  {
    BitOrDisjoint(value, low, shift);
    GroupFits(value, low, shift);
  }

  /** `value` holds the `k` groups read so far, and `rest` continues the integer at the front of `input`. */
  ghost predicate VintState(input: seq<byte>, value: nat, rest: seq<byte>, k: nat) {
    k <= 9 && value < ShiftLeft(1, 7 * k) && Vint(input, 0) == Resume(value, 7 * k, Vint(rest, k))
  }

  lemma VintStart(input: seq<byte>)
    ensures VintState(input, 0, input, 0)
  {
  }

  lemma VintFails(input: seq<byte>, value: nat, rest: seq<byte>, k: nat)
    requires VintState(input, value, rest, k)
    ensures rest == [] ==> Vint(input, 0) == Taken(Err(Truncated), [])
    ensures rest != [] && k == 9 && rest[0] > 1 ==> Vint(input, 0) == Taken(Err(Overflow), rest[1..])
  {
  }

  lemma VintEnds(input: seq<byte>, value: nat, rest: seq<byte>, k: nat)
    requires VintState(input, value, rest, k) && rest != [] && rest[0] < 128 && (k == 9 ==> rest[0] <= 1)
    ensures var v := BitOr(value, ShiftLeft(rest[0] % 128, 7 * k));
            Vint(input, 0) == Taken(Ok(v), rest[1..]) && v < U64_BOUND
  {
    var b := rest[0];
    assert b % 128 == b;
    assert Vint(rest, k) == Taken(Ok(b), rest[1..]);
    GroupRead(value, b, 7 * k);
    SumFits(value, b, k);
  }

  lemma VintContinues(input: seq<byte>, value: nat, rest: seq<byte>, k: nat)
    requires VintState(input, value, rest, k) && rest != [] && rest[0] >= 128 && k < 9
    ensures VintState(input, BitOr(value, ShiftLeft(rest[0] % 128, 7 * k)), rest[1..], k + 1)
  {
    assert rest[0] % 128 == rest[0] - 128;
    GroupRead(value, rest[0] - 128, 7 * k);
    ResumeStep(value, 7 * k, rest, k);
    hide ShiftLeft, BitOr, Vint, Resume;
    assert 7 * (k + 1) == 7 * k + 7;
  }

  /** Takes one integer off the front of `input`. The loop's own "too long" exit is never reached. */
  method TakeVint(input: seq<byte>) returns (r: Result<nat, VintError>, rest: seq<byte>)
    ensures Taken(r, rest) == Vint(input, 0)
    ensures r != Err(TooLong)
    ensures r.Ok? ==> r.value < U64_BOUND
  {
    var value: nat, shift: nat := 0, 0;
    ghost var k: nat := 0;
    rest := input;
    VintStart(input);
    while true
      invariant k <= 9 && shift == 7 * k
      invariant VintState(input, value, rest, k)
      decreases 9 - k
    {
      VintFails(input, value, rest, k);
      if rest == [] {
        return Err(Truncated), [];
      }
      var b := rest[0];
      if shift == 63 && b > 1 {
        return Err(Overflow), rest[1..];
      }
      var sum := BitOr(value, ShiftLeft(b % 128, shift));
      if b < 128 {
        VintEnds(input, value, rest, k);
        return Ok(sum), rest[1..];
      }
      VintContinues(input, value, rest, k);
      value, shift, k, rest := sum, shift + 7, k + 1, rest[1..];
    }
  }

  /** Takes one integer at a cursor, which moves behind it, or stays where it is on failure. */
  method TakeVintAt(input: seq<byte>, cursor: nat) returns (r: Result<nat, VintError>, next: nat)
    ensures cursor > |input| ==> r == Err(Truncated) && next == cursor
    ensures cursor <= |input| ==>
              var t := Vint(input[cursor..], 0);
              r == t.value && next == (if r.Ok? then |input| - |t.rest| else cursor)
    ensures r.Ok? ==> cursor < next <= |input|
  {
    if cursor > |input| {
      return Err(Truncated), cursor;
    }
    var remaining := input[cursor..];
    var rest;
    r, rest := TakeVint(remaining);
    VintShortens(remaining, 0);
    next := if r.Ok? then cursor + (|remaining| - |rest|) else cursor;
  }

  lemma {:induction false} VintShortens(input: seq<byte>, k: nat)
    requires k <= 9
    ensures Vint(input, k).value.Ok? ==> |Vint(input, k).rest| < |input|
    decreases 9 - k
  {
    if input != [] && k < 9 {
      VintShortens(input[1..], k + 1);
    }
  }

  lemma {:induction false} VintRoundTripFrom(value: nat, rest: seq<byte>, k: nat)
    requires k <= 9 && value < ShiftLeft(1, 64 - 7 * k)
    ensures Vint(VintBytes(value) + rest, k) == Taken(Ok(value), rest)
    decreases 9 - k
  {
    if value < 128 {
      assert (VintBytes(value) + rest)[1..] == rest;
      assert k == 9 ==> ShiftLeft(1, 1) == 2;
    } else {
      assert k < 9 by { assert ShiftLeft(1, 1) == 2; }
      var tail := VintBytes(value / 128);
      assert VintBytes(value) + rest == [128 + value % 128] + (tail + rest);
      ShiftLeftByte(1, 57 - 7 * k);
      VintRoundTripFrom(value / 128, rest, k + 1);
    }
  }

  /** Taking undoes putting for every `u64`, whatever follows, and consumes exactly what was put. */
  lemma VintRoundTrip(value: nat, rest: seq<byte>)
    requires value < U64_BOUND
    ensures Vint(VintBytes(value) + rest, 0) == Taken(Ok(value), rest)
  {
    ShiftLeftConstants(1);
    VintRoundTripFrom(value, rest, 0);
  }
}

/** Reading a 7z header: bytes, and numbers whose first byte says how many bytes follow. */
module HeaderReader {
  import opened Common
  import opened Bits

  /** The single bit that the reader's mask holds after `i` steps. */
  function Mask(i: nat): (m: nat)
    requires i < 8
    ensures m > 0
  {
    if i == 0 then 128 else if i == 1 then 64 else if i == 2 then 32 else if i == 3 then 16
    else if i == 4 then 8 else if i == 5 then 4 else if i == 6 then 2 else 1
  }

  predicate TopBit(first: byte, i: nat)
    requires i < 8
  {
    first / Mask(i) % 2 == 1
  }

  /** The one bits at the top of a byte, `n` of which have been passed. */
  function LeadingOnes(first: byte, n: nat): (ones: nat)
    requires n <= 8
    ensures n <= ones <= 8
    decreases 8 - n
  {
    if n == 8 || !TopBit(first, n) then n else LeadingOnes(first, n + 1)
  }

  /** Little-endian value of `n` bytes. */
  function LittleEndian(bytes: seq<byte>): nat {
    if bytes == [] then 0 else bytes[0] + 256 * LittleEndian(bytes[1..])
  }

  /** The number at the front of `input`, and how many bytes it takes. */
  function Number(input: seq<byte>): Option<(nat, nat)> {
    if input == [] then None
    else
      var n := LeadingOnes(input[0], 0);
      if |input| < n + 1 then None
      else
        var high := if n == 8 then 0 else input[0] % Mask(n);
        Some((LittleEndian(input[1..n + 1]) + ShiftLeft(high, 8 * n), n + 1))
  }

  lemma NumberSize(input: seq<byte>)
    ensures match Number(input) case None => true case Some((v, n)) => 0 < n <= |input|
  {
  }

  /** The number at position `at`, and the position behind it. */
  function NumberAt(bytes: seq<byte>, at: nat): (r: Option<(nat, nat)>)
    ensures r.Some? ==> at < r.value.1 <= |bytes|
  {
    if at > |bytes| then None
    else
      NumberSize(bytes[at..]);
      match Number(bytes[at..])
      case Some((v, n)) => Some((v, at + n))
      case None => None
  }

  /** The little-endian number of four bytes at position `at`, and the position behind it. */
  function U32At(bytes: seq<byte>, at: nat): (r: Option<(nat, nat)>)
    ensures r.Some? ==> at < r.value.1 <= |bytes|
  {
    if at + 4 <= |bytes| then Some((LittleEndian(bytes[at..at + 4]), at + 4)) else None
  }

  /** `n` numbers in a row from position `at`, and the position behind them. */
  function NumbersAt(bytes: seq<byte>, at: nat, n: nat): (r: Option<(seq<nat>, nat)>)
    requires at <= |bytes|
    ensures r.Some? ==> |r.value.0| == n && at <= r.value.1 <= |bytes|
  {
    if n == 0 then Some(([], at))
    else
      match NumbersAt(bytes, at, n - 1)
      case None => None
      case Some((values, next)) =>
        match NumberAt(bytes, next)
        case None => None
        case Some((value, end)) => Some((values + [value], end))
  }

  lemma {:induction false} NumbersFail(bytes: seq<byte>, at: nat, k: nat, n: nat)
    requires at <= |bytes| && k <= n && NumbersAt(bytes, at, k).None?
    ensures NumbersAt(bytes, at, n).None?
    decreases n
  {
    hide NumberAt;
    if k < n {
      NumbersFail(bytes, at, k, n - 1);
    }
  }

  class Reader {
    const bytes: seq<byte>
    var position: nat

    constructor (bytes: seq<byte>)
      ensures this.bytes == bytes && position == 0
    {
      this.bytes := bytes;
      position := 0;
    }

    predicate Valid()
      reads this
    {
      position <= |bytes|
    }

    method ReadU8() returns (b: Option<byte>)
      requires Valid()
      modifies this
      ensures Valid()
      ensures if old(position) < |bytes| then b == Some(bytes[old(position)]) && position == old(position) + 1
              else b.None? && position == old(position)
    {
      if position >= |bytes| {
        return None;
      }
      b := Some(bytes[position]);
      position := position + 1;
    }

    /** Reads four bytes as a little-endian number. */
    method ReadU32() returns (value: Option<nat>)
      requires Valid()
      modifies this
      ensures Valid()
      ensures match U32At(bytes, old(position))
              case Some((v, end)) => value == Some(v) && position == end
              case None => value == None
    {
      if position + 4 > |bytes| {
        return None;
      }
      value := Some(LittleEndian(bytes[position..position + 4]));
      position := position + 4;
    }

    /** Reads one number: one byte, and one more for every leading one bit of the first. */
    method ReadVariableU64() returns (value: Option<nat>)
      requires Valid()
      modifies this
      ensures Valid() && position >= old(position)
      ensures match Number(bytes[old(position)..])
              case Some((v, n)) => value == Some(v) && position == old(position) + n
              case None => value == None
      ensures match NumberAt(bytes, old(position))
              case Some((v, end)) => value == Some(v) && position == end
              case None => value == None
      ensures value.Some? ==> value.value < U64_BOUND
    {
      hide TopBit;
      var start := position;
      ghost var input := bytes[start..];
      var first := ReadU8();
      if first.None? {
        return None;
      }
      var sum: nat := 0;
      for i := 0 to 8
        invariant Valid() && position == start + 1 + i
        invariant NumberState(input, first.value, sum, i)
      {
        if !TopBit(first.value, i) {
          NumberStops(input, sum, i);
          return Some(BitOr(sum, ShiftLeft(first.value % Mask(i), 8 * i)));
        }
        var b := ReadU8();
        NumberStep(input, sum, i);
        if b.None? {
          return None;
        }
        assert input[i + 1] == b.value;
        sum := BitOr(sum, ShiftLeft(b.value, 8 * i));
      }
      NumberEnds(input, sum);
      value := Some(sum);
    }
  }

  /** `i` one bits of the first byte have been passed, and as many bytes behind it added up. */
  ghost predicate NumberState(input: seq<byte>, first: byte, sum: nat, i: nat) {
    && i <= 8 && i < |input| && input[0] == first
    && LeadingOnes(first, 0) == LeadingOnes(first, i)
    && sum == LittleEndian(input[1..i + 1]) && sum < ShiftLeft(1, 8 * i)
  }

  lemma NumberStops(input: seq<byte>, sum: nat, i: nat)
    requires i < 8 && input != [] && NumberState(input, input[0], sum, i) && !TopBit(input[0], i)
    ensures var v := BitOr(sum, ShiftLeft(input[0] % Mask(i), 8 * i));
            Number(input) == Some((v, i + 1)) && v < U64_BOUND
  {
    hide TopBit, ShiftLeft, BitOr;
    var high := input[0] % Mask(i);
    BitOrDisjoint(sum, high, 8 * i);
    NumberFits(sum, high, i);
  }

  lemma NumberEnds(input: seq<byte>, sum: nat)
    requires input != [] && NumberState(input, input[0], sum, 8)
    ensures Number(input) == Some((sum, 9)) && sum < U64_BOUND
  {
    ShiftLeftConstants(0);
    ShiftLeftConstants(1);
  }

  lemma NumberStep(input: seq<byte>, sum: nat, i: nat)
    requires i < 8 && input != [] && NumberState(input, input[0], sum, i) && TopBit(input[0], i)
    ensures i + 1 < |input| ==>
              NumberState(input, input[0], BitOr(sum, ShiftLeft(input[i + 1], 8 * i)), i + 1)
    ensures i + 1 == |input| ==> Number(input).None?
  {
    hide LittleEndian, ShiftLeft, BitOr;
    assert LeadingOnes(input[0], i) == LeadingOnes(input[0], i + 1);
    if i + 1 < |input| {
      BitOrDisjoint(sum, input[i + 1], 8 * i);
      LittleEndianSnoc(input[1..i + 1], input[i + 1]);
      assert input[1..i + 2] == input[1..i + 1] + [input[i + 1]];
    }
  }

  lemma NumberFits(sum: nat, high: nat, i: nat)
    requires i < 8 && sum < ShiftLeft(1, 8 * i) && high < 256
    ensures sum + ShiftLeft(high, 8 * i) < U64_BOUND
  {
    ByteFits(sum, high, 8 * i);
    ShiftLeftConstants(1);
    OneMonotone(8 * i + 8, 64);
  }

  lemma ByteFits(sum: nat, b: nat, n: nat)
    requires sum < ShiftLeft(1, n) && b < 256
    ensures sum + ShiftLeft(b, n) < ShiftLeft(1, n + 8)
  {
    ShiftLeftConstants(1);
    ShiftLeftTwice(1, 8, n);
    ShiftLeftSum(b, 1, n);
    ShiftLeftMonotone(b + 1, 256, n);
  }

  lemma {:induction false} LittleEndianAppend(bytes: seq<byte>, b: byte)
    ensures LittleEndian(bytes + [b]) == LittleEndian(bytes) + ShiftLeft(b, 8 * |bytes|)
  {
    if bytes == [] {
      assert ([] + [b])[1..] == [];
    } else {
      LittleEndianAppend(bytes[1..], b);
      assert (bytes + [b])[1..] == bytes[1..] + [b];
      ShiftLeftByte(b, 8 * |bytes| - 8);
    }
  }

  lemma LittleEndianSnoc(bytes: seq<byte>, b: byte)
    requires LittleEndian(bytes) < ShiftLeft(1, 8 * |bytes|)
    ensures LittleEndian(bytes + [b]) == LittleEndian(bytes) + ShiftLeft(b, 8 * |bytes|) < ShiftLeft(1, 8 * |bytes| + 8)
  {
    LittleEndianAppend(bytes, b);
    ByteFits(LittleEndian(bytes), b, 8 * |bytes|);
  }

  // ---------------------------------------------------------------------
  // The encoder
  // ---------------------------------------------------------------------

  function Low(value: nat, n: nat): (bytes: seq<byte>)
    ensures |bytes| == n
  {
    if n == 0 then [] else [value % 256] + Low(value / 256, n - 1)
  }

  /** What is left of a value above its `n` lowest bytes. */
  function High(value: nat, n: nat): nat {
    if n == 0 then value else High(value / 256, n - 1)
  }

  /** A value can be written with `n` extra bytes when the rest of it fits beside the length bits. */
  predicate Fits(value: nat, n: nat) {
    n <= 8 && if n == 8 then High(value, 8) == 0 else High(value, n) < Mask(n)
  }

  /** The first byte of an encoding: `n` one bits at the top, then a zero bit, and the rest of the value below. */
  function FirstByte(n: nat, high: nat): byte
    requires n <= 8 && if n == 8 then high == 0 else high < Mask(n)
  {
    if n == 8 then 255 else 256 - 2 * Mask(n) + high
  }

  /** The 7z form of a value with `n` extra bytes. */
  function Encode(value: nat, n: nat): (bytes: seq<byte>)
    requires Fits(value, n)
  {
    [FirstByte(n, High(value, n))] + Low(value, n)
  }

  lemma SetBit(first: byte, i: nat)
    requires i < 8 && first >= 256 - Mask(i)
    ensures TopBit(first, i)
  {
  }

  lemma ClearBit(first: byte, i: nat, high: nat)
    requires i < 8 && high < Mask(i) && first == 256 - 2 * Mask(i) + high
    ensures !TopBit(first, i) && first % Mask(i) == high
  {
    match i
    case 0 => assert Mask(i) == 128;
    case 1 => assert Mask(i) == 64;
    case 2 => assert Mask(i) == 32;
    case 3 => assert Mask(i) == 16;
    case 4 => assert Mask(i) == 8;
    case 5 => assert Mask(i) == 4;
    case 6 => assert Mask(i) == 2;
    case _ => assert Mask(i) == 1;
  }

  lemma FirstByteBits(n: nat, high: nat, i: nat)
    requires i <= n <= 8 && i < 8 && if n == 8 then high == 0 else high < Mask(n)
    ensures TopBit(FirstByte(n, high), i) <==> i < n
    ensures i == n ==> FirstByte(n, high) % Mask(i) == high
  {
    if i < n {
      SetBit(FirstByte(n, high), i);
    } else {
      ClearBit(FirstByte(n, high), i, high);
    }
  }

  lemma {:induction false} LeadingOnesOf(n: nat, high: nat, i: nat)
    requires i <= n <= 8 && if n == 8 then high == 0 else high < Mask(n)
    ensures LeadingOnes(FirstByte(n, high), i) == n
    decreases n - i
  {
    if i < 8 {
      FirstByteBits(n, high, i);
      if i < n {
        LeadingOnesOf(n, high, i + 1);
      }
    }
  }

  lemma {:induction false} LowValue(value: nat, n: nat)
    ensures LittleEndian(Low(value, n)) + ShiftLeft(High(value, n), 8 * n) == value
  {
    if n > 0 {
      LowValue(value / 256, n - 1);
      ShiftLeftByte(High(value, n), 8 * n - 8);
    }
  }

  /** Reading undoes writing for every admissible length, and consumes exactly what was written. */
  lemma NumberRoundTrip(value: nat, n: nat, rest: seq<byte>)
    requires Fits(value, n)
    ensures Number(Encode(value, n) + rest) == Some((value, n + 1))
  {
    var input := Encode(value, n) + rest;
    LeadingOnesOf(n, High(value, n), 0);
    assert input[1..n + 1] == Low(value, n);
    LowValue(value, n);
    if n < 8 {
      FirstByteBits(n, High(value, n), n);
    } else {
      ShiftLeftConstants(0);
    }
  }

  /** Every `u64` has an admissible length. */
  lemma EveryValueFits(value: nat)
    requires value < U64_BOUND
    ensures Fits(value, 8)
  {
    var v1 := value / 256;
    var v2 := v1 / 256;
    var v3 := v2 / 256;
    var v4 := v3 / 256;
    assert High(value, 8) == High(v1, 7) == High(v2, 6) == High(v3, 5) == High(v4, 4);
    var v5 := v4 / 256;
    var v6 := v5 / 256;
    var v7 := v6 / 256;
    assert High(v4, 4) == High(v5, 3) == High(v6, 2) == High(v7, 1) == High(v7 / 256, 0);
  }
}
