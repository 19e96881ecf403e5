/** The TAR format: headers of 512 bytes, each followed by its body in whole blocks. */
module TarFormat {
  import opened Bits
  import opened Common

  const BLOCK: nat := 512

  predicate IsOctal(b: byte) { 0x30 <= b <= 0x37 }

  /** The octal number behind leading spaces and NULs, unless it does not fit a `usize`. */
  function ParseOctal(bytes: seq<byte>): Option<nat> {
    if bytes == [] then Some(0)
    else if bytes[0] == 0 || bytes[0] == 0x20 then ParseOctal(bytes[1..])
    else OctalDigits(bytes, 0)
  }

  function OctalDigits(bytes: seq<byte>, value: nat): Option<nat> {
    if bytes == [] || !IsOctal(bytes[0]) then Some(value)
    else
      var next := value * 8 + (bytes[0] - 0x30) as nat;
      if next >= U64_BOUND then None else OctalDigits(bytes[1..], next)
  }

  function Sum(bytes: seq<byte>): nat {
    if bytes == [] then 0 else bytes[0] + Sum(bytes[1..])
  }

  /** The checksum counts its own eight bytes as spaces. */
  predicate ChecksumValid(header: seq<byte>)
    requires |header| == BLOCK
  {
    ParseOctal(header[148..156]) == Some(Sum(header[..148]) + 8 * 0x20 + Sum(header[156..]))
  }

  function NulTerminated(bytes: seq<byte>): seq<byte> {
    if bytes == [] || bytes[0] == 0 then [] else [bytes[0]] + NulTerminated(bytes[1..])
  }

  function TarName(header: seq<byte>): seq<byte>
    requires |header| == BLOCK
  {
    var name, prefix := NulTerminated(header[..100]), NulTerminated(header[345..500]);
    if prefix == [] then name else prefix + [0x2f] + name
  }

  function WithoutTrailingNuls(bytes: seq<byte>): seq<byte> {
    if bytes != [] && bytes[|bytes| - 1] == 0 then WithoutTrailingNuls(bytes[..|bytes| - 1]) else bytes
  }

  predicate AllZero(bytes: seq<byte>) {
    forall b | b in bytes :: b == 0
  }

  function Padded(size: nat): (padded: nat)
    ensures size <= padded < size + BLOCK && padded % BLOCK == 0
  {
    (size + (BLOCK - 1)) / BLOCK * BLOCK
  }

  /** What a file goes on with: the end of the archive, something damaged, or a header with the size of its body. */
  datatype TarBlock = EndOfTar | BadBlock | Header(name: seq<byte>, flag: byte, size: nat)

  function TarBlockOf(rest: seq<byte>): (b: TarBlock)
    ensures b.Header? ==> BLOCK + b.size <= |rest|
  {
    if |rest| < BLOCK then BadBlock
    else
      var header := rest[..BLOCK];
      if AllZero(header) then EndOfTar
      else if !ChecksumValid(header) then BadBlock
      else
        var size := ParseOctal(header[124..136]);
        if size.None? || BLOCK + size.value > |rest| then BadBlock
        else Header(TarName(header), header[156], size.value)
  }

  /** The flag of a header whose body is the name of the next member. */
  const LONG_NAME: byte := 0x4c

  /** Directories and extended headers have no content of their own. */
  predicate HasContent(flag: byte) {
    flag != 0x35 && flag != 0x78 && flag != 0x67
  }

  datatype Member = Member(name: seq<byte>, data: seq<byte>)

  function Body(rest: seq<byte>): seq<byte>
    requires TarBlockOf(rest).Header?
  {
    rest[BLOCK..BLOCK + TarBlockOf(rest).size]
  }

  /** The member that a header stands for, if it has content. */
  function MemberOf(block: TarBlock, longName: Option<seq<byte>>, body: seq<byte>): seq<Member>
    requires block.Header?
  {
    if block.flag == LONG_NAME || !HasContent(block.flag) then []
    else [Member(if longName.Some? then longName.value else block.name, body)]
  }

  /** The name that a header leaves for the next one. */
  function NameAfter(block: TarBlock, body: seq<byte>): Option<seq<byte>>
    requires block.Header?
  {
    if block.flag == LONG_NAME then Some(WithoutTrailingNuls(body)) else None
  }

  /** The members of a TAR file, up to its end or to something damaged. A long name is for the next header only. */
  function Members(rest: seq<byte>, longName: Option<seq<byte>>): seq<Member>
    decreases |rest|
  {
    var block := TarBlockOf(rest);
    if !block.Header? then []
    else
      var next := BLOCK + Padded(block.size);
      MemberOf(block, longName, Body(rest))
      + if next <= |rest| then Members(rest[next..], NameAfter(block, Body(rest))) else []
  }

  lemma MembersStep(rest: seq<byte>, longName: Option<seq<byte>>)
    ensures var block := TarBlockOf(rest);
            if !block.Header? then Members(rest, longName) == []
            else
              var next := BLOCK + Padded(block.size);
              Members(rest, longName) ==
              MemberOf(block, longName, Body(rest))
              + if next <= |rest| then Members(rest[next..], NameAfter(block, Body(rest))) else []
  {
    hide TarBlockOf, MemberOf, NameAfter;
  }

  lemma NoMembers(rest: seq<byte>, longName: Option<seq<byte>>)
    requires rest == []
    ensures Members(rest, longName) == []
  {
  }

  // ---------------------------------------------------------------------
  // Writing TAR files
  // ---------------------------------------------------------------------

  /** The `n` lowest octal digits of a number, highest first. */
  function Octal(value: nat, n: nat): (digits: seq<byte>)
    ensures |digits| == n && forall d | d in digits :: IsOctal(d)
  {
    if n == 0 then [] else Octal(value / 8, n - 1) + [0x30 + value % 8]
  }

  lemma ThreeBits(x: nat, n: nat)
    ensures ShiftLeft(x, n + 3) == 8 * ShiftLeft(x, n)
  {
    assert ShiftLeft(x, n + 1) == 2 * ShiftLeft(x, n);
    assert ShiftLeft(x, n + 2) == 4 * ShiftLeft(x, n);
  }

  /** What octal digits stand for, by the last digit. */
  function OctalValue(digits: seq<byte>): nat
    requires forall d | d in digits :: IsOctal(d)
  {
    if digits == [] then 0
    else
      var last := digits[|digits| - 1];
      assert last in digits && IsOctal(last);
      8 * OctalValue(digits[..|digits| - 1]) + (last - 0x30)
  }

  lemma {:induction false} OctalOf(value: nat, n: nat)
    requires value < ShiftLeft(1, 3 * n)
    ensures OctalValue(Octal(value, n)) == value
  {
    if n > 0 {
      ThreeBits(1, 3 * (n - 1));
      OctalOf(value / 8, n - 1);
      assert Octal(value, n)[..n - 1] == Octal(value / 8, n - 1);
    }
  }

  lemma {:induction false} OctalGrows(digits: seq<byte>, more: byte)
    requires IsOctal(more) && forall d | d in digits :: IsOctal(d)
    ensures OctalValue(digits + [more]) == 8 * OctalValue(digits) + (more - 0x30)
  {
    assert (digits + [more])[..|digits|] == digits;
  }

  lemma {:induction false} OctalPrefix(digits: seq<byte>, k: nat)
    requires k <= |digits| && forall d | d in digits :: IsOctal(d)
    ensures OctalValue(digits[..k]) <= OctalValue(digits)
  {
    if k < |digits| {
      assert digits[|digits| - 1] in digits;
      assert digits[..|digits| - 1][..k] == digits[..k];
      OctalPrefix(digits[..|digits| - 1], k);
    } else {
      assert digits[..k] == digits;
    }
  }

  /** Reading octal digits, of which the first `k` have been read, in front of something that is no octal digit. */
  lemma {:induction false} DigitsRead(digits: seq<byte>, k: nat, rest: seq<byte>)
    requires k <= |digits| && (forall d | d in digits :: IsOctal(d)) && (rest == [] || !IsOctal(rest[0]))
    requires OctalValue(digits[..k]) < U64_BOUND
    ensures OctalDigits(digits[k..] + rest, OctalValue(digits[..k])) ==
            if OctalValue(digits) < U64_BOUND then Some(OctalValue(digits)) else None
    decreases |digits| - k
  {
    hide OctalValue;
    if k == |digits| {
      assert digits[..k] == digits && digits[k..] + rest == rest;
    } else {
      var bytes := digits[k..] + rest;
      assert bytes[0] == digits[k] && digits[k] in digits && bytes[1..] == digits[k + 1..] + rest;
      assert digits[..k + 1] == digits[..k] + [digits[k]];
      OctalGrows(digits[..k], digits[k]);
      OctalPrefix(digits, k + 1);
      if OctalValue(digits[..k + 1]) < U64_BOUND {
        DigitsRead(digits, k + 1, rest);
      }
    }
  }

  /**
   * A number field: spaces and NULs, octal digits, and anything that starts with neither. It is read as what the
   * digits stand for, exactly when that is a `usize`.
   */
  lemma {:induction false} OctalRead(blanks: seq<byte>, digits: seq<byte>, rest: seq<byte>)
    requires (forall b | b in blanks :: b in {0, 0x20}) && (forall d | d in digits :: 0x30 <= d <= 0x37)
    requires rest == [] || ((digits == [] ==> rest[0] !in {0, 0x20}) && !(0x30 <= rest[0] <= 0x37))
    ensures ParseOctal(blanks + digits + rest) ==
            if OctalValue(digits) < U64_BOUND then Some(OctalValue(digits)) else None
  {
    hide OctalDigits;
    var field := blanks + digits + rest;
    if blanks == [] {
      assert field == digits[0..] + rest && digits[..0] == [];
      assert digits != [] ==> digits[0] in digits;
      DigitsRead(digits, 0, rest);
      assert field == [] ==> digits == [];
    } else {
      assert field[0] == blanks[0] && blanks[0] in blanks && field[1..] == blanks[1..] + digits + rest;
      assert forall b | b in blanks[1..] :: b in blanks;
      OctalRead(blanks[1..], digits, rest);
    }
  }

  /** A field of octal digits that ends with something else is read back. */
  lemma FieldRead(value: nat, n: nat, rest: seq<byte>)
    requires n > 0 && value < ShiftLeft(1, 3 * n) && value < U64_BOUND
    requires rest != [] && !IsOctal(rest[0])
    ensures ParseOctal(Octal(value, n) + rest) == Some(value)
  {
    hide ParseOctal, OctalDigits, OctalValue, Octal;
    OctalOf(value, n);
    OctalRead([], Octal(value, n), rest);
    assert [] + Octal(value, n) + rest == Octal(value, n) + rest;
  }

  /** What all bytes add up to, from the last to the first. */
  function Total(bytes: seq<byte>): nat {
    if bytes == [] then 0 else Total(bytes[..|bytes| - 1]) + bytes[|bytes| - 1]
  }

  lemma {:induction false} TotalAppend(a: seq<byte>, b: seq<byte>)
    ensures Total(a + b) == Total(a) + Total(b)
  {
    if b == [] {
      assert a + b == a;
    } else {
      assert (a + b)[..|a + b| - 1] == a + b[..|b| - 1];
      TotalAppend(a, b[..|b| - 1]);
    }
  }

  lemma {:induction false} SumIsTotal(bytes: seq<byte>)
    ensures Sum(bytes) == Total(bytes)
  {
    if bytes != [] {
      SumIsTotal(bytes[1..]);
      TotalAppend([bytes[0]], bytes[1..]);
      assert bytes == [bytes[0]] + bytes[1..] && Total([bytes[0]]) == Total([]) + bytes[0];
    }
  }

  lemma {:induction false} TotalSpaces(n: nat)
    ensures Total(Repeat(0x20, n)) == 0x20 * n
  {
    if n > 0 {
      assert Repeat(0x20, n)[..n - 1] == Repeat(0x20, n - 1);
      TotalSpaces(n - 1);
    }
  }

  /** The checksum of a header is what its bytes add up to, with spaces in the field of the checksum itself. */
  lemma ChecksumTotal(front: seq<byte>, back: seq<byte>)
    ensures Sum(front) + 8 * 0x20 + Sum(back) == Total(front + Repeat(0x20, 8) + back)
  {
    hide Sum, Total;
    SumIsTotal(front);
    SumIsTotal(back);
    TotalSpaces(8);
    TotalAppend(front + Repeat(0x20, 8), back);
    TotalAppend(front, Repeat(0x20, 8));
  }

  /** A name that fits a field of the given width. */
  predicate Fits(name: seq<byte>, width: nat) {
    |name| <= width && 0 !in name
  }

  const MAX_SIZE: nat := 0x2_0000_0000

  /** The header up to its checksum: the name, the size, and zeros for what is not read. */
  function Front(name: seq<byte>, size: nat): (bytes: seq<byte>)
    requires Fits(name, 100)
    ensures |bytes| == 148
  {
    name + Repeat(0, 100 - |name|) + Repeat(0, 24) + (Octal(size, 11) + [0]) + Repeat(0, 12)
  }

  /** The header behind its checksum: the flag, and the part of the name that comes first. */
  function Back(flag: byte, prefix: seq<byte>): (bytes: seq<byte>)
    requires Fits(prefix, 155)
    ensures |bytes| == 356
  {
    [flag] + Repeat(0, 188) + (prefix + Repeat(0, 155 - |prefix|)) + Repeat(0, 12)
  }

  function HeaderFor(prefix: seq<byte>, name: seq<byte>, flag: byte, size: nat): (header: seq<byte>)
    requires Fits(prefix, 155) && Fits(name, 100)
    ensures |header| == BLOCK
  {
    var front, back := Front(name, size), Back(flag, prefix);
    front + (Octal(Total(front + Repeat(0x20, 8) + back), 6) + [0, 0x20]) + back
  }

  /** A header, its body, and zeros up to a whole block. */
  function WithBody(prefix: seq<byte>, name: seq<byte>, flag: byte, body: seq<byte>): seq<byte>
    requires Fits(prefix, 155) && Fits(name, 100)
  {
    HeaderFor(prefix, name, flag, |body|) + body + Repeat(0, Padded(|body|) - |body|)
  }

  /**
   * How a name is written: in its field, split at a slash into two fields, or in a body of its own, which may end with
   * NULs.
   */
  datatype NameForm = Short | Split(at: nat) | Long(nuls: nat)

  predicate FitsForm(name: seq<byte>, form: NameForm) {
    match form
    case Short => Fits(name, 100)
    case Split(at) => 0 < at < |name| && name[at] == 0x2f && Fits(name[..at], 155) && Fits(name[at + 1..], 100)
    case Long(nuls) => |name| + nuls < MAX_SIZE && 0 !in name
  }

  /**
   * What a TAR file holds: members, whatever their flag is but for four, and directories (`5`) and extended headers
   * (`x`, `g`), which are not members. The fourth flag (`L`) is for the names of what follows.
   */
  datatype Item = File(member: Member, form: NameForm, flag: byte) | Other(name: seq<byte>, flag: byte, body: seq<byte>)

  predicate FitsTar(item: Item) {
    match item
    case File(member, form, flag) =>
      FitsForm(member.name, form) && |member.data| < MAX_SIZE && flag !in {0x35, 0x78, 0x67, 0x4c}
    case Other(name, flag, body) => Fits(name, 100) && |body| < MAX_SIZE && flag in {0x35, 0x78, 0x67}
  }

  /** The name that the header of a long name has itself. */
  const LINK: seq<byte> := [0x2e, 0x2f, 0x2e, 0x2f, 0x40, 0x4c, 0x6f, 0x6e, 0x67, 0x4c, 0x69, 0x6e, 0x6b]

  function Shortened(name: seq<byte>): seq<byte> { if |name| <= 100 then name else name[..100] }

  /** An item as it is written. */
  function Written(item: Item): seq<byte>
    requires FitsTar(item)
  {
    match item
    case Other(name, flag, body) => WithBody([], name, flag, body)
    case File(member, form, flag) =>
      match form
      case Short => WithBody([], member.name, flag, member.data)
      case Split(at) => WithBody(member.name[..at], member.name[at + 1..], flag, member.data)
      case Long(nuls) =>
        WithBody([], LINK, 0x4c, member.name + Repeat(0, nuls))
        + WithBody([], Shortened(member.name), flag, member.data)
  }

  /** A TAR file, ended by two blocks of zeros. */
  function TarOf(items: seq<Item>): seq<byte>
    requires forall i | 0 <= i < |items| :: FitsTar(items[i])
  {
    if items == [] then Repeat(0, 2 * BLOCK) else Written(items[0]) + TarOf(items[1..])
  }

  function MembersOf(items: seq<Item>): seq<Member> {
    if items == [] then [] else (if items[0].File? then [items[0].member] else []) + MembersOf(items[1..])
  }

  lemma {:induction false} SumBound(bytes: seq<byte>)
    ensures Sum(bytes) <= 255 * |bytes|
  {
    if bytes != [] {
      SumBound(bytes[1..]);
    }
  }

  lemma ChecksumRead(prefix: seq<byte>, name: seq<byte>, flag: byte, size: nat)
    requires Fits(prefix, 155) && Fits(name, 100)
    ensures ChecksumValid(HeaderFor(prefix, name, flag, size))
  {
    hide Front, Back, Octal, Sum, Total;
    var front, back, header := Front(name, size), Back(flag, prefix), HeaderFor(prefix, name, flag, size);
    var sum := Sum(front) + 8 * 0x20 + Sum(back);
    ChecksumTotal(front, back);
    SumBound(front);
    SumBound(back);
    assert ShiftLeft(1, 18) == 0x4_0000 by {
      ShiftLeftConstants(1);
      assert ShiftLeft(1, 18) == 4 * ShiftLeft(1, 16);
    }
    FieldRead(sum, 6, [0, 0x20]);
    assert header[..148] == front && header[156..] == back && header[148..156] == Octal(sum, 6) + [0, 0x20];
  }

  lemma {:induction false} NameRead(name: seq<byte>, rest: seq<byte>)
    requires 0 !in name && (rest == [] || rest[0] == 0)
    ensures NulTerminated(name + rest) == name
  {
    if name == [] {
      assert name + rest == rest;
    } else {
      assert (name + rest)[1..] == name[1..] + rest;
      NameRead(name[1..], rest);
    }
  }

  function FullName(prefix: seq<byte>, name: seq<byte>): seq<byte> {
    if prefix == [] then name else prefix + [0x2f] + name
  }

  /** The fields of a header that has been written. */
  lemma HeaderFields(prefix: seq<byte>, name: seq<byte>, flag: byte, size: nat)
    requires Fits(prefix, 155) && Fits(name, 100) && size < MAX_SIZE
    ensures var header := HeaderFor(prefix, name, flag, size);
            && TarName(header) == FullName(prefix, name) && header[156] == flag && !AllZero(header)
            && ParseOctal(header[124..136]) == Some(size)
  {
    hide Octal, Sum, Total, NulTerminated;
    var header, front, back := HeaderFor(prefix, name, flag, size), Front(name, size), Back(flag, prefix);
    assert header[156..] == back && header[156] == back[0] && header[..148] == front;
    assert header[..100] == front[..100] == name + Repeat(0, 100 - |name|);
    NameRead(name, Repeat(0, 100 - |name|));
    assert header[345..500] == back[189..344] == prefix + Repeat(0, 155 - |prefix|);
    NameRead(prefix, Repeat(0, 155 - |prefix|));
    assert header[124..136] == front[124..136] == Octal(size, 11) + [0];
    assert ShiftLeft(1, 33) == MAX_SIZE by {
      ShiftLeftConstants(1);
    }
    FieldRead(size, 11, [0]);
    assert IsOctal(header[124]) && header[124] in header by {
      assert header[124] == (Octal(size, 11) + [0])[0] == Octal(size, 11)[0];
      assert Octal(size, 11)[0] in Octal(size, 11);
    }
  }

  /** A written header is read as one, in front of its body. */
  lemma BlockRead(prefix: seq<byte>, name: seq<byte>, flag: byte, size: nat, rest: seq<byte>)
    requires Fits(prefix, 155) && Fits(name, 100) && size < MAX_SIZE && size <= |rest|
    ensures TarBlockOf(HeaderFor(prefix, name, flag, size) + rest) == Header(FullName(prefix, name), flag, size)
  {
    hide ChecksumValid, AllZero, TarName, ParseOctal, HeaderFor;
    ChecksumRead(prefix, name, flag, size);
    HeaderFields(prefix, name, flag, size);
    assert (HeaderFor(prefix, name, flag, size) + rest)[..BLOCK] == HeaderFor(prefix, name, flag, size);
  }

  /**
   * A file goes on with a header if and only if there are 512 bytes that are not all zero, the checksum field holds
   * what they add up to with spaces in it, and the size field holds a size for which there are bytes.
   */
  lemma HeaderExactly(rest: seq<byte>)
    ensures TarBlockOf(rest).Header? <==>
            && |rest| >= 512 && (exists b :: b in rest[..512] && b != 0)
            && ParseOctal(rest[148..156]) == Some(Total(rest[..148] + Repeat(0x20, 8) + rest[156..512]))
            && ParseOctal(rest[124..136]).Some? && 512 + ParseOctal(rest[124..136]).value <= |rest|
    ensures TarBlockOf(rest) == EndOfTar <==> |rest| >= 512 && forall b :: b in rest[..512] ==> b == 0
  {
    hide ParseOctal, Total, Sum, TarName;
    if |rest| >= 512 {
      var header := rest[..512];
      ChecksumTotal(header[..148], header[156..]);
      assert header[..148] == rest[..148] && header[156..] == rest[156..512];
      assert header[148..156] == rest[148..156] && header[124..136] == rest[124..136];
    }
  }

  lemma EndRead()
    ensures TarBlockOf(Repeat(0, 2 * BLOCK)) == EndOfTar && Members(Repeat(0, 2 * BLOCK), None) == []
  {
    hide ChecksumValid;
    var rest := Repeat(0, 2 * BLOCK);
    assert AllZero(rest[..BLOCK]);
    assert TarBlockOf(rest) == EndOfTar;
  }

  /** A header with its body is read, and what follows it is read next. */
  lemma BodyRead(
    prefix: seq<byte>, name: seq<byte>, flag: byte, body: seq<byte>, longName: Option<seq<byte>>, later: seq<byte>)
    requires Fits(prefix, 155) && Fits(name, 100) && |body| < MAX_SIZE
    ensures var block := Header(FullName(prefix, name), flag, |body|);
            var after := NameAfter(block, body);
            Members(WithBody(prefix, name, flag, body) + later, longName) == MemberOf(block, longName, body)
              + Members(later, after)
  {
    hide TarBlockOf, HeaderFor, Members, Fits, FullName, MemberOf, NameAfter;
    var size := |body|;
    var pad := Repeat(0, Padded(size) - size);
    var rest := WithBody(prefix, name, flag, body) + later;
    assert rest == HeaderFor(prefix, name, flag, size) + (body + pad + later);
    BlockRead(prefix, name, flag, size, body + pad + later);
    MembersStep(rest, longName);
    assert Body(rest) == body;
    assert rest[BLOCK + Padded(size)..] == later;
  }

  lemma {:induction false} NulsDropped(name: seq<byte>, nuls: nat)
    requires 0 !in name
    ensures WithoutTrailingNuls(name + Repeat(0, nuls)) == name
  {
    var bytes := name + Repeat(0, nuls);
    if nuls == 0 {
      assert bytes == name && (name != [] ==> name[|name| - 1] in name);
    } else {
      assert bytes[..|bytes| - 1] == name + Repeat(0, nuls - 1);
      NulsDropped(name, nuls - 1);
    }
  }

  /** A written item is read, whichever way its name is written, and what follows it is read next. */
  lemma MemberRead(item: Item, later: seq<byte>)
    requires FitsTar(item)
    ensures Members(Written(item) + later, None) == (if item.File? then [item.member] else []) + Members(later, None)
  {
    hide WithBody, Members;
    match item
    case Other(name, flag, body) => BodyRead([], name, flag, body, None, later);
    case File(member, form, flag) =>
      match form
      case Short => BodyRead([], member.name, flag, member.data, None, later);
      case Split(at) =>
        BodyRead(member.name[..at], member.name[at + 1..], flag, member.data, None, later);
        assert member.name == member.name[..at] + [0x2f] + member.name[at + 1..];
      case Long(nuls) =>
        var second, long := WithBody([], Shortened(member.name), flag, member.data), member.name + Repeat(0, nuls);
        BodyRead([], LINK, 0x4c, long, None, second + later);
        NulsDropped(member.name, nuls);
        BodyRead([], Shortened(member.name), flag, member.data, Some(member.name), later);
        assert Written(item) + later == WithBody([], LINK, 0x4c, long) + (second + later);
  }

  /**
   * Every TAR file is walked from its first member to its last, with exact contents and full names, whether names are
   * short, split or long. Directories and extended headers are passed over.
   */
  lemma {:induction false} TarRoundTrip(items: seq<Item>)
    requires forall i | 0 <= i < |items| :: FitsTar(items[i])
    ensures Members(TarOf(items), None) == MembersOf(items)
  {
    if items == [] {
      EndRead();
    } else {
      hide Members, Written, FitsTar;
      MemberRead(items[0], TarOf(items[1..]));
      TarRoundTrip(items[1..]);
    }
  }
}
