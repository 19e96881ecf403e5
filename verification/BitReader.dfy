/** Reading a byte string bit by bit, plainly and through a 64-bit cache. */
module BitReaders {
  import opened Bits
  import opened Common
  import opened HuffmanTree

  // ---------------------------------------------------------------------
  // Bits of numbers
  // ---------------------------------------------------------------------

  /** The number whose binary digits are `bits`, the highest first. */
  function Word(bits: seq<bool>): nat {
    if bits == [] then 0 else 2 * Word(bits[..|bits| - 1]) + if bits[|bits| - 1] then 1 else 0
  }

  /** The `n` lowest binary digits of a number, the highest first. */
  function Digits(x: nat, n: nat): (bits: seq<bool>)
    ensures |bits| == n
  {
    if n == 0 then [] else Digits(x / 2, n - 1) + [x % 2 == 1]
  }

  function ClearBits(n: nat): (bits: seq<bool>)
    ensures |bits| == n
  {
    seq(n, _ => false)
  }

  lemma {:induction false} WordAppend(a: seq<bool>, b: seq<bool>)
    ensures Word(a + b) == ShiftLeft(Word(a), |b|) + Word(b)
  {
    if b == [] {
      assert a + b == a;
    } else {
      var n := |b| - 1;
      WordAppend(a, b[..n]);
      assert (a + b)[..|a + b| - 1] == a + b[..n];
    }
  }

  lemma {:induction false} WordBound(bits: seq<bool>)
    ensures Word(bits) < ShiftLeft(1, |bits|)
  {
    if bits != [] {
      WordBound(bits[..|bits| - 1]);
    }
  }

  lemma {:induction false} WordDigits(x: nat, n: nat)
    requires x < ShiftLeft(1, n)
    ensures Word(Digits(x, n)) == x
  {
    if n > 0 {
      WordDigits(x / 2, n - 1);
      assert Digits(x, n)[..n - 1] == Digits(x / 2, n - 1);
    }
  }

  lemma {:induction false} WordClear(n: nat)
    ensures Word(ClearBits(n)) == 0
  {
    if n > 0 {
      WordClear(n - 1);
      assert ClearBits(n)[..n - 1] == ClearBits(n - 1);
    }
  }

  /** The highest digit of a word decides whether it reaches half of the word's range. */
  lemma WordTop(bits: seq<bool>)
    requires bits != []
    ensures Word(bits) == (if bits[0] then ShiftLeft(1, |bits| - 1) else 0) + Word(bits[1..])
    ensures Word(bits[1..]) < ShiftLeft(1, |bits| - 1)
    ensures bits[0] <==> Word(bits) >= ShiftLeft(1, |bits| - 1)
  {
    var rest := bits[1..];
    assert bits == [bits[0]] + rest;
    WordAppend([bits[0]], rest);
    WordBound(rest);
    assert [bits[0]][..0] == [];
    assert Word([bits[0]]) == if bits[0] then 1 else 0;
    ShiftLeftZero(|rest|);
  }

  /** A word after its digits have moved `n` places up, with zeros below. */
  function Shifted(bits: seq<bool>, n: nat): (r: seq<bool>)
    requires n <= |bits|
    ensures |r| == |bits|
  {
    bits[n..] + ClearBits(n)
  }

  lemma ShiftedOnce(bits: seq<bool>)
    requires bits != []
    ensures 2 * Word(bits) == (if bits[0] then ShiftLeft(1, |bits|) else 0) + Word(Shifted(bits, 1))
    ensures Word(Shifted(bits, 1)) < ShiftLeft(1, |bits|)
  {
    WordTop(bits);
    var rest := bits[1..];
    assert ClearBits(1) == [false];
    assert Shifted(bits, 1) == rest + [false];
    assert (rest + [false])[..|rest|] == rest;
    WordBound(Shifted(bits, 1));
  }

  lemma ShiftedMore(bits: seq<bool>, n: nat)
    requires n < |bits|
    ensures Shifted(Shifted(bits, n), 1) == Shifted(bits, n + 1)
  {
  }

  lemma DoubleModulo(y: nat, m: nat)
    requires m > 0
    ensures var z := y % m;
            (2 * y) % m == if 2 * z >= m then 2 * z - m else 2 * z
  {
    var q, z := y / m, y % m;
    DoubleFactor(m, q);
    if 2 * z >= m {
      RemainderIs(2 * y, m, 2 * q + 1, 2 * z - m);
    } else {
      RemainderIs(2 * y, m, 2 * q, 2 * z);
    }
  }

  /** Shifting a byte up within eight bits. */
  lemma {:induction false} ByteShift(bits: seq<bool>, n: nat)
    requires |bits| == 8 && n <= 8
    ensures ShiftLeft(Word(bits), n) % 256 == Word(Shifted(bits, n))
  {
    hide Word, Shifted;
    ShiftLeftConstants(1);
    if n == 0 {
      WordBound(bits);
      ShiftedNot(bits);
    } else {
      ByteShift(bits, n - 1);
      ShiftedOnce(Shifted(bits, n - 1));
      ShiftedMore(bits, n - 1);
      DoubleModulo(ShiftLeft(Word(bits), n - 1), 256);
    }
  }

  /** Shifting a `u64` up. */
  lemma {:induction false} WordShift(bits: seq<bool>, n: nat)
    requires |bits| == 64 && n <= 64
    ensures ShiftLeft(Word(bits), n) % U64_BOUND == Word(Shifted(bits, n))
  {
    hide Word, Shifted;
    ShiftLeftConstants(1);
    if n == 0 {
      WordBound(bits);
      ShiftedNot(bits);
    } else {
      WordShift(bits, n - 1);
      ShiftedOnce(Shifted(bits, n - 1));
      ShiftedMore(bits, n - 1);
      DoubleModulo(ShiftLeft(Word(bits), n - 1), U64_BOUND);
    }
  }

  lemma ShiftedNot(bits: seq<bool>)
    ensures Shifted(bits, 0) == bits
  {
  }

  // ---------------------------------------------------------------------
  // Bits of a byte string
  // ---------------------------------------------------------------------

  /** Bit `i` of a byte string, counting from the highest bit of the first byte. */
  function Bit(bytes: seq<byte>, i: nat): bool
    requires i < 8 * |bytes|
  {
    Digits(bytes[i / 8], 8)[i % 8]
  }

  function Window(bytes: seq<byte>, from: nat, n: nat): (bits: seq<bool>)
    requires from + n <= 8 * |bytes|
    ensures |bits| == n
  {
    seq(n, i requires 0 <= i < n => Bit(bytes, from + i))
  }

  /** All bits from a position on. */
  function BitsFrom(bytes: seq<byte>, from: nat): seq<bool>
    requires from <= 8 * |bytes|
  {
    Window(bytes, from, 8 * |bytes| - from)
  }

  /** The number that bytes stand for, the highest first. */
  function BigEndian(bytes: seq<byte>): nat {
    if bytes == [] then 0 else 256 * BigEndian(bytes[..|bytes| - 1]) + bytes[|bytes| - 1]
  }

  lemma {:induction false} BigEndianWord(bytes: seq<byte>)
    ensures BigEndian(bytes) == Word(Window(bytes, 0, 8 * |bytes|))
  {
    if bytes == [] {
    } else {
      var n := |bytes| - 1;
      var front, last := bytes[..n], bytes[n];
      BigEndianWord(front);
      ShiftLeftConstants(1);
      WordDigits(last, 8);
      WordAppend(Window(front, 0, 8 * n), Digits(last, 8));
      ShiftLeftConstants(Word(Window(front, 0, 8 * n)));
      WindowSnoc(bytes);
    }
  }

  lemma WindowSnoc(bytes: seq<byte>)
    requires bytes != []
    ensures var n := |bytes| - 1;
            Window(bytes, 0, 8 * |bytes|) == Window(bytes[..n], 0, 8 * n) + Digits(bytes[n], 8)
  {
    hide Digits;
    var n := |bytes| - 1;
    var whole, parts := Window(bytes, 0, 8 * |bytes|), Window(bytes[..n], 0, 8 * n) + Digits(bytes[n], 8);
    forall i | 0 <= i < 8 * |bytes|
      ensures whole[i] == parts[i]
    {
      if i >= 8 * n {
        assert i / 8 == n && i % 8 == i - 8 * n;
      }
    }
  }

  lemma BitOfSlice(bytes: seq<byte>, at: nat, n: nat, k: nat)
    requires at + n <= |bytes| && k < 8 * n
    ensures Bit(bytes[at..at + n], k) == Bit(bytes, 8 * at + k)
  {
    hide Digits;
    assert (8 * at + k) / 8 == at + k / 8 && (8 * at + k) % 8 == k % 8;
    assert bytes[at..at + n][k / 8] == bytes[at + k / 8];
  }

  lemma WindowOfSlice(bytes: seq<byte>, at: nat, n: nat, from: nat, m: nat)
    requires at + n <= |bytes| && from + m <= 8 * n
    ensures Window(bytes[at..at + n], from, m) == Window(bytes, 8 * at + from, m)
  {
    hide Bit;
    var left, right := Window(bytes[at..at + n], from, m), Window(bytes, 8 * at + from, m);
    forall i | 0 <= i < m
      ensures left[i] == right[i]
    {
      BitOfSlice(bytes, at, n, from + i);
    }
  }

  // ---------------------------------------------------------------------
  // The plain reader
  // ---------------------------------------------------------------------

  class BitReader {
    const bytes: seq<byte>
    var position: nat

    constructor (bytes: seq<byte>)
      ensures this.bytes == bytes && position == 0
    {
      this.bytes, position := bytes, 0;
    }

    /** The next bit, until the bytes end. */
    method Next() returns (bit: Option<bool>)
      modifies this
      ensures if old(position) < 8 * |bytes| then
                bit == Some(Bit(bytes, old(position))) && position == old(position) + 1
              else bit.None? && position == old(position)
    {
      if position / 8 >= |bytes| {
        return None;
      }
      var b := bytes[position / 8];
      var shifted := ShiftLeft(b, position % 8) % 256;
      TopOfShifted(b, position % 8);
      position := position + 1;
      bit := Some(shifted >= 128);
    }

    /** Skips bits, at most to the end. */
    method AdvanceBy(n: nat) returns (moved: bool)
      modifies this
      ensures moved == (old(position) + n <= 8 * |bytes|)
      ensures position == if moved then old(position) + n else old(position)
    {
      if position + n > |bytes| * 8 {
        return false;
      }
      position := position + n;
      moved := true;
    }

    /** Reads a number of `n` bits, the highest first. Nothing is read when there are fewer. */
    method ReadBits(n: nat) returns (value: Option<nat>)
      modifies this
      ensures if old(position) + n <= 8 * |bytes| then
                value == Some(Word(Window(bytes, old(position), n))) && position == old(position) + n
              else value.None? && position == old(position)
    {
      if position + n > |bytes| * 8 {
        return None;
      }
      ghost var start := position;
      var sum: nat := 0;
      for i := 0 to n
        invariant position == start + i && sum == Word(Window(bytes, start, i))
      {
        var bit := Next();
        WindowNext(bytes, start, i);
        sum := 2 * sum + if bit.value then 1 else 0;
      }
      value := Some(sum);
    }
  }

  lemma WindowNext(bytes: seq<byte>, from: nat, n: nat)
    requires from + n < 8 * |bytes|
    ensures Word(Window(bytes, from, n + 1)) == 2 * Word(Window(bytes, from, n)) + if Bit(bytes, from + n) then 1 else 0
  {
    assert Window(bytes, from, n + 1)[..n] == Window(bytes, from, n);
  }

  lemma TopOfShifted(b: byte, i: nat)
    requires i < 8
    ensures ShiftLeft(b, i) % 256 >= 128 <==> Digits(b, 8)[i]
  {
    ShiftLeftConstants(1);
    WordDigits(b, 8);
    ByteShift(Digits(b, 8), i);
    WordTop(Shifted(Digits(b, 8), i));
    hide ShiftLeft, Word, Digits;
  }

  // ---------------------------------------------------------------------
  // The cached reader
  // ---------------------------------------------------------------------

  const CACHED_BITS: nat := 57

  /** A cache of 64 bits, read from the top. `word` holds its digits: those not read yet, and then zeros. */
  class CachedBitReader {
    var cache: u64
    var read: nat
    ghost var word: seq<bool>

    ghost predicate Valid()
      reads this
    {
      |word| == 64 && cache == Word(word)
    }

    constructor ()
      ensures Valid() && read == 0
    {
      cache, read, word := 0, 0, ClearBits(64);
      new;
      WordClear(64);
    }

    /** Loads the eight bytes around the reader's position, which must all exist. */
    method Refresh(reader: BitReader) returns (loaded: bool)
      requires Valid()
      modifies this
      ensures Valid()
      ensures loaded <==> reader.position / 8 + 8 <= |reader.bytes|
      ensures loaded ==> read == 0 && word == Loaded(reader.bytes, reader.position)
      ensures !loaded ==> read == old(read) && word == old(word)
    {
      var at := reader.position / 8;
      if at + 8 > |reader.bytes| {
        return false;
      }
      LoadedWord(reader.bytes, reader.position);
      hide Word, Loaded, ShiftLeft, BigEndian;
      cache := ShiftLeft(BigEndian(reader.bytes[at..at + 8]), reader.position % 8) % U64_BOUND;
      word := Loaded(reader.bytes, reader.position);
      read := 0;
      loaded := true;
    }

    /** The next cached bit. The cache never runs dry: it goes on with zeros. */
    method Next() returns (bit: bool)
      requires Valid()
      modifies this
      ensures Valid() && bit == old(word)[0] && word == Shifted(old(word), 1) && read == old(read) + 1
    {
      WordTop(word);
      ShiftedOnce(word);
      ShiftLeftConstants(1);
      assert 2 * ShiftLeft(1, 63) == U64_BOUND;
      hide ShiftLeft, Word, Shifted;
      bit := cache >= 0x8000_0000_0000_0000;
      RemainderIs(2 * cache, U64_BOUND, if bit then 1 else 0, Word(Shifted(word, 1)));
      cache := (2 * cache) % U64_BOUND;
      read := read + 1;
      word := Shifted(word, 1);
    }

    predicate Overflowed()
      reads this
    {
      read > CACHED_BITS
    }

    /** Moves the reader behind the bits that have been used. */
    method Restore(reader: BitReader, used: nat)
      modifies reader
      ensures reader.position == old(reader.position) + used
    {
      reader.position := reader.position + used;
    }
  }

  /** The digits that a refresh loads: the rest of eight bytes, then zeros. */
  ghost function Loaded(bytes: seq<byte>, position: nat): (bits: seq<bool>)
    requires position / 8 + 8 <= |bytes|
    ensures |bits| == 64
  {
    Window(bytes, position, 64 - position % 8) + ClearBits(position % 8)
  }

  lemma LoadedIs(bytes: seq<byte>, position: nat)
    requires position / 8 + 8 <= |bytes|
    ensures Shifted(Window(bytes, 8 * (position / 8), 64), position % 8) == Loaded(bytes, position)
  {
    hide Digits;
    assert 8 * (position / 8) + position % 8 == position;
    assert Window(bytes, 8 * (position / 8), 64)[position % 8..] == Window(bytes, position, 64 - position % 8);
  }

  /** What a refresh computes from the eight bytes is the word of these digits. */
  lemma LoadedWord(bytes: seq<byte>, position: nat)
    requires position / 8 + 8 <= |bytes|
    ensures var at := position / 8;
            ShiftLeft(BigEndian(bytes[at..at + 8]), position % 8) % U64_BOUND == Word(Loaded(bytes, position))
  {
    hide Digits, Window, Word, Shifted, ShiftLeft, BigEndian, Loaded;
    var at := position / 8;
    BigEndianWord(bytes[at..at + 8]);
    WindowOfSlice(bytes, at, 8, 0, 64);
    WordShift(Window(bytes, 8 * at, 64), position % 8);
    LoadedIs(bytes, position);
  }

  /** The first 57 bits behind a refresh are the bits that the plain reader would give from its position. */
  lemma FirstBitsPlain(bytes: seq<byte>, position: nat, n: nat)
    requires position / 8 + 8 <= |bytes| && n <= CACHED_BITS
    ensures position + n <= 8 * |bytes|
    ensures Loaded(bytes, position)[..n] == BitsFrom(bytes, position)[..n] == Window(bytes, position, n)
  {
    hide Digits;
  }

  // ---------------------------------------------------------------------
  // Decoding symbols through either reader
  // ---------------------------------------------------------------------

  function Depth(t: Tree): nat {
    match t
    case Leaf(_) => 0
    case Branch(one, zero) => 1 + if Depth(one) < Depth(zero) then Depth(zero) else Depth(one)
  }

  /** No tree is deeper than the 32 levels that building it can go through. */
  lemma {:induction false} BuiltDepth(codes: seq<Code>, level: nat)
    ensures Build(codes, level).Built? ==> Depth(Build(codes, level).tree) + level <= 32
    decreases 32 - level
  {
    if level < 32 {
      var k := SplitIndex(codes, level);
      if k == 0 || k == |codes| {
        BuiltDepth(codes, level + 1);
      } else {
        BuiltDepth(codes[..k], level + 1);
        BuiltDepth(codes[k..], level + 1);
      }
    }
  }

  lemma {:induction false} UsedWithinDepth(t: Tree, bits: seq<bool>)
    ensures DecodeTree(t, bits).used <= Depth(t)
  {
    if t.Branch? && bits != [] {
      UsedWithinDepth(if bits[0] then t.one else t.zero, bits[1..]);
    }
  }

  /** A symbol depends only on the bits that are used for it. */
  lemma {:induction false} DecodeDependsOnUsed(t: Tree, a: seq<bool>, b: seq<bool>)
    requires DecodeTree(t, a).value.Some? && a <= b
    ensures DecodeTree(t, b) == DecodeTree(t, a)
  {
    if t.Branch? {
      DecodeDependsOnUsed(if a[0] then t.one else t.zero, a[1..], b[1..]);
    }
  }

  lemma {:induction false} DecodeNeedsUsed(t: Tree, bits: seq<bool>)
    requires DecodeTree(t, bits).value.Some?
    ensures DecodeTree(t, bits).used <= |bits|
    ensures DecodeTree(t, bits[..DecodeTree(t, bits).used]) == DecodeTree(t, bits)
  {
    if t.Branch? {
      var next, used := if bits[0] then t.one else t.zero, DecodeTree(t, bits).used;
      DecodeNeedsUsed(next, bits[1..]);
      assert bits[..used][1..] == bits[1..][..used - 1];
    }
  }

  /** Decodes one symbol from the plain reader. */
  method DecodePlain(nodes: seq<Node>, ghost t: Tree, reader: BitReader) returns (value: Option<nat>)
    requires t.Branch? && Represents(nodes, 0, t) && reader.position <= 8 * |reader.bytes|
    modifies reader
    ensures var d := DecodeTree(t, BitsFrom(reader.bytes, old(reader.position)));
            value == d.value && reader.position == old(reader.position) + d.used
  {
    hide Digits, Size, Bit;
    var node := 0;
    ghost var here, bits := t, BitsFrom(reader.bytes, reader.position);
    ghost var used: nat := 0;
    while true
      invariant reader.position == old(reader.position) + used <= 8 * |reader.bytes|
      invariant here.Branch? && Represents(nodes, node, here)
      invariant var d := DecodeTree(here, bits[used..]);
                DecodeTree(t, bits) == d.(used := used + d.used)
      decreases here
    {
      var bit := reader.Next();
      if bit.None? {
        return None;
      }
      assert bits[used..][0] == bit.value && bits[used..][1..] == bits[used + 1..];
      used := used + 1;
      var state := if bit.value then nodes[node].one else nodes[node].zero;
      here := if bit.value then here.one else here.zero;
      match state
      case Next(n) => node := n;
      case Done(v) => return Some(v);
    }
  }

  /** The first `n` bits that a cache with these digits gives: zeros once the digits are used up. */
  ghost function Given(word: seq<bool>, n: nat): (bits: seq<bool>)
    ensures |bits| == n
  {
    seq(n, i => 0 <= i < |word| && word[i])
  }

  /** The digits after `n` bits have been taken. */
  ghost function Taken(word: seq<bool>, n: nat): (bits: seq<bool>)
    ensures |bits| == |word|
  {
    seq(|word|, i => 0 <= i + n < |word| && word[i + n])
  }

  lemma TakeOne(word: seq<bool>, n: nat)
    requires |word| == 64
    ensures Shifted(Taken(word, n), 1) == Taken(word, n + 1)
    ensures Given(word, n + 1) == Given(word, n) + [Taken(word, n)[0]]
  {
  }

  lemma TakeNone(word: seq<bool>)
    ensures Taken(word, 0) == word && Given(word, 0) == []
  {
  }

  lemma TakeTwice(word: seq<bool>, m: nat, n: nat)
    ensures Taken(Taken(word, m), n) == Taken(word, m + n)
  {
  }

  /** After `bits`, decoding goes on at `here`, whatever follows. */
  ghost predicate GoesOn(t: Tree, bits: seq<bool>, here: Tree, more: seq<bool>) {
    var d := DecodeTree(here, more);
    DecodeTree(t, bits + more) == d.(used := |bits| + d.used)
  }

  /** The path from the root of a tree to one of its subtrees. */
  ghost predicate Path(t: Tree, bits: seq<bool>, here: Tree) {
    forall more :: GoesOn(t, bits, here, more)
  }

  lemma PathStarts(t: Tree, nothing: seq<bool>)
    requires nothing == []
    ensures Path(t, nothing, t)
  {
    forall more
      ensures GoesOn(t, nothing, t, more)
    {
      assert nothing + more == more;
    }
  }

  lemma PathStep(t: Tree, bits: seq<bool>, here: Tree, bit: bool)
    requires Path(t, bits, here) && here.Branch?
    ensures Path(t, bits + [bit], if bit then here.one else here.zero)
  {
    hide GoesOn;
    var longer, next := bits + [bit], if bit then here.one else here.zero;
    forall more
      ensures GoesOn(t, longer, next, more)
    {
      assert GoesOn(t, bits, here, [bit] + more);
      GoesOneOn(t, bits, here, bit, more);
    }
  }

  lemma GoesOneOn(t: Tree, bits: seq<bool>, here: Tree, bit: bool, more: seq<bool>)
    requires here.Branch? && GoesOn(t, bits, here, [bit] + more)
    ensures GoesOn(t, bits + [bit], if bit then here.one else here.zero, more)
  {
    assert bits + [bit] + more == bits + ([bit] + more);
    var rest := [bit] + more;
    assert rest[0] == bit && rest[1..] == more;
  }

  lemma PathEnds(t: Tree, bits: seq<bool>, value: nat)
    requires Path(t, bits, Leaf(value))
    ensures DecodeTree(t, bits) == Decoded(Some(value), |bits|)
  {
    assert bits + [] == bits;
    assert GoesOn(t, bits, Leaf(value), []);
  }

  /** Decodes one symbol from the cache, which always gives a bit, so a symbol is always reached. */
  method DecodeCached(nodes: seq<Node>, ghost t: Tree, cached: CachedBitReader) returns (value: nat)
    requires t.Branch? && Represents(nodes, 0, t) && cached.Valid()
    modifies cached
    ensures cached.Valid() && cached.read >= old(cached.read)
    ensures var used := cached.read - old(cached.read);
            && DecodeTree(t, Given(old(cached.word), used)) == Decoded(Some(value), used)
            && cached.word == Taken(old(cached.word), used)
  {
    hide Path, Given, Taken, Shifted, Word;
    var node := 0;
    ghost var here := t;
    ghost var used: nat := 0;
    TakeNone(cached.word);
    PathStarts(t, Given(cached.word, 0));
    while true
      invariant cached.Valid() && cached.read == old(cached.read) + used
      invariant cached.word == Taken(old(cached.word), used)
      invariant here.Branch? && Represents(nodes, node, here) && Path(t, Given(old(cached.word), used), here)
      decreases here
    {
      TakeOne(old(cached.word), used);
      var bit := cached.Next();
      PathStep(t, Given(old(cached.word), used), here, bit);
      used := used + 1;
      var state := if bit then nodes[node].one else nodes[node].zero;
      here := if bit then here.one else here.zero;
      match state
      case Next(n) => node := n;
      case Done(v) =>
        PathEnds(t, Given(old(cached.word), used), v);
        return v;
    }
  }

  /** The cache stands where it was loaded, moved on by the bits that have been read from it. */
  ghost predicate Synced(reader: BitReader, cached: CachedBitReader)
    reads reader, cached
  {
    && cached.Valid() && reader.position / 8 + 8 <= |reader.bytes| && cached.read <= CACHED_BITS
    && cached.word == Taken(Loaded(reader.bytes, reader.position), cached.read)
  }

  /** The position of the bit that is decoded next. */
  function Standing(reader: BitReader, cached: CachedBitReader): nat
    reads reader, cached
  {
    reader.position + cached.read
  }

  /** A cache for the bits from the reader's position on, which takes eight bytes. */
  method NewCache(reader: BitReader) returns (cached: CachedBitReader, loaded: bool)
    ensures fresh(cached) && (loaded <==> reader.position / 8 + 8 <= |reader.bytes|)
    ensures loaded ==> Synced(reader, cached) && Standing(reader, cached) == reader.position
  {
    hide Taken, Loaded, Word;
    cached := new CachedBitReader();
    loaded := cached.Refresh(reader);
    if loaded {
      TakeNone(cached.word);
    }
  }

  /** As long as no more than 57 bits are read from a load, they are the plain reader's bits. */
  lemma GivenIsPlain(bytes: seq<byte>, position: nat, read: nat, used: nat)
    requires position / 8 + 8 <= |bytes| && read + used <= CACHED_BITS
    ensures position + read + used <= 8 * |bytes|
    ensures Given(Taken(Loaded(bytes, position), read), used) == BitsFrom(bytes, position + read)[..used]
  {
    hide Digits;
    FirstBitsPlain(bytes, position, read + used);
    var given, plain := Given(Taken(Loaded(bytes, position), read), used), BitsFrom(bytes, position + read)[..used];
    forall i | 0 <= i < used
      ensures given[i] == plain[i]
    {
      assert Loaded(bytes, position)[read + i] == Window(bytes, position, read + used)[read + i];
    }
  }

  /** What was decoded from the cache is what the plain reader decodes, when the bits used are its bits. */
  lemma CachedIsPlain(bytes: seq<byte>, position: nat, read: nat, t: Tree, used: nat, value: nat)
    requires position / 8 + 8 <= |bytes| && read + used <= CACHED_BITS
    requires DecodeTree(t, Given(Taken(Loaded(bytes, position), read), used)) == Decoded(Some(value), used)
    ensures position + read + used <= 8 * |bytes|
    ensures DecodeTree(t, BitsFrom(bytes, position + read)) == Decoded(Some(value), used)
  {
    hide Given, Taken, Loaded, Window;
    GivenIsPlain(bytes, position, read, used);
    DecodeDependsOnUsed(t, BitsFrom(bytes, position + read)[..used], BitsFrom(bytes, position + read));
  }

  /** A symbol that plain reading finds within the 57 bits does not make the cache run over. */
  lemma PlainIsCached(bytes: seq<byte>, position: nat, read: nat, t: Tree, used: nat, value: nat)
    requires position / 8 + 8 <= |bytes| && read <= CACHED_BITS < read + used
    requires DecodeTree(t, Given(Taken(Loaded(bytes, position), read), used)) == Decoded(Some(value), used)
    ensures position + read <= 8 * |bytes| && !WithinCache(bytes, position + read, read, t)
  {
    GivenIsPlain(bytes, position, read, 0);
    hide Taken, Loaded, Window, Digits, BitsFrom;
    var plain := BitsFrom(bytes, position + read);
    var d := DecodeTree(t, plain);
    if WithinCache(bytes, position + read, read, t) {
      DecodeNeedsUsed(t, plain);
      GivenIsPlain(bytes, position, read, d.used);
      var word := Taken(Loaded(bytes, position), read);
      assert Given(word, d.used) <= Given(word, used);
      DecodeDependsOnUsed(t, Given(word, d.used), Given(word, used));
    }
  }

  /** Plain reading finds a symbol at a position, and with the bits already read it takes no more than 57. */
  ghost predicate WithinCache(bytes: seq<byte>, start: nat, read: nat, t: Tree)
    requires start <= 8 * |bytes|
  {
    var d := DecodeTree(t, BitsFrom(bytes, start));
    d.value.Some? && read + d.used <= CACHED_BITS
  }

  /**
   * Reads one symbol through the cache. When the symbol runs past the bits that are surely right, the cache is loaded
   * again from where the symbol started, and the symbol is read again. The result is what plain reading gives.
   * Reading fails if and only if the symbol is not within the bits that are surely right, and fewer than eight bytes
   * are left where it starts, whether or not plain reading would find it in them.
   */
  method ReadSymbol(nodes: seq<Node>, ghost t: Tree, reader: BitReader, cached: CachedBitReader)
    returns (value: Option<nat>)
    requires t.Branch? && Represents(nodes, 0, t) && Depth(t) <= CACHED_BITS && Synced(reader, cached)
    modifies reader, cached
    ensures value.Some? ==>
              && Synced(reader, cached) && Standing(reader, cached) <= 8 * |reader.bytes|
              && var start := old(Standing(reader, cached));
              && start <= Standing(reader, cached)
              && DecodeTree(t, BitsFrom(reader.bytes, start)) == Decoded(value, Standing(reader, cached) - start)
    ensures old(Standing(reader, cached)) <= 8 * |reader.bytes|
    ensures value.None? <==>
              var start := old(Standing(reader, cached));
              start / 8 + 8 > |reader.bytes| && !WithinCache(reader.bytes, start, old(cached.read), t)
  {
    hide Given, Taken, Loaded, Window, Word, DecodeTree, Represents;
    ghost var position := reader.position;
    GivenIsPlain(reader.bytes, position, cached.read, 0);
    var read := cached.read;
    var symbol := DecodeCached(nodes, t, cached);
    ghost var used := cached.read - read;
    if cached.Overflowed() {
      PlainIsCached(reader.bytes, position, read, t, used, symbol);
      cached.Restore(reader, read);
      var loaded := cached.Refresh(reader);
      if !loaded {
        return None;
      }
      TakeNone(cached.word);
      GivenIsPlain(reader.bytes, reader.position, 0, 0);
      symbol := DecodeCached(nodes, t, cached);
      UsedWithinDepth(t, Given(Loaded(reader.bytes, reader.position), cached.read));
      CachedIsPlain(reader.bytes, reader.position, 0, t, cached.read, symbol);
    } else {
      TakeTwice(Loaded(reader.bytes, position), read, used);
      CachedIsPlain(reader.bytes, position, read, t, used, symbol);
    }
    value := Some(symbol);
  }

  /** At the end the reader is moved to where plain reading would have left it. */
  method Finish(reader: BitReader, cached: CachedBitReader)
    requires Synced(reader, cached)
    modifies reader
    ensures reader.position == old(Standing(reader, cached)) <= 8 * |reader.bytes|
  {
    GivenIsPlain(reader.bytes, reader.position, cached.read, 0);
    cached.Restore(reader, cached.read);
  }
}
