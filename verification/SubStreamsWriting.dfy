/** Writing the section of a 7z header that says how blocks split into files, and reading it back. */
module SubStreamsWriting {
  import opened Bits
  import opened Common
  import opened HeaderReader
  import opened NumberWriting
  import opened SubStreams

  /**
   * A block as it is written: how many files it has, the sizes of all but the last, the size of the last, and the
   * checksums of the files where they are known. The block's own checksum stands elsewhere in the header.
   */
  datatype Split = Split(count: Num, sizes: seq<Num>, last: nat, crcs: seq<Option<nat>>, own: Option<nat>)

  ghost predicate WellSplit(s: Split) {
    && Fits(s.count.value, s.count.extra) && |s.crcs| == s.count.value
    && (if s.count.value == 0 then s.sizes == [] else |s.sizes| == s.count.value - 1)
    && (forall i | 0 <= i < |s.sizes| :: Fits(s.sizes[i].value, s.sizes[i].extra))
    && (forall i | 0 <= i < |s.crcs| && s.crcs[i].Some? :: s.crcs[i].value < 0x1_0000_0000)
    && PrefixSum(Values(s.sizes), |s.sizes|) + s.last < U64_BOUND
    && (Alone(s) ==> s.crcs == [s.own])
  }

  /** The only file of a block, whose checksum is the block's own. */
  predicate Alone(s: Split) { s.count.value == 1 && s.own.Some? }

  // ---------------------------------------------------------------------
  // The writer
  // ---------------------------------------------------------------------

  ghost predicate AllSplit(splits: seq<Split>) {
    forall b | 0 <= b < |splits| :: WellSplit(splits[b])
  }

  function CountsOf(splits: seq<Split>): (nums: seq<Num>)
    ensures |nums| == |splits|
  {
    seq(|splits|, b requires 0 <= b < |splits| => splits[b].count)
  }

  ghost function SizesBytes(splits: seq<Split>): seq<byte>
    requires AllSplit(splits)
  {
    if splits == [] then []
    else SizesBytes(splits[..|splits| - 1]) + NumbersBytes(splits[|splits| - 1].sizes)
  }

  /** The digests that are not a block's own, in order. */
  function Digests(splits: seq<Split>): seq<Option<nat>> {
    if splits == [] then []
    else
      var last := splits[|splits| - 1];
      Digests(splits[..|splits| - 1]) + if Alone(last) then [] else last.crcs
  }

  /** The first `n` flags as a number, the first in the highest bit. Flags that are not there are clear. */
  function Upper(flags: seq<bool>, n: nat): nat {
    if n == 0 then 0 else 2 * Upper(flags, n - 1) + Bit(flags, n - 1)
  }

  function Bit(flags: seq<bool>, i: nat): nat { if i < |flags| && flags[i] then 1 else 0 }

  lemma {:induction false} UpperBound(flags: seq<bool>, n: nat)
    ensures Upper(flags, n) < ShiftLeft(1, n)
  {
    if n > 0 {
      UpperBound(flags, n - 1);
    }
  }

  /** Eight flags in a byte. */
  function FlagByte(flags: seq<bool>): byte {
    UpperBound(flags, 8);
    ShiftLeftConstants(1);
    Upper(flags, 8)
  }

  function FlagBytes(flags: seq<bool>): (bytes: seq<byte>)
    ensures |bytes| == (|flags| + 7) / 8
  {
    if flags == [] then []
    else if |flags| <= 8 then [FlagByte(flags)]
    else [FlagByte(flags[..8])] + FlagBytes(flags[8..])
  }

  function Defined(digests: seq<Option<nat>>): (flags: seq<bool>)
    ensures |flags| == |digests|
  {
    seq(|digests|, i requires 0 <= i < |digests| => digests[i].Some?)
  }

  /** The digests that are known, four bytes each, the lowest first. */
  function DigestBytes(digests: seq<Option<nat>>): seq<byte> {
    if digests == [] then []
    else
      var last := digests[|digests| - 1];
      DigestBytes(digests[..|digests| - 1]) + if last.Some? then Low(last.value, 4) else []
  }

  /** The digests: 0x0a, which of them are known, those, and the end of the section. */
  function ChecksumsBytes(digests: seq<Option<nat>>): (bytes: seq<byte>)
    ensures bytes != []
  {
    [0x0a, 0x00] + FlagBytes(Defined(digests)) + DigestBytes(digests) + [0x00]
  }

  lemma CountsFit(splits: seq<Split>)
    requires AllSplit(splits)
    ensures AllFit(CountsOf(splits))
  {
    forall b | 0 <= b < |splits|
      ensures Fits(CountsOf(splits)[b].value, CountsOf(splits)[b].extra)
    {
      assert WellSplit(splits[b]);
    }
  }

  /** The counts behind 0x0d, and 0x09 in front of the sizes. */
  ghost function CountsBytes(splits: seq<Split>): (bytes: seq<byte>)
    requires AllSplit(splits)
    ensures bytes != [] && bytes[|bytes| - 1] == 0x09
  {
    CountsFit(splits);
    [0x0d] + NumbersBytes(CountsOf(splits)) + [0x09]
  }

  /** The section: the counts, the sizes and the digests. */
  ghost function Section(splits: seq<Split>): seq<byte>
    requires AllSplit(splits)
  {
    CountsBytes(splits) + SizesBytes(splits) + ChecksumsBytes(Digests(splits))
  }

  // ---------------------------------------------------------------------
  // What it stands for
  // ---------------------------------------------------------------------

  /** The size of a block's output is what its files come to. */
  ghost function OutputSize(s: Split): u64
    requires WellSplit(s)
  {
    PrefixSum(Values(s.sizes), |s.sizes|) + s.last
  }

  /** The blocks as they are known before the section is read, with any counts. */
  ghost predicate Before(blocks: seq<Block>, splits: seq<Split>)
    requires AllSplit(splits)
  {
    && |blocks| == |splits|
    && forall b | 0 <= b < |blocks| :: blocks[b].unpackSize == OutputSize(splits[b]) && blocks[b].crc == splits[b].own
  }

  /** The sizes of all files. */
  function AllSizes(splits: seq<Split>): seq<nat> {
    if splits == [] then []
    else
      var last := splits[|splits| - 1];
      AllSizes(splits[..|splits| - 1]) + if last.count.value == 0 then [] else Values(last.sizes) + [last.last]
  }

  function SlotFor(crc: Option<nat>): Slot {
    if crc.Some? then Slot(true, crc.value) else Slot(false, 0)
  }

  function SlotsFor(crcs: seq<Option<nat>>): (slots: seq<Slot>)
    ensures |slots| == |crcs|
  {
    seq(|crcs|, i requires 0 <= i < |crcs| => SlotFor(crcs[i]))
  }

  /** The checksums of all files. */
  function AllSlots(splits: seq<Split>): seq<Slot> {
    if splits == [] then [] else AllSlots(splits[..|splits| - 1]) + SlotsFor(splits[|splits| - 1].crcs)
  }

  // ---------------------------------------------------------------------
  // Reading it back
  // ---------------------------------------------------------------------

  /** The sizes of one block. */
  lemma BlockSizesRead(front: seq<byte>, s: Split, block: Block, rest: seq<byte>)
    requires WellSplit(s) && block.numSubStreams == s.count.value && block.unpackSize == OutputSize(s)
    ensures var written := NumbersBytes(s.sizes);
            BlockSizesAt(front + written + rest, |front|, true, block)
            == Some(Parsed(
                 if s.count.value == 0 then [] else Values(s.sizes) + [s.last], |front + written|))
  {
    hide NumbersAt, Fits;
    NumbersRead(front, s.sizes, rest);
    if s.count.value == 0 {
      assert front + [] + rest == front + rest && NumbersBytes(s.sizes) == [];
    }
  }

  /** The blocks with the counts that were written. */
  lemma CountedBlocks(blocks: seq<Block>, splits: seq<Split>)
    requires AllSplit(splits) && Before(blocks, splits)
    ensures var counted := WithCounts(blocks, Values(CountsOf(splits)));
            |blocks| == |counted| == |splits| && Counted(counted, splits)
  {
    hide WellSplit;
  }

  lemma OneSplit(blocks: seq<Block>, splits: seq<Split>, b: nat)
    requires AllSplit(splits) && Before(blocks, splits) && b < |splits|
    ensures WellSplit(splits[b]) && AllFit(splits[b].sizes) && blocks[b].unpackSize == OutputSize(splits[b])
  {
  }

  lemma {:induction false} SizesRead(front: seq<byte>, splits: seq<Split>, blocks: seq<Block>, k: nat, rest: seq<byte>)
    requires AllSplit(splits) && Before(blocks, splits) && k <= |splits|
    requires forall b | 0 <= b < |splits| :: blocks[b].numSubStreams == splits[b].count.value
    ensures var written := SizesBytes(splits[..k]);
            SizesAt(front + written + rest, |front|, true, blocks, k)
            == Some(Parsed(AllSizes(splits[..k]), |front + written|))
  {
    hide BlockSizesAt, NumbersBytes, WellSplit, AllFit, OutputSize;
    if k == 0 {
      assert front + [] + rest == front + rest;
    } else {
      var s := splits[k - 1];
      OneSplit(blocks, splits, k - 1);
      var before, last := SizesBytes(splits[..k - 1]), NumbersBytes(s.sizes);
      assert splits[..k][..k - 1] == splits[..k - 1];
      Grouped(front, before, last, rest);
      SizesRead(front, splits, blocks, k - 1, last + rest);
      BlockSizesRead(front + before, s, blocks[k - 1], rest);
    }
  }

  /** The bits above the highest so many are cut off by dividing. */
  lemma FlagByteBits(flags: seq<bool>, i: nat)
    requires i < 8
    ensures TopBit(FlagByte(flags), i) <==> i < |flags| && flags[i]
  {
    hide Upper, Bit;
    var b := Upper(flags, 8);
    Halves(b);
    UpperHalf(flags, 8);
    UpperHalf(flags, 7);
    UpperHalf(flags, 6);
    UpperHalf(flags, 5);
    UpperHalf(flags, 4);
    UpperHalf(flags, 3);
    UpperHalf(flags, 2);
    UpperHalf(flags, 1);
    BitIs(flags, i);
  }

  lemma UpperHalf(flags: seq<bool>, n: nat)
    requires n > 0
    ensures Upper(flags, n) / 2 == Upper(flags, n - 1) && Upper(flags, n) % 2 == Bit(flags, n - 1)
  {
  }

  lemma BitIs(flags: seq<bool>, i: nat)
    ensures Bit(flags, i) == 1 <==> i < |flags| && flags[i]
  {
  }

  lemma Halves(b: nat)
    ensures b / 4 == b / 2 / 2 && b / 8 == b / 4 / 2 && b / 16 == b / 8 / 2 && b / 32 == b / 16 / 2
    ensures b / 64 == b / 32 / 2 && b / 128 == b / 64 / 2
  {
  }

  /** The flags from eight times `j` on, at most eight. */
  function Eight(flags: seq<bool>, j: nat): (part: seq<bool>)
    requires 8 * j < |flags|
    ensures |part| == if 8 * j + 8 <= |flags| then 8 else |flags| - 8 * j
    ensures forall i | 0 <= i < |part| :: part[i] == flags[8 * j + i]
  {
    flags[8 * j..if 8 * j + 8 <= |flags| then 8 * j + 8 else |flags|]
  }

  lemma EightLater(flags: seq<bool>, j: nat)
    requires j > 0 && 8 * j < |flags|
    ensures Eight(flags, j) == Eight(flags[8..], j - 1)
  {
  }

  lemma {:induction false} FlagBytesAt(flags: seq<bool>, j: nat)
    requires j < |FlagBytes(flags)|
    ensures 8 * j < |flags| && FlagBytes(flags)[j] == FlagByte(Eight(flags, j))
  {
    hide FlagByte, Eight;
    if j == 0 {
      assert Eight(flags, 0) == if |flags| <= 8 then flags else flags[..8];
    } else {
      FlagBytesAt(flags[8..], j - 1);
      EightLater(flags, j);
    }
  }

  lemma BitOf(bytes: seq<byte>, at: nat, j: nat, k: nat)
    requires k < 8 && at + j < |bytes|
    ensures BitAt(bytes, at, 8 * j + k) <==> TopBit(bytes[at + j], k)
  {
    hide TopBit;
  }

  lemma FlagRead(front: seq<byte>, flags: seq<bool>, rest: seq<byte>, i: nat)
    requires i < |flags|
    ensures BitAt(front + FlagBytes(flags) + rest, |front|, i) <==> flags[i]
  {
    hide FlagByte, TopBit, BitAt, FlagBytes, Eight;
    var j, k := i / 8, i % 8;
    assert i == 8 * j + k && j < |FlagBytes(flags)|;
    var bytes := front + FlagBytes(flags) + rest;
    assert bytes[|front| + j] == FlagBytes(flags)[j];
    BitOf(bytes, |front|, j, k);
    FlagBytesAt(flags, j);
    FlagByteBits(Eight(flags, j), k);
  }

  /** The flags behind a byte that says that they follow. */
  lemma FlagsRead(front: seq<byte>, flags: seq<bool>, rest: seq<byte>)
    ensures var bytes := front + [0x00] + FlagBytes(flags) + rest;
            var read := FlagsAt(bytes, |front|, |flags|);
            && read.Some? && read.value.end == |front| + 1 + |FlagBytes(flags)|
            && forall i: nat :: i in read.value.value <==> i < |flags| && flags[i]
  {
    hide FlagBytes, BitAt;
    var bytes := front + [0x00] + FlagBytes(flags) + rest;
    assert |front + [0x00]| == |front| + 1 && bytes[|front|] == 0;
    forall i: nat | i < |flags|
      ensures BitAt(bytes, |front| + 1, i) <==> flags[i]
    {
      FlagRead(front + [0x00], flags, rest, i);
    }
  }

  lemma DigestRead(front: seq<byte>, value: nat, rest: seq<byte>)
    requires value < 0x1_0000_0000
    ensures U32At(front + Low(value, 4) + rest, |front|) == Some((value, |front| + 4))
  {
    var bytes := front + Low(value, 4) + rest;
    assert bytes[|front|..|front| + 4] == Low(value, 4);
    LowValue(value, 4);
    NoHigh(value);
    ShiftLeftConstants(0);
  }

  lemma NoHigh(value: nat)
    requires value < 0x1_0000_0000
    ensures High(value, 4) == 0
  {
    var v1 := value / 256;
    var v2 := v1 / 256;
    var v3 := v2 / 256;
    assert High(value, 4) == High(v1, 3) == High(v2, 2) == High(v3, 1) == High(v3 / 256, 0);
  }

  lemma {:induction false} DigestsRead(
    front: seq<byte>, digests: seq<Option<nat>>, defined: set<nat>, k: nat, rest: seq<byte>)
    requires k <= |digests|
    requires forall i | 0 <= i < |digests| && digests[i].Some? :: digests[i].value < 0x1_0000_0000
    requires forall i | 0 <= i < |digests| :: i in defined <==> digests[i].Some?
    ensures var written := DigestBytes(digests[..k]);
            DigestsAt(front + written + rest, |front|, defined, k)
            == Some(Parsed(SlotsFor(digests[..k]), |front + written|))
  {
    hide U32At, Low;
    if k == 0 {
      assert front + [] + rest == front + rest;
    } else {
      var last := digests[k - 1];
      assert digests[..k][..k - 1] == digests[..k - 1];
      var before, more := DigestBytes(digests[..k - 1]), if last.Some? then Low(last.value, 4) else [];
      Grouped(front, before, more, rest);
      DigestsRead(front, digests, defined, k - 1, more + rest);
      assert SlotsFor(digests[..k]) == SlotsFor(digests[..k - 1]) + [SlotFor(last)];
      if last.Some? {
        DigestRead(front + before, last.value, rest);
      }
    }
  }

  lemma {:induction false} DigestsBounded(splits: seq<Split>)
    requires AllSplit(splits)
    ensures forall i | 0 <= i < |Digests(splits)| && Digests(splits)[i].Some? ::
              Digests(splits)[i].value < 0x1_0000_0000
  {
    if splits != [] {
      var last := splits[|splits| - 1];
      assert WellSplit(last);
      hide WellSplit;
      DigestsBounded(splits[..|splits| - 1]);
    }
  }

  // ---------------------------------------------------------------------
  // Which digests are whose
  // ---------------------------------------------------------------------

  /** The blocks as the section leaves them. */
  ghost predicate Counted(blocks: seq<Block>, splits: seq<Split>)
    requires AllSplit(splits)
  {
    && Before(blocks, splits)
    && forall b | 0 <= b < |splits| :: blocks[b].numSubStreams == splits[b].count.value
  }

  lemma KeepsAlone(blocks: seq<Block>, splits: seq<Split>, b: nat)
    requires AllSplit(splits) && Counted(blocks, splits) && b < |splits|
    ensures KeepsCrc(blocks[b]) <==> Alone(splits[b])
    ensures Needed(blocks)[b] == if Alone(splits[b]) then 0 else |splits[b].crcs|
    ensures Alone(splits[b]) ==>
              blocks[b].crc.Some? && SlotsFor(splits[b].crcs) == [Slot(true, blocks[b].crc.value)]
  {
    assert WellSplit(splits[b]);
  }

  lemma {:induction false} DigestsGrow(splits: seq<Split>, k: nat)
    requires k <= |splits|
    ensures |Digests(splits[..k])| <= |Digests(splits)|
    ensures Digests(splits)[..|Digests(splits[..k])|] == Digests(splits[..k])
  {
    if k == |splits| {
      assert splits[..k] == splits;
    } else {
      DigestsGrow(splits[..|splits| - 1], k);
      assert splits[..|splits| - 1][..k] == splits[..k];
    }
  }

  lemma {:induction false} NeededIs(blocks: seq<Block>, splits: seq<Split>, k: nat)
    requires AllSplit(splits) && Counted(blocks, splits) && k <= |splits|
    ensures PrefixSum(Needed(blocks), k) == |Digests(splits[..k])|
  {
    hide WellSplit, Alone, Needed;
    if k > 0 {
      NeededIs(blocks, splits, k - 1);
      KeepsAlone(blocks, splits, k - 1);
      assert splits[..k][..k - 1] == splits[..k - 1];
    }
  }

  lemma {:induction false} SlotsAre(blocks: seq<Block>, splits: seq<Split>, k: nat)
    requires AllSplit(splits) && Counted(blocks, splits) && k <= |splits|
    ensures PrefixSum(Needed(blocks), k) <= |Digests(splits)|
    ensures Slots(blocks, SlotsFor(Digests(splits)), k) == AllSlots(splits[..k])
  {
    hide WellSplit, Alone, Needed, KeepsCrc, Counted, AllSplit, SlotsFor, Digests;
    NeededIs(blocks, splits, k);
    DigestsGrow(splits, k);
    if k > 0 {
      SlotsAre(blocks, splits, k - 1);
      NeededIs(blocks, splits, k - 1);
      KeepsAlone(blocks, splits, k - 1);
      SlotsPart(splits, k);
      assert splits[..k][..k - 1] == splits[..k - 1];
    }
  }

  /** The digests of one block among all. */
  lemma SlotsPart(splits: seq<Split>, k: nat)
    requires 0 < k <= |splits|
    ensures var from, to := |Digests(splits[..k - 1])|, |Digests(splits[..k])|;
            && from <= to <= |Digests(splits)|
            && (!Alone(splits[k - 1]) ==>
                  SlotsFor(Digests(splits))[from..to] == SlotsFor(splits[k - 1].crcs))
  {
    hide Alone, SlotsFor;
    DigestsGrow(splits, k);
    DigestsGrow(splits, k - 1);
    assert splits[..k][..k - 1] == splits[..k - 1];
    if !Alone(splits[k - 1]) {
      var digests, before, part := Digests(splits), Digests(splits[..k - 1]), splits[k - 1].crcs;
      assert digests[..|before + part|] == before + part;
      hide Digests;
      SlotsWithin(digests, before, part);
    }
  }

  lemma SlotsWithin(digests: seq<Option<nat>>, before: seq<Option<nat>>, part: seq<Option<nat>>)
    requires |before + part| <= |digests| && digests[..|before + part|] == before + part
    ensures SlotsFor(digests)[|before|..|before + part|] == SlotsFor(part)
  {
    forall i | 0 <= i < |part|
      ensures digests[|before| + i] == part[i]
    {
      assert digests[|before| + i] == digests[..|before + part|][|before| + i];
    }
  }

  // ---------------------------------------------------------------------
  // The whole section
  // ---------------------------------------------------------------------

  lemma CountsRead(splits: seq<Split>, limit: nat, rest: seq<byte>)
    requires AllSplit(splits) && PrefixSum(Values(CountsOf(splits)), |splits|) <= limit && rest != []
    ensures AllFit(CountsOf(splits))
    ensures var bytes := [0x0d] + NumbersBytes(CountsOf(splits)) + rest;
            CountsAt(bytes, 0, |splits|, limit)
            == Some(Parsed(Values(CountsOf(splits)), 1 + |NumbersBytes(CountsOf(splits))|))
  {
    CountsFit(splits);
    hide WellSplit, NumbersAt, NumbersBytes, Fits;
    NumbersRead([0x0d], CountsOf(splits), rest);
  }

  lemma ChecksFlags(front: seq<byte>, digests: seq<Option<nat>>, rest: seq<byte>)
    ensures var bytes := front + ChecksumsBytes(digests) + rest;
            var read := FlagsAt(bytes, |front| + 1, |digests|);
            && |front| < |bytes| && bytes[|front|] == 0x0a
            && read.Some? && read.value.end == |front| + 2 + |FlagBytes(Defined(digests))|
            && forall i: nat :: i in read.value.value <==> i < |digests| && digests[i].Some?
  {
    var flags, values := FlagBytes(Defined(digests)), DigestBytes(digests);
    FlagsRead(front + [0x0a], Defined(digests), values + [0x00] + rest);
    hide FlagBytes, DigestBytes, FlagsAt;
    assert front + ChecksumsBytes(digests) + rest == front + [0x0a] + [0x00] + flags + (values + [0x00] + rest);
  }

  lemma Regrouped(front: seq<byte>, a: seq<byte>, b: seq<byte>, c: seq<byte>, d: seq<byte>, rest: seq<byte>)
    ensures front + (a + b + c + d) + rest == (front + a + b) + c + (d + rest)
  {
  }

  lemma ChecksDigests(front: seq<byte>, digests: seq<Option<nat>>, defined: set<nat>, rest: seq<byte>)
    requires forall i | 0 <= i < |digests| && digests[i].Some? :: digests[i].value < 0x1_0000_0000
    requires forall i | 0 <= i < |digests| :: i in defined <==> digests[i].Some?
    ensures var bytes := front + ChecksumsBytes(digests) + rest;
            var at, end := |front| + 2 + |FlagBytes(Defined(digests))|, |front + ChecksumsBytes(digests)| - 1;
            && at <= |bytes| && DigestsAt(bytes, at, defined, |digests|) == Some(Parsed(SlotsFor(digests), end))
            && end < |bytes| && bytes[end] == 0x00
  {
    var flags, values := FlagBytes(Defined(digests)), DigestBytes(digests);
    DigestsRead(front + [0x0a, 0x00] + flags, digests, defined, |digests|, [0x00] + rest);
    hide FlagBytes, DigestBytes, DigestsAt;
    assert digests[..|digests|] == digests;
    Regrouped(front, [0x0a, 0x00], flags, values, [0x00], rest);
  }

  lemma ChecksumsFrom(bytes: seq<byte>, at: nat, blocks: seq<Block>, defined: Parsed<set<nat>>, read: Parsed<seq<Slot>>)
    requires at < |bytes| && bytes[at] == 0x0a && FlagsAt(bytes, at + 1, DigestCount(blocks)) == Some(defined)
    requires DigestsAt(bytes, defined.end, defined.value, DigestCount(blocks)) == Some(read)
    requires read.end < |bytes| && bytes[read.end] == 0x00
    ensures ChecksumsAt(bytes, at, blocks) == Some(Parsed(Slots(blocks, read.value, |blocks|), read.end + 1))
  {
    hide FlagsAt, DigestsAt, DigestCount, Slots;
  }

  /** The digests, behind their key and in front of the end of the section. */
  lemma DigestsInPlace(front: seq<byte>, blocks: seq<Block>, digests: seq<Option<nat>>, rest: seq<byte>)
    requires DigestCount(blocks) == |digests|
    requires forall i | 0 <= i < |digests| && digests[i].Some? :: digests[i].value < 0x1_0000_0000
    ensures ChecksumsAt(front + ChecksumsBytes(digests) + rest, |front|, blocks)
         == Some(Parsed(Slots(blocks, SlotsFor(digests), |blocks|), |front + ChecksumsBytes(digests)|))
  {
    hide *;
    ChecksFlags(front, digests, rest);
    var bytes, end := front + ChecksumsBytes(digests) + rest, |front + ChecksumsBytes(digests)| - 1;
    var defined := FlagsAt(bytes, |front| + 1, |digests|).value;
    ChecksDigests(front, digests, defined.value, rest);
    ChecksumsFrom(bytes, |front|, blocks, defined, Parsed(SlotsFor(digests), end));
  }

  lemma DigestsOfBlocks(blocks: seq<Block>, splits: seq<Split>)
    requires AllSplit(splits) && Counted(blocks, splits)
    ensures DigestCount(blocks) == |Digests(splits)|
    ensures Slots(blocks, SlotsFor(Digests(splits)), |blocks|) == AllSlots(splits)
  {
    hide WellSplit, AllSplit, Needed, Slots, Digests, SlotsFor, AllSlots;
    NeededIs(blocks, splits, |splits|);
    SlotsAre(blocks, splits, |splits|);
    assert splits[..|splits|] == splits;
  }

  // ---------------------------------------------------------------------
  // Its parts in their places
  // ---------------------------------------------------------------------

  /** A part of some bytes. */
  predicate Has(bytes: seq<byte>, at: nat, part: seq<byte>) {
    at + |part| <= |bytes| && bytes[at..at + |part|] == part
  }

  lemma Around(bytes: seq<byte>, at: nat, part: seq<byte>)
    requires Has(bytes, at, part)
    ensures bytes == bytes[..at] + part + bytes[at + |part|..]
    ensures |bytes[..at]| == at && |bytes[..at] + part| == at + |part|
  {
  }

  lemma HasThree(a: seq<byte>, b: seq<byte>, c: seq<byte>, rest: seq<byte>)
    ensures var bytes := a + b + c + rest;
            Has(bytes, 0, a) && Has(bytes, |a|, b) && Has(bytes, |a| + |b|, c)
  {
  }

  lemma CountsInPlace(bytes: seq<byte>, splits: seq<Split>, limit: nat)
    requires AllSplit(splits) && PrefixSum(Values(CountsOf(splits)), |splits|) <= limit
    requires Has(bytes, 0, CountsBytes(splits))
    ensures CountsAt(bytes, 0, |splits|, limit)
         == Some(Parsed(Values(CountsOf(splits)), |CountsBytes(splits)| - 1))
    ensures bytes[|CountsBytes(splits)| - 1] == 0x09
  {
    var front := CountsBytes(splits);
    CountsFit(splits);
    CountsRead(splits, limit, [0x09] + bytes[|front|..]);
    hide CountsAt, NumbersBytes;
    FourParts([0x0d], NumbersBytes(CountsOf(splits)), [0x09], bytes[|front|..]);
    assert bytes == front + bytes[|front|..];
  }

  lemma FourParts(a: seq<byte>, b: seq<byte>, c: seq<byte>, rest: seq<byte>)
    ensures a + b + c + rest == a + b + (c + rest)
  {
  }

  lemma CountedAre(splits: seq<Split>, blocks: seq<Block>)
    requires AllSplit(splits) && Counted(blocks, splits)
    ensures Before(blocks, splits)
    ensures |blocks| == |splits| && forall b | 0 <= b < |splits| :: blocks[b].numSubStreams == splits[b].count.value
  {
  }

  lemma SizesInPlace(bytes: seq<byte>, at: nat, splits: seq<Split>, blocks: seq<Block>)
    requires AllSplit(splits) && Counted(blocks, splits) && Has(bytes, at, SizesBytes(splits))
    ensures SizesAt(bytes, at, true, blocks, |blocks|)
         == Some(Parsed(AllSizes(splits), at + |SizesBytes(splits)|))
  {
    hide *;
    var sizes := SizesBytes(splits);
    Around(bytes, at, sizes);
    assert splits[..|splits|] == splits;
    CountedAre(splits, blocks);
    SizesRead(bytes[..at], splits, blocks, |splits|, bytes[at + |sizes|..]);
  }

  lemma ChecksumsInPlace(bytes: seq<byte>, at: nat, splits: seq<Split>, blocks: seq<Block>)
    requires AllSplit(splits) && Counted(blocks, splits) && Has(bytes, at, ChecksumsBytes(Digests(splits)))
    ensures ChecksumsAt(bytes, at, blocks)
         == Some(Parsed(AllSlots(splits), at + |ChecksumsBytes(Digests(splits))|))
  {
    hide *;
    var checks := ChecksumsBytes(Digests(splits));
    DigestsOfBlocks(blocks, splits);
    DigestsBounded(splits);
    Around(bytes, at, checks);
    DigestsInPlace(bytes[..at], blocks, Digests(splits), bytes[at + |checks|..]);
  }

  lemma SectionParts(splits: seq<Split>, rest: seq<byte>)
    requires AllSplit(splits)
    ensures var bytes, counts, sizes := Section(splits) + rest, CountsBytes(splits), SizesBytes(splits);
            var checks := ChecksumsBytes(Digests(splits));
            && Has(bytes, 0, counts) && Has(bytes, |counts|, sizes) && Has(bytes, |counts| + |sizes|, checks)
            && |Section(splits)| == |counts| + |sizes| + |checks|
  {
    hide AllSplit, CountsBytes, SizesBytes, ChecksumsBytes, Digests, Has;
    HasThree(CountsBytes(splits), SizesBytes(splits), ChecksumsBytes(Digests(splits)), rest);
  }

  lemma LayoutFrom(
    bytes: seq<byte>, blocks: seq<Block>, limit: nat,
    counts: Parsed<seq<nat>>, sizes: Parsed<seq<nat>>, slots: Parsed<seq<Slot>>)
    requires CountsAt(bytes, 0, |blocks|, limit) == Some(counts) && bytes[counts.end] == 0x09
    requires SizesAt(bytes, counts.end + 1, true, WithCounts(blocks, counts.value), |blocks|) == Some(sizes)
    requires ChecksumsAt(bytes, sizes.end, WithCounts(blocks, counts.value)) == Some(slots)
    ensures LayoutAt(bytes, 0, blocks, limit)
         == Some(Layout(WithCounts(blocks, counts.value), sizes.value, slots.value, slots.end))
  {
    hide CountsAt, SizesAt, ChecksumsAt;
  }

  /**
   * A section that was written is read back, whatever follows it: every block with its number of files, every file
   * with its size, and with its checksum if that is known.
   */
  lemma SectionRead(blocks: seq<Block>, splits: seq<Split>, limit: nat, rest: seq<byte>)
    requires AllSplit(splits) && Before(blocks, splits) && PrefixSum(Values(CountsOf(splits)), |splits|) <= limit
    ensures var layout := LayoutAt(Section(splits) + rest, 0, blocks, limit);
            && layout.Some? && layout.value.end == |Section(splits)|
            && layout.value.sizes == AllSizes(splits) && layout.value.slots == AllSlots(splits)
            && layout.value.blocks == WithCounts(blocks, Values(CountsOf(splits)))
            && Counted(layout.value.blocks, splits)
  {
    hide *;
    SectionParts(splits, rest);
    CountedBlocks(blocks, splits);
    var bytes, counts, sizes := Section(splits) + rest, CountsBytes(splits), SizesBytes(splits);
    var counted := WithCounts(blocks, Values(CountsOf(splits)));
    CountsInPlace(bytes, splits, limit);
    SizesInPlace(bytes, |counts|, splits, counted);
    ChecksumsInPlace(bytes, |counts| + |sizes|, splits, counted);
    LayoutFrom(
      bytes, blocks, limit, Parsed(Values(CountsOf(splits)), |counts| - 1),
      Parsed(AllSizes(splits), |counts| + |sizes|), Parsed(AllSlots(splits), |Section(splits)|));
  }
}
