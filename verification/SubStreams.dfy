/** Sizes and checksums of the files that 7z blocks unpack to. */
module SubStreams {
  import opened Common
  import opened HeaderReader

  const K_END: byte := 0x00
  const K_SIZE: byte := 0x09
  const K_CRC: byte := 0x0A
  const K_NUM_UNPACK_STREAM: byte := 0x0D

  /** `unpackSize` is the size of the block's output, and `crc` its checksum when the header gives one. */
  datatype Block = Block(unpackSize: u64, crc: Option<nat>, numSubStreams: nat)

  /** Checksums are kept in a table with one slot a file, and a set that says which slots are defined. */
  datatype SubStreamsInfo = SubStreamsInfo(unpackSizes: seq<nat>, hasCrc: set<nat>, crcs: seq<nat>)

  datatype SubStreamsError = Truncated | TooManyStreams | SizeSumOverflow | SizesExceedBlock | BadTerminator

  function Subs(blocks: seq<Block>): (counts: seq<nat>)
    ensures |counts| == |blocks| && forall b | 0 <= b < |blocks| :: counts[b] == blocks[b].numSubStreams
  {
    seq(|blocks|, b requires 0 <= b < |blocks| => blocks[b].numSubStreams)
  }

  // ---------------------------------------------------------------------
  // Stream counts
  // ---------------------------------------------------------------------

  /** The blocks with the given stream counts. */
  function WithCounts(blocks: seq<Block>, counts: seq<nat>): (r: seq<Block>)
    requires |counts| == |blocks|
    ensures |r| == |blocks| && Subs(r) == counts
  {
    seq(|blocks|, b requires 0 <= b < |blocks| => blocks[b].(numSubStreams := counts[b]))
  }

  function Ones(n: nat): (s: seq<nat>)
    ensures |s| == n
  {
    seq(n, _ => 1)
  }

  /** A part of the header that has been read: its value, and where the next part starts. */
  datatype Parsed<T> = Parsed(value: T, end: nat)

  /** How many files each block unpacks to. The total is limited, and with it every count. */
  function CountsAt(bytes: seq<byte>, at: nat, blocks: nat, limit: nat): (r: Option<Parsed<seq<nat>>>)
    requires at <= |bytes|
    ensures r.Some? ==> |r.value.value| == blocks && at <= r.value.end < |bytes|
  {
    if at == |bytes| then None
    else if bytes[at] != K_NUM_UNPACK_STREAM then Some(Parsed(Ones(blocks), at))
    else
      match NumbersAt(bytes, at + 1, blocks)
      case None => None
      case Some((counts, next)) =>
        if PrefixSum(counts, blocks) > limit || next == |bytes| then None else Some(Parsed(counts, next))
  }

  // ---------------------------------------------------------------------
  // Sizes
  // ---------------------------------------------------------------------

  /**
   * The sizes of one block's files. All but the last stand in the header when sizes are `keyed`, and the last is what
   * the others leave of the block.
   */
  function BlockSizesAt(bytes: seq<byte>, at: nat, keyed: bool, block: Block): (r: Option<Parsed<seq<nat>>>)
    requires at <= |bytes|
    ensures r.Some? ==> at <= r.value.end <= |bytes|
    ensures r.Some? ==> |r.value.value| == if keyed || block.numSubStreams == 0 then block.numSubStreams else 1
  {
    if block.numSubStreams == 0 then Some(Parsed([], at))
    else
      match NumbersAt(bytes, at, if keyed then block.numSubStreams - 1 else 0)
      case None => None
      case Some((sizes, next)) =>
        var sum := PrefixSum(sizes, |sizes|);
        if sum > block.unpackSize then None else Some(Parsed(sizes + [block.unpackSize - sum], next))
  }

  /** The sizes of the files of the first `k` blocks. */
  function SizesAt(bytes: seq<byte>, at: nat, keyed: bool, blocks: seq<Block>, k: nat): (r: Option<Parsed<seq<nat>>>)
    requires at <= |bytes| && k <= |blocks|
    ensures r.Some? ==> at <= r.value.end <= |bytes|
  {
    if k == 0 then Some(Parsed([], at))
    else
      match SizesAt(bytes, at, keyed, blocks, k - 1)
      case None => None
      case Some(before) =>
        match BlockSizesAt(bytes, before.end, keyed, blocks[k - 1])
        case None => None
        case Some(sizes) => Some(Parsed(before.value + sizes.value, sizes.end))
  }

  lemma {:induction false} SizesFail(bytes: seq<byte>, at: nat, keyed: bool, blocks: seq<Block>, j: nat, k: nat)
    requires at <= |bytes| && j <= k <= |blocks| && SizesAt(bytes, at, keyed, blocks, j).None?
    ensures SizesAt(bytes, at, keyed, blocks, k).None?
    decreases k
  {
    if j < k {
      SizesFail(bytes, at, keyed, blocks, j, k - 1);
    }
  }

  /** The sizes never run past the table. */
  lemma {:induction false} SizesLength(bytes: seq<byte>, at: nat, keyed: bool, blocks: seq<Block>, k: nat)
    requires at <= |bytes| && k <= |blocks| && SizesAt(bytes, at, keyed, blocks, k).Some?
    ensures var n := |SizesAt(bytes, at, keyed, blocks, k).value.value|;
            n <= PrefixSum(Subs(blocks), k) && (keyed ==> n == PrefixSum(Subs(blocks), k))
    ensures !keyed ==> SizesAt(bytes, at, keyed, blocks, k).value.end == at
  {
    if k > 0 {
      SizesLength(bytes, at, keyed, blocks, k - 1);
    }
  }

  /** Without size keys the table is filled exactly if and only if no block has more than one file. */
  lemma {:induction false} DefaultSizesFill(bytes: seq<byte>, at: nat, blocks: seq<Block>, k: nat)
    requires at <= |bytes| && k <= |blocks| && SizesAt(bytes, at, false, blocks, k).Some?
    ensures |SizesAt(bytes, at, false, blocks, k).value.value| == PrefixSum(Subs(blocks), k)
       <==> forall b | 0 <= b < k :: blocks[b].numSubStreams <= 1
  {
    if k > 0 {
      DefaultSizesFill(bytes, at, blocks, k - 1);
      SizesLength(bytes, at, false, blocks, k - 1);
    }
  }

  lemma {:induction false} PrefixSumAppend(a: seq<nat>, b: seq<nat>, k: nat)
    requires k <= |a|
    ensures PrefixSum(a + b, k) == PrefixSum(a, k)
  {
    if k > 0 {
      PrefixSumAppend(a, b, k - 1);
    }
  }

  lemma BlockSizesSum(bytes: seq<byte>, at: nat, keyed: bool, block: Block)
    requires at <= |bytes| && block.numSubStreams > 0
    ensures var r := BlockSizesAt(bytes, at, keyed, block);
            r.Some? ==> PrefixSum(r.value.value, |r.value.value|) == block.unpackSize
  {
    var r := BlockSizesAt(bytes, at, keyed, block);
    if r.Some? {
      var all := r.value.value;
      var last := all[|all| - 1];
      assert all == all[..|all| - 1] + [last];
      PrefixSumAppend(all[..|all| - 1], [last], |all| - 1);
    }
  }

  /** Where block `b`'s files start in the table. */
  function StartOf(blocks: seq<Block>, b: nat): nat
    requires b <= |blocks|
  {
    PrefixSum(Subs(blocks), b)
  }

  /** The part of a table that belongs to block `b`. */
  function PartOf<T>(table: seq<T>, blocks: seq<Block>, b: nat): (part: seq<T>)
    requires b < |blocks| && StartOf(blocks, b + 1) <= |table|
    ensures |part| == blocks[b].numSubStreams
  {
    table[StartOf(blocks, b)..StartOf(blocks, b + 1)]
  }

  lemma PartOfPrefix<T>(before: seq<T>, more: seq<T>, blocks: seq<Block>, b: nat)
    requires b < |blocks| && StartOf(blocks, b + 1) <= |before|
    ensures PartOf(before + more, blocks, b) == PartOf(before, blocks, b)
  {
  }

  lemma PartOfLast<T>(before: seq<T>, more: seq<T>, blocks: seq<Block>, b: nat)
    requires b < |blocks| && |before| == StartOf(blocks, b) && |more| == blocks[b].numSubStreams
    ensures PartOf(before + more, blocks, b) == more
  {
  }

  /** With size keys the sizes of every block's files add up to exactly the size of the block's output. */
  lemma {:induction false} SizesSumExactly(bytes: seq<byte>, at: nat, blocks: seq<Block>, k: nat, b: nat)
    requires at <= |bytes| && b < k <= |blocks| && SizesAt(bytes, at, true, blocks, k).Some?
    ensures var sizes := SizesAt(bytes, at, true, blocks, k).value.value;
            && |sizes| == StartOf(blocks, k) && StartOf(blocks, b + 1) <= |sizes|
            && (blocks[b].numSubStreams > 0 ==>
                  PrefixSum(PartOf(sizes, blocks, b), blocks[b].numSubStreams) == blocks[b].unpackSize)
  {
    hide BlockSizesAt, PartOf;
    SizesLength(bytes, at, true, blocks, k);
    SizesLength(bytes, at, true, blocks, k - 1);
    PrefixSumMonotone(Subs(blocks), b + 1, k);
    var before := SizesAt(bytes, at, true, blocks, k - 1).value;
    var last := BlockSizesAt(bytes, before.end, true, blocks[k - 1]).value.value;
    if b < k - 1 {
      SizesSumExactly(bytes, at, blocks, k - 1, b);
      PartOfPrefix(before.value, last, blocks, b);
    } else {
      PartOfLast(before.value, last, blocks, b);
      if blocks[b].numSubStreams > 0 {
        BlockSizesSum(bytes, before.end, true, blocks[b]);
      }
    }
  }

  // ---------------------------------------------------------------------
  // Checksums
  // ---------------------------------------------------------------------

  /** Flag `i` behind position `at`: set when all are, or else a bit of its own, the highest bit of a byte first. */
  predicate Flag(bytes: seq<byte>, at: nat, i: nat) {
    && at < |bytes|
    && (bytes[at] != 0 || BitAt(bytes, at + 1, i))
  }

  function Flags(bytes: seq<byte>, at: nat, n: nat): set<nat> {
    set i: nat | i < n && Flag(bytes, at, i)
  }

  function FlagsAt(bytes: seq<byte>, at: nat, n: nat): (r: Option<Parsed<set<nat>>>)
    ensures r.Some? ==> at < r.value.end <= |bytes|
  {
    if at >= |bytes| then None
    else
      var end := if bytes[at] != 0 then at + 1 else at + 1 + (n + 7) / 8;
      if end > |bytes| then None else Some(Parsed(Flags(bytes, at, n), end))
  }

  /** A checksum, and whether the header defines it. Undefined checksums are zero. */
  datatype Slot = Slot(defined: bool, value: nat)

  function DigestsAt(bytes: seq<byte>, at: nat, defined: set<nat>, n: nat): (r: Option<Parsed<seq<Slot>>>)
    requires at <= |bytes|
    ensures r.Some? ==> |r.value.value| == n && at <= r.value.end <= |bytes|
  {
    if n == 0 then Some(Parsed([], at))
    else
      match DigestsAt(bytes, at, defined, n - 1)
      case None => None
      case Some(before) =>
        if n - 1 !in defined then Some(Parsed(before.value + [Slot(false, 0)], before.end))
        else
          match U32At(bytes, before.end)
          case None => None
          case Some((value, end)) => Some(Parsed(before.value + [Slot(true, value)], end))
  }

  lemma {:induction false} DigestsFail(bytes: seq<byte>, at: nat, defined: set<nat>, k: nat, n: nat)
    requires at <= |bytes| && k <= n && DigestsAt(bytes, at, defined, k).None?
    ensures DigestsAt(bytes, at, defined, n).None?
    decreases n
  {
    if k < n {
      DigestsFail(bytes, at, defined, k, n - 1);
    }
  }

  /** The checksum of a block's only file is the block's own. */
  predicate KeepsCrc(block: Block) {
    block.numSubStreams == 1 && block.crc.Some?
  }

  /** How many digests each block takes from the header. */
  function Needed(blocks: seq<Block>): (counts: seq<nat>)
    ensures |counts| == |blocks|
    ensures forall b | 0 <= b < |blocks| :: counts[b] == if KeepsCrc(blocks[b]) then 0 else blocks[b].numSubStreams
  {
    seq(|blocks|, b requires 0 <= b < |blocks| => if KeepsCrc(blocks[b]) then 0 else blocks[b].numSubStreams)
  }

  /** The checksums of the files of the first `k` blocks, given the digests in the header. */
  function Slots(blocks: seq<Block>, digests: seq<Slot>, k: nat): seq<Slot>
    requires k <= |blocks| && PrefixSum(Needed(blocks), k) <= |digests|
  {
    if k == 0 then []
    else
      Slots(blocks, digests, k - 1) +
      if KeepsCrc(blocks[k - 1]) then [Slot(true, blocks[k - 1].crc.value)]
      else digests[PrefixSum(Needed(blocks), k - 1)..PrefixSum(Needed(blocks), k)]
  }

  lemma {:induction false} SlotsLength(blocks: seq<Block>, digests: seq<Slot>, k: nat)
    requires k <= |blocks| && PrefixSum(Needed(blocks), k) <= |digests|
    ensures |Slots(blocks, digests, k)| == StartOf(blocks, k)
  {
    if k > 0 {
      SlotsLength(blocks, digests, k - 1);
    }
  }

  /** A block with one file and a checksum keeps it, and every other block takes the next digests in order. */
  lemma {:induction false} SlotsOfBlock(blocks: seq<Block>, digests: seq<Slot>, k: nat, b: nat)
    requires b < k <= |blocks| && PrefixSum(Needed(blocks), k) <= |digests|
    ensures |Slots(blocks, digests, k)| == StartOf(blocks, k)
    ensures StartOf(blocks, b + 1) <= StartOf(blocks, k)
    ensures PrefixSum(Needed(blocks), b) <= PrefixSum(Needed(blocks), b + 1) <= |digests|
    ensures PartOf(Slots(blocks, digests, k), blocks, b)
         == if KeepsCrc(blocks[b]) then [Slot(true, blocks[b].crc.value)]
            else digests[PrefixSum(Needed(blocks), b)..PrefixSum(Needed(blocks), b + 1)]
  {
    hide PartOf;
    SlotsLength(blocks, digests, k);
    SlotsLength(blocks, digests, k - 1);
    PrefixSumMonotone(Subs(blocks), b + 1, k);
    PrefixSumMonotone(Needed(blocks), b + 1, k);
    var before := Slots(blocks, digests, k - 1);
    var last := Slots(blocks, digests, k)[|before|..];
    assert Slots(blocks, digests, k) == before + last;
    if b < k - 1 {
      SlotsOfBlock(blocks, digests, k - 1, b);
      PartOfPrefix(before, last, blocks, b);
    } else {
      PartOfLast(before, last, blocks, b);
    }
  }

  /** The checksums in the header, once the blocks' own are taken out, are the digests: none is lost or used twice. */
  function Taken(blocks: seq<Block>, slots: seq<Slot>, k: nat): seq<Slot>
    requires k <= |blocks| && StartOf(blocks, k) <= |slots|
  {
    if k == 0 then []
    else
      PrefixSumMonotone(Subs(blocks), k - 1, k);
      Taken(blocks, slots, k - 1) + if KeepsCrc(blocks[k - 1]) then [] else PartOf(slots, blocks, k - 1)
  }

  lemma TakeThenMore<T>(s: seq<T>, i: nat, j: nat)
    requires i <= j <= |s|
    ensures s[..i] + s[i..j] == s[..j]
    ensures i == j ==> s[..i] + [] == s[..j]
  {
  }

  lemma TakenStep(blocks: seq<Block>, slots: seq<Slot>, digests: seq<Slot>, k: nat)
    requires k < |blocks| && StartOf(blocks, k + 1) <= |slots| && StartOf(blocks, k) <= |slots|
    requires PrefixSum(Needed(blocks), k) <= PrefixSum(Needed(blocks), k + 1) <= |digests|
    requires Taken(blocks, slots, k) == digests[..PrefixSum(Needed(blocks), k)]
    requires KeepsCrc(blocks[k]) ||
             PartOf(slots, blocks, k) == digests[PrefixSum(Needed(blocks), k)..PrefixSum(Needed(blocks), k + 1)]
    ensures Taken(blocks, slots, k + 1) == digests[..PrefixSum(Needed(blocks), k + 1)]
  {
    hide PartOf;
    TakeThenMore(digests, PrefixSum(Needed(blocks), k), PrefixSum(Needed(blocks), k + 1));
  }

  lemma {:induction false} DigestsConserved(blocks: seq<Block>, digests: seq<Slot>, n: nat, k: nat)
    requires k <= n <= |blocks| && PrefixSum(Needed(blocks), n) <= |digests|
    ensures |Slots(blocks, digests, n)| == StartOf(blocks, n) >= StartOf(blocks, k)
    ensures PrefixSum(Needed(blocks), k) <= |digests|
    ensures Taken(blocks, Slots(blocks, digests, n), k) == digests[..PrefixSum(Needed(blocks), k)]
  {
    hide PartOf, Slots, KeepsCrc;
    SlotsLength(blocks, digests, n);
    PrefixSumMonotone(Subs(blocks), k, n);
    PrefixSumMonotone(Needed(blocks), k, n);
    if k > 0 {
      DigestsConserved(blocks, digests, n, k - 1);
      SlotsOfBlock(blocks, digests, n, k - 1);
      TakenStep(blocks, Slots(blocks, digests, n), digests, k - 1);
    }
  }

  // ---------------------------------------------------------------------
  // The whole section
  // ---------------------------------------------------------------------

  /** The flags that say which digests are defined, and then those digests. */
  function DigestListAt(bytes: seq<byte>, at: nat, n: nat): (r: Option<Parsed<seq<Slot>>>)
    ensures r.Some? ==> |r.value.value| == n && at < r.value.end <= |bytes|
  {
    match FlagsAt(bytes, at, n)
    case None => None
    case Some(flags) => DigestsAt(bytes, flags.end, flags.value, n)
  }

  function DigestCount(blocks: seq<Block>): nat { PrefixSum(Needed(blocks), |blocks|) }

  function FileCount(blocks: seq<Block>): nat { StartOf(blocks, |blocks|) }

  /** The checksums behind position `at`, where the section's next key stands, and the end of the section. */
  function ChecksumsAt(bytes: seq<byte>, at: nat, blocks: seq<Block>): (r: Option<Parsed<seq<Slot>>>)
    ensures r.Some? ==> at < r.value.end <= |bytes|
  {
    if at >= |bytes| then None
    else if bytes[at] != K_CRC then
      if bytes[at] == K_END then Some(Parsed([], at + 1)) else None
    else
      match DigestListAt(bytes, at + 1, DigestCount(blocks))
      case None => None
      case Some(digests) =>
        if digests.end < |bytes| && bytes[digests.end] == K_END then
          Some(Parsed(Slots(blocks, digests.value, |blocks|), digests.end + 1))
        else None
  }

  /** Everything the section says: the blocks with their counts, the sizes, and the checksums if there are any. */
  datatype Layout = Layout(blocks: seq<Block>, sizes: seq<nat>, slots: seq<Slot>, end: nat)

  function LayoutAt(bytes: seq<byte>, at: nat, blocks: seq<Block>, limit: nat): Option<Layout>
    requires at <= |bytes|
  {
    match CountsAt(bytes, at, |blocks|, limit)
    case None => None
    case Some(counts) =>
      var counted := WithCounts(blocks, counts.value);
      var keyed := bytes[counts.end] == K_SIZE;
      match SizesAt(bytes, counts.end + 1, keyed, counted, |counted|)
      case None => None
      case Some(sizes) =>
        match ChecksumsAt(bytes, if keyed then sizes.end else counts.end, counted)
        case None => None
        case Some(slots) => Some(Layout(counted, sizes.value, slots.value, slots.end))
  }

  /** The checksum table holds the slots, and nothing else is defined. */
  ghost predicate Tabulates(hasCrc: set<nat>, crcs: seq<nat>, slots: seq<Slot>) {
    && |slots| <= |crcs|
    && (forall s | 0 <= s < |slots| :: crcs[s] == slots[s].value && (s in hasCrc <==> slots[s].defined))
    && (forall s | |slots| <= s < |crcs| :: crcs[s] == 0)
    && (forall s | s in hasCrc :: s < |slots|)
  }

  /** The tables that the section is read into. Size slots behind those that were written stay zero. */
  ghost predicate Holds(info: SubStreamsInfo, layout: Layout) {
    var total := FileCount(layout.blocks);
    && |info.unpackSizes| == |info.crcs| == total && |layout.sizes| <= total
    && info.unpackSizes == layout.sizes + Zeros(total - |layout.sizes|)
    && Tabulates(info.hasCrc, info.crcs, layout.slots)
  }

  /** Reads `n` stream counts, and stops when their sum exceeds the limit. */
  method ReadCountList(header: Reader, n: nat, limit: nat) returns (r: Result<seq<nat>, SubStreamsError>)
    requires header.Valid()
    modifies header
    ensures header.Valid()
    ensures match NumbersAt(header.bytes, old(header.position), n)
            case Some((counts, end)) =>
              if PrefixSum(counts, n) <= limit then r == Ok(counts) && header.position == end else r.Err?
            case None => r.Err?
  {
    hide NumberAt;
    ghost var start := header.position;
    var counts: seq<nat> := [];
    var total: nat := 0;
    for i := 0 to n
      invariant header.Valid() && NumbersAt(header.bytes, start, i) == Some((counts, header.position))
      invariant total == PrefixSum(counts, i) <= limit
    {
      var count := header.ReadVariableU64();
      if count.None? {
        NumbersFail(header.bytes, start, i + 1, n);
        return Err(Truncated);
      }
      PrefixSumAppend(counts, [count.value], i);
      counts := counts + [count.value];
      if count.value > limit || total + count.value > limit {
        CountsTooMany(header.bytes, start, counts, i + 1, n);
        return Err(TooManyStreams);
      }
      total := total + count.value;
    }
    r := Ok(counts);
  }

  /** Reads the stream counts if the section gives them, and the key behind them. */
  method ReadCounts(header: Reader, n: nat, limit: nat) returns (r: Result<(seq<nat>, byte), SubStreamsError>)
    requires header.Valid()
    modifies header
    ensures header.Valid()
    ensures match CountsAt(header.bytes, old(header.position), n, limit)
            case Some(counts) =>
              && r == Ok((counts.value, header.bytes[counts.end])) && header.position == counts.end + 1
            case None => r.Err?
  {
    hide NumbersAt, NumberAt;
    var nid := header.ReadU8();
    if nid.None? {
      return Err(Truncated);
    }
    if nid.value != K_NUM_UNPACK_STREAM {
      return Ok((Ones(n), nid.value));
    }
    var counts := ReadCountList(header, n, limit);
    if counts.Err? {
      return Err(counts.error);
    }
    nid := header.ReadU8();
    r := if nid.Some? then Ok((counts.value, nid.value)) else Err(Truncated);
  }

  /** Later numbers only make the sum larger. */
  lemma {:induction false} CountsTooMany(bytes: seq<byte>, at: nat, counts: seq<nat>, k: nat, n: nat)
    requires at <= |bytes| && k <= n && NumbersAt(bytes, at, k).Some? && NumbersAt(bytes, at, k).value.0 == counts
    ensures match NumbersAt(bytes, at, n)
            case None => true
            case Some((all, _)) => PrefixSum(all, n) >= PrefixSum(counts, k)
    decreases n
  {
    hide NumberAt;
    if k < n {
      CountsTooMany(bytes, at, counts, k, n - 1);
      match NumbersAt(bytes, at, n)
      case None =>
      case Some((all, _)) =>
        assert all == all[..n - 1] + [all[n - 1]];
        PrefixSumAppend(all[..n - 1], [all[n - 1]], n - 1);
    }
  }

  /** Writes `written` at the front of a table of zeros. */
  ghost predicate FilledBy(table: seq<nat>, written: seq<nat>) {
    |written| <= |table| && table == written + Zeros(|table| - |written|)
  }

  lemma FillNext(table: seq<nat>, written: seq<nat>, value: nat)
    requires FilledBy(table, written) && |written| < |table|
    ensures FilledBy(table[|written| := value], written + [value])
  {
    var rest := |table| - |written|;
    assert Zeros(rest) == [0] + Zeros(rest - 1);
    assert table[|written| := value] == written + [value] + Zeros(rest - 1);
  }

  /** Reads `n` sizes into the table from slot `next` on, and adds them up. */
  method ReadSizeList(header: Reader, n: nat, table: seq<nat>, next: nat, ghost written: seq<nat>)
    returns (r: Result<(seq<nat>, nat), SubStreamsError>)
    requires header.Valid() && FilledBy(table, written) && next == |written| && next + n < |table|
    modifies header
    ensures header.Valid()
    ensures match NumbersAt(header.bytes, old(header.position), n)
            case Some((sizes, end)) =>
              if PrefixSum(sizes, n) < U64_BOUND then
                && r.Ok? && header.position == end && r.value.1 == PrefixSum(sizes, n)
                && |r.value.0| == |table| && FilledBy(r.value.0, written + sizes)
              else r.Err?
            case None => r.Err?
  {
    hide NumberAt, FilledBy;
    ghost var start := header.position;
    var filled: seq<nat>, sum: nat := table, 0;
    ghost var sizes: seq<nat> := [];
    assert written + sizes == written;
    for i := 0 to n
      invariant header.Valid() && NumbersAt(header.bytes, start, i) == Some((sizes, header.position))
      invariant |filled| == |table| && FilledBy(filled, written + sizes)
      invariant sum == PrefixSum(sizes, i) < U64_BOUND
    {
      var size := header.ReadVariableU64();
      if size.None? {
        NumbersFail(header.bytes, start, i + 1, n);
        return Err(Truncated);
      }
      FillNext(filled, written + sizes, size.value);
      assert written + sizes + [size.value] == written + (sizes + [size.value]);
      PrefixSumAppend(sizes, [size.value], i);
      sizes := sizes + [size.value];
      filled := filled[next + i := size.value];
      if sum + size.value >= U64_BOUND {
        CountsTooMany(header.bytes, start, sizes, i + 1, n);
        return Err(SizeSumOverflow);
      }
      sum := sum + size.value;
    }
    r := Ok((filled, sum));
  }

  /** Reads one block's sizes into the table from slot `next` on. */
  method ReadBlockSizes(header: Reader, keyed: bool, block: Block, table: seq<nat>, next: nat, ghost written: seq<nat>)
    returns (r: Result<(seq<nat>, nat), SubStreamsError>)
    requires header.Valid() && FilledBy(table, written) && next == |written|
    requires next + block.numSubStreams <= |table|
    modifies header
    ensures header.Valid()
    ensures match BlockSizesAt(header.bytes, old(header.position), keyed, block)
            case Some(sizes) =>
              && r.Ok? && header.position == sizes.end
              && |r.value.0| == |table| && FilledBy(r.value.0, written + sizes.value)
              && r.value.1 == next + |sizes.value|
            case None => r.Err?
  {
    hide NumberAt, FilledBy;
    if block.numSubStreams == 0 {
      assert written + [] == written;
      return Ok((table, next));
    }
    var count := if keyed then block.numSubStreams - 1 else 0;
    ghost var read := NumbersAt(header.bytes, header.position, count);
    var sizes := ReadSizeList(header, count, table, next, written);
    if sizes.Err? {
      return Err(sizes.error);
    }
    var (filled, sum) := sizes.value;
    if sum > block.unpackSize {
      return Err(SizesExceedBlock);
    }
    ghost var list := read.value.0;
    FillNext(filled, written + list, block.unpackSize - sum);
    assert written + list + [block.unpackSize - sum] == written + (list + [block.unpackSize - sum]);
    r := Ok((filled[next + count := block.unpackSize - sum], next + count + 1));
  }

  /** Reads the sizes of all blocks. The table is never overrun, and with size keys it is filled to its end. */
  method ReadSizes(header: Reader, keyed: bool, blocks: seq<Block>) returns (r: Result<seq<nat>, SubStreamsError>)
    requires header.Valid()
    modifies header
    ensures header.Valid()
    ensures match SizesAt(header.bytes, old(header.position), keyed, blocks, |blocks|)
            case Some(sizes) =>
              && r.Ok? && header.position == sizes.end && (!keyed ==> header.position == old(header.position))
              && |r.value| == FileCount(blocks) && FilledBy(r.value, sizes.value)
            case None => r.Err?
  {
    hide FilledBy, BlockSizesAt;
    ghost var start := header.position;
    ghost var written: seq<nat> := [];
    var table, next: nat := Zeros(FileCount(blocks)), 0;
    assert FilledBy(table, []) by {
      EmptyFill(FileCount(blocks));
    }
    for b := 0 to |blocks|
      invariant header.Valid() && |table| == FileCount(blocks)
      invariant SizesAt(header.bytes, start, keyed, blocks, b) == Some(Parsed(written, header.position))
      invariant FilledBy(table, written) && next == |written|
    {
      SizesLength(header.bytes, start, keyed, blocks, b);
      PrefixSumMonotone(Subs(blocks), b + 1, |blocks|);
      var sizes := ReadBlockSizes(header, keyed, blocks[b], table, next, written);
      if sizes.Err? {
        SizesFail(header.bytes, start, keyed, blocks, b + 1, |blocks|);
        return Err(sizes.error);
      }
      written := SizesAt(header.bytes, start, keyed, blocks, b + 1).value.value;
      table, next := sizes.value.0, sizes.value.1;
    }
    SizesLength(header.bytes, start, keyed, blocks, |blocks|);
    r := Ok(table);
  }

  lemma EmptyFill(n: nat)
    ensures FilledBy(Zeros(n), [])
  {
    assert [] + Zeros(n) == Zeros(n);
  }

  /** Reads `n` flags, each byte from its highest bit down. */
  method ReadBits(header: Reader, n: nat) returns (flags: Option<set<nat>>)
    requires header.Valid()
    modifies header
    ensures header.Valid()
    ensures var start, end := old(header.position), old(header.position) + (n + 7) / 8;
            if end > |header.bytes| then flags.None?
            else
              && flags.Some? && header.position == end
              && forall i: nat :: i in flags.value <==> i < n && BitAt(header.bytes, start, i)
  {
    ghost var start := header.position;
    var bits: set<nat> := {};
    var mask: nat := 0;
    var cache: byte := 0;
    for i := 0 to n
      invariant header.Valid() && header.position == start + (i + 7) / 8
      invariant mask == if i % 8 == 0 then 0 else Mask(i % 8)
      invariant i % 8 != 0 ==> cache == header.bytes[start + i / 8]
      invariant forall j: nat :: j in bits <==> j < i && BitAt(header.bytes, start, j)
    {
      if mask == 0 {
        mask := 128;
        var b := header.ReadU8();
        if b.None? {
          return None;
        }
        cache := b.value;
      }
      assert mask == Mask(i % 8) && cache == header.bytes[start + i / 8];
      if cache / mask % 2 == 1 {
        bits := bits + {i};
      }
      MaskShift(i);
      mask := mask / 2;
    }
    flags := Some(bits);
  }

  predicate BitAt(bytes: seq<byte>, at: nat, i: nat) {
    at + i / 8 < |bytes| && TopBit(bytes[at + i / 8], i % 8)
  }

  lemma MaskShift(i: nat)
    ensures Mask(i % 8) / 2 == if (i + 1) % 8 == 0 then 0 else Mask((i + 1) % 8)
  {
  }

  /** Reads one byte, which sets all flags unless it is zero, and then the flags themselves. */
  method ReadAllOrBits(header: Reader, n: nat) returns (flags: Option<set<nat>>)
    requires header.Valid()
    modifies header
    ensures header.Valid()
    ensures match FlagsAt(header.bytes, old(header.position), n)
            case Some(all) => flags == Some(all.value) && header.position == all.end
            case None => flags.None?
  {
    ghost var start := header.position;
    var all := header.ReadU8();
    if all.None? {
      return None;
    }
    if all.value != 0 {
      var bits: set<nat> := {};
      for i := 0 to n
        invariant header.position == start + 1
        invariant forall j: nat :: j in bits <==> j < i && Flag(header.bytes, start, j)
      {
        bits := bits + {i};
      }
      assert bits == Flags(header.bytes, start, n);
      flags := Some(bits);
    } else {
      flags := ReadBits(header, n);
      if flags.Some? {
        assert flags.value == Flags(header.bytes, start, n);
      }
    }
  }

  /** Reads the defined digests; the others stay zero. */
  method ReadDigests(header: Reader, defined: set<nat>, n: nat) returns (r: Option<seq<nat>>)
    requires header.Valid()
    modifies header
    ensures header.Valid()
    ensures match DigestsAt(header.bytes, old(header.position), defined, n)
            case Some(digests) =>
              && r.Some? && |r.value| == n && header.position == digests.end
              && forall i | 0 <= i < n :: digests.value[i] == Slot(i in defined, r.value[i])
            case None => r.None?
  {
    hide U32At;
    ghost var start := header.position;
    ghost var read: seq<Slot> := [];
    var digests: seq<nat> := Zeros(n);
    for i := 0 to n
      invariant header.Valid() && |digests| == n
      invariant DigestsAt(header.bytes, start, defined, i) == Some(Parsed(read, header.position))
      invariant forall j | 0 <= j < i :: read[j] == Slot(j in defined, digests[j])
      invariant forall j | i <= j < n :: digests[j] == 0
    {
      if i in defined {
        var value := header.ReadU32();
        if value.None? {
          DigestsFail(header.bytes, start, defined, i + 1, n);
          return None;
        }
        digests := digests[i := value.value];
      }
      read := DigestsAt(header.bytes, start, defined, i + 1).value.value;
    }
    r := Some(digests);
  }

  lemma WriteSlot(hasCrc: set<nat>, crcs: seq<nat>, slots: seq<Slot>, slot: Slot)
    requires Tabulates(hasCrc, crcs, slots) && |slots| < |crcs|
    ensures var has := if slot.defined then hasCrc + {|slots|} else hasCrc - {|slots|};
            Tabulates(has, crcs[|slots| := slot.value], slots + [slot])
  {
  }

  /** Writes the digests from `from` to `to` into the tables. */
  method TakeDigests(
    defined: set<nat>, digests: seq<nat>, from: nat, n: nat, hasCrc: set<nat>, crcs: seq<nat>, next: nat,
    ghost slots: seq<Slot>, ghost all: seq<Slot>)
    returns (has: set<nat>, table: seq<nat>)
    requires Tabulates(hasCrc, crcs, slots) && next == |slots| && from + n <= |digests| == |all|
             && |slots| + n <= |crcs|
    requires forall i | 0 <= i < |all| :: all[i] == Slot(i in defined, digests[i])
    ensures |table| == |crcs| && Tabulates(has, table, slots + all[from..from + n])
  {
    hide Tabulates;
    has, table := hasCrc, crcs;
    ghost var written := slots;
    for i := 0 to n
      invariant written == slots + all[from..from + i]
      invariant |table| == |crcs| && Tabulates(has, table, written)
    {
      WriteSlot(has, table, written, all[from + i]);
      if from + i in defined {
        has := has + {next + i};
      } else {
        has := has - {next + i};
      }
      table := table[next + i := digests[from + i]];
      written := written + [all[from + i]];
    }
  }

  /**
   * Gives every file its checksum: the block's own, or else the next digest. Both cursors end at their tables' ends.
   */
  method AssignCrcs(blocks: seq<Block>, defined: set<nat>, digests: seq<nat>, ghost all: seq<Slot>)
    returns (hasCrc: set<nat>, crcs: seq<nat>, nextCrc: nat, nextMissing: nat)
    requires |digests| == |all| == DigestCount(blocks)
    requires forall i | 0 <= i < |all| :: all[i] == Slot(i in defined, digests[i])
    ensures |crcs| == FileCount(blocks) && Tabulates(hasCrc, crcs, Slots(blocks, all, |blocks|))
    ensures nextCrc == |crcs| && nextMissing == |digests|
  {
    hide Tabulates, Slots, KeepsCrc;
    NoSlots(blocks, all);
    hasCrc, crcs, nextCrc, nextMissing := {}, Zeros(FileCount(blocks)), 0, 0;
    EmptyTable(FileCount(blocks));
    for b := 0 to |blocks|
      invariant |crcs| == FileCount(blocks) && nextCrc == StartOf(blocks, b)
                && nextMissing == PrefixSum(Needed(blocks), b)
      invariant nextMissing <= |all| && Tabulates(hasCrc, crcs, Slots(blocks, all, b))
    {
      PrefixSumMonotone(Subs(blocks), b + 1, |blocks|);
      PrefixSumMonotone(Needed(blocks), b + 1, |blocks|);
      SlotsLength(blocks, all, b);
      SlotsNext(blocks, all, b);
      ghost var slots := Slots(blocks, all, b);
      if KeepsCrc(blocks[b]) {
        WriteSlot(hasCrc, crcs, slots, Slot(true, blocks[b].crc.value));
        hasCrc, crcs := hasCrc + {nextCrc}, crcs[nextCrc := blocks[b].crc.value];
        nextCrc := nextCrc + 1;
      } else {
        var n := blocks[b].numSubStreams;
        hasCrc, crcs := TakeDigests(defined, digests, nextMissing, n, hasCrc, crcs, nextCrc, slots, all);
        nextCrc, nextMissing := nextCrc + n, nextMissing + n;
      }
    }
  }

  lemma NoSlots(blocks: seq<Block>, digests: seq<Slot>)
    ensures Slots(blocks, digests, 0) == []
  {
  }

  lemma SlotsNext(blocks: seq<Block>, digests: seq<Slot>, b: nat)
    requires b < |blocks| && PrefixSum(Needed(blocks), b) <= PrefixSum(Needed(blocks), b + 1) <= |digests|
    ensures KeepsCrc(blocks[b]) ==>
              && blocks[b].numSubStreams == 1 && blocks[b].crc.Some?
              && Slots(blocks, digests, b + 1) == Slots(blocks, digests, b) + [Slot(true, blocks[b].crc.value)]
    ensures !KeepsCrc(blocks[b]) ==>
              var from := PrefixSum(Needed(blocks), b);
              Slots(blocks, digests, b + 1) == Slots(blocks, digests, b)
                + digests[from..PrefixSum(Needed(blocks), b + 1)]
  {
  }

  lemma EmptyTable(n: nat)
    ensures Tabulates({}, Zeros(n), [])
  {
  }

  /** Reads the checksums, if there are any, and the end of the section. */
  method ReadChecksums(header: Reader, blocks: seq<Block>, nid: byte, ghost at: nat)
    returns (r: Result<(set<nat>, seq<nat>), SubStreamsError>)
    requires header.Valid() && at < |header.bytes| && header.bytes[at] == nid && header.position == at + 1
    modifies header
    ensures header.Valid()
    ensures match ChecksumsAt(header.bytes, at, blocks)
            case Some(slots) =>
              && r.Ok? && header.position == slots.end
              && |r.value.1| == FileCount(blocks) && Tabulates(r.value.0, r.value.1, slots.value)
            case None => r.Err?
  {
    hide Tabulates, Slots;
    var has: set<nat>, crcs: seq<nat> := {}, Zeros(FileCount(blocks));
    EmptyTable(FileCount(blocks));
    var key := nid;
    if nid == K_CRC {
      var count := PrefixSum(Needed(blocks), |blocks|);
      var defined := ReadAllOrBits(header, count);
      if defined.None? {
        return Err(Truncated);
      }
      var digests := ReadDigests(header, defined.value, count);
      if digests.None? {
        return Err(Truncated);
      }
      ghost var all := DigestListAt(header.bytes, at + 1, count).value.value;
      var nextCrc, nextMissing;
      has, crcs, nextCrc, nextMissing := AssignCrcs(blocks, defined.value, digests.value, all);
      var next := header.ReadU8();
      if next.None? {
        return Err(Truncated);
      }
      key := next.value;
    }
    r := if key == K_END then Ok((has, crcs)) else Err(BadTerminator);
  }

  class Archive {
    var blocks: seq<Block>
    var subStreams: Option<SubStreamsInfo>

    constructor (blocks: seq<Block>)
      ensures this.blocks == blocks && subStreams == None
    {
      this.blocks, subStreams := blocks, None;
    }

    /** Reads the section that says how blocks split into files. Nothing is stored unless all of it is well formed. */
    method ReadSubStreamsInfo(header: Reader, limit: nat) returns (failure: Option<SubStreamsError>)
      requires header.Valid()
      modifies this, header
      ensures header.Valid()
      ensures match LayoutAt(header.bytes, old(header.position), old(blocks), limit)
              case Some(layout) =>
                && failure.None? && header.position == layout.end && blocks == layout.blocks
                && subStreams.Some? && Holds(subStreams.value, layout)
              case None => failure.Some? && subStreams == old(subStreams)
    {
      hide Tabulates, CountsAt, SizesAt, ChecksumsAt;
      var counts := ReadCounts(header, |blocks|, limit);
      if counts.Err? {
        return Some(counts.error);
      }
      ghost var key := header.position - 1;
      blocks := WithCounts(blocks, counts.value.0);
      var nid := counts.value.1;
      var sizes := ReadSizes(header, nid == K_SIZE, blocks);
      if sizes.Err? {
        return Some(sizes.error);
      }
      if nid == K_SIZE {
        key := header.position;
        var next := header.ReadU8();
        if next.None? {
          return Some(Truncated);
        }
        nid := next.value;
      }
      var checksums := ReadChecksums(header, blocks, nid, key);
      if checksums.Err? {
        return Some(checksums.error);
      }
      subStreams := Some(SubStreamsInfo(sizes.value, checksums.value.0, checksums.value.1));
      failure := None;
    }
  }

  // ---------------------------------------------------------------------
  // What the tables say
  // ---------------------------------------------------------------------

  /**
   * After a section with size keys the size table is filled exactly, and the sizes of each block's files add up to the
   * size of the block's output.
   */
  lemma SizesConserved(bytes: seq<byte>, at: nat, blocks: seq<Block>, limit: nat, info: SubStreamsInfo, b: nat)
    requires at <= |bytes| && LayoutAt(bytes, at, blocks, limit).Some?
    requires Holds(info, LayoutAt(bytes, at, blocks, limit).value)
    requires bytes[CountsAt(bytes, at, |blocks|, limit).value.end] == K_SIZE && b < |blocks|
    ensures var layout := LayoutAt(bytes, at, blocks, limit).value;
            && |layout.blocks| == |blocks| && StartOf(layout.blocks, b + 1) <= |info.unpackSizes|
            && info.unpackSizes == layout.sizes
            && var count := layout.blocks[b].numSubStreams;
            && (count > 0 ==>
                  PrefixSum(PartOf(info.unpackSizes, layout.blocks, b), count) == layout.blocks[b].unpackSize)
  {
    hide Tabulates, ChecksumsAt, PartOf, SizesAt, CountsAt;
    var counts := CountsAt(bytes, at, |blocks|, limit).value;
    var layout := LayoutAt(bytes, at, blocks, limit).value;
    SizesSumExactly(bytes, counts.end + 1, layout.blocks, |blocks|, b);
    assert info.unpackSizes == layout.sizes + Zeros(0);
  }

  /** A section with two files in its one block, and no size key. */
  const UNKEYED: seq<byte> := [K_NUM_UNPACK_STREAM, 2, K_END]

  /** One block of ten bytes with two files and no size key: the first file gets all ten bytes, and the second none. */
  lemma UnkeyedTableShort(info: SubStreamsInfo)
    ensures var layout := LayoutAt(UNKEYED, 0, [Block(10, None, 1)], 2);
            && layout.Some? && layout.value.blocks == [Block(10, None, 2)] && layout.value.sizes == [10]
            && (Holds(info, layout.value) ==> info.unpackSizes == [10, 0])
  {
    TwoIsRead();
    NoNumbers(UNKEYED, 3);
    hide NumbersAt;
    var counted := WithCounts([Block(10, None, 1)], [2]);
    assert PrefixSum([2], 1) == 2 && counted == [Block(10, None, 2)] && PrefixSum(Subs(counted), 1) == 2;
    assert CountsAt(UNKEYED, 0, 1, 2) == Some(Parsed([2], 2));
    assert SizesAt(UNKEYED, 3, false, counted, 0) == Some(Parsed([], 3));
    assert PrefixSum([], 0) == 0 && [] + [10] == [10];
    assert BlockSizesAt(UNKEYED, 3, false, counted[0]) == Some(Parsed([10], 3));
  }

  lemma NoNumbers(bytes: seq<byte>, at: nat)
    requires at <= |bytes|
    ensures NumbersAt(bytes, at, 0) == Some(([], at))
  {
  }

  lemma TwoIsRead()
    ensures NumbersAt(UNKEYED, 1, 1) == Some(([2], 2))
  {
    NoNumbers(UNKEYED, 1);
    assert [] + [2] == [2];
    var rest := UNKEYED[1..];
    assert rest[0] == 2 && Mask(0) == 128 && !TopBit(2, 0) && LeadingOnes(2, 0) == 0;
    assert rest[1..1] == [] && LittleEndian([]) == 0;
    assert Number(rest) == Some((2, 1));
    assert NumberAt(UNKEYED, 1) == Some((2, 2));
  }
}
