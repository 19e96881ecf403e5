/** Which packed streams and which files belong to which block of a 7z archive. */
module StreamMaps {
  import opened Common

  /** What the map needs of a block: how many packed streams it reads and how many files it unpacks to. */
  datatype Folder = Folder(numPackedStreams: nat, numSubStreams: nat)

  datatype Entry = Entry(hasStream: bool, compressedSize: u64)

  datatype StreamMap = StreamMap(
    blockFirstPack: seq<nat>,
    packOffsets: seq<u64>,
    blockFirstFile: seq<nat>,
    fileBlock: seq<Option<nat>>)

  datatype MapError =
    | PackStreamsMissing
    | PackOffsetOverflow
    | TooFewBlocks
    | NoPackStream
    | FileSpanOverflow
    | TooFewFiles

  function Packs(blocks: seq<Folder>): (counts: seq<nat>)
    ensures |counts| == |blocks| && forall b | 0 <= b < |blocks| :: counts[b] == blocks[b].numPackedStreams
  {
    seq(|blocks|, b requires 0 <= b < |blocks| => blocks[b].numPackedStreams)
  }

  function Subs(blocks: seq<Folder>): (counts: seq<nat>)
    ensures |counts| == |blocks| && forall b | 0 <= b < |blocks| :: counts[b] == blocks[b].numSubStreams
  {
    seq(|blocks|, b requires 0 <= b < |blocks| => blocks[b].numSubStreams)
  }

  function HasStream(files: seq<Entry>): (streams: seq<bool>)
    ensures |streams| == |files| && forall j | 0 <= j < |files| :: streams[j] == files[j].hasStream
  {
    seq(|files|, j requires 0 <= j < |files| => files[j].hasStream)
  }

  /** How many of the first `n` files have a stream. */
  function Streamed(streams: seq<bool>, n: nat): (count: nat)
    requires n <= |streams|
  {
    if n == 0 then 0 else Streamed(streams, n - 1) + if streams[n - 1] then 1 else 0
  }

  lemma StreamedStep(streams: seq<bool>, n: nat)
    requires n < |streams|
    ensures Streamed(streams, n + 1) == Streamed(streams, n) + if streams[n] then 1 else 0
  {
  }

  lemma {:induction false} StreamedMonotone(streams: seq<bool>, i: nat, j: nat)
    requires i <= j <= |streams|
    ensures Streamed(streams, i) <= Streamed(streams, j) <= Streamed(streams, i) + (j - i)
  {
    if i < j {
      StreamedMonotone(streams, i, j - 1);
    }
  }

  // ---------------------------------------------------------------------
  // Packed streams
  // ---------------------------------------------------------------------

  /** Block `b`'s packed streams start where those of the blocks before it end, and are all available. */
  ghost predicate PacksAt(first: seq<nat>, counts: seq<nat>, b: nat, available: nat) {
    b < |first| == |counts| && first[b] == PrefixSum(counts, b) && first[b] + counts[b] <= available
  }

  /** The blocks' packed streams follow each other. They must all exist, even those of blocks no file uses. */
  method MapPackStreams(blocks: seq<Folder>, available: nat) returns (r: Result<seq<nat>, MapError>)
    ensures r.Ok? <==> PrefixSum(Packs(blocks), |blocks|) <= available
    ensures r.Ok? ==>
              && |r.value| == |blocks|
              && forall b | 0 <= b < |blocks| :: PacksAt(r.value, Packs(blocks), b, available)
    ensures r.Err? ==> r.error == PackStreamsMissing
  {
    ghost var counts := Packs(blocks);
    var first: seq<nat> := seq(|blocks|, _ => 0);
    var next: nat := 0;
    for b := 0 to |blocks|
      invariant |first| == |blocks| && next == PrefixSum(counts, b) <= available
      invariant forall c | 0 <= c < b :: PacksAt(first, counts, c, available)
    {
      ghost var before := first;
      first := first[b := next];
      assert forall c | 0 <= c < b :: PacksAt(before, counts, c, available) ==> PacksAt(first, counts, c, available);
      next := next + blocks[b].numPackedStreams;
      if next > available {
        PrefixSumMonotone(counts, b + 1, |blocks|);
        return Err(PackStreamsMissing);
      }
    }
    r := Ok(first);
  }

  /** Offsets are prefix sums. The sum of all sizes must be a `u64` too, although no offset equals it. */
  method MapPackOffsets(packSizes: seq<u64>) returns (r: Result<seq<u64>, MapError>)
    ensures r.Ok? <==> PrefixSum(packSizes, |packSizes|) < U64_BOUND
    ensures r.Ok? ==>
              |r.value| == |packSizes| && forall i | 0 <= i < |packSizes| :: r.value[i] == PrefixSum(packSizes, i)
    ensures r.Err? ==> r.error == PackOffsetOverflow
  {
    var offsets: seq<u64> := seq(|packSizes|, _ => 0);
    var next: u64 := 0;
    for i := 0 to |packSizes|
      invariant |offsets| == |packSizes| && next == PrefixSum(packSizes, i)
      invariant forall j | 0 <= j < i :: offsets[j] == PrefixSum(packSizes, j)
    {
      offsets := offsets[i := next];
      if next + packSizes[i] >= U64_BOUND {
        PrefixSumMonotone(packSizes, i + 1, |packSizes|);
        return Err(PackOffsetOverflow);
      }
      next := next + packSizes[i];
    }
    r := Ok(offsets);
  }

  // ---------------------------------------------------------------------
  // Files
  // ---------------------------------------------------------------------

  /** Files `lo..hi` are the ones given to a block. */
  datatype Span = Span(lo: nat, hi: nat)

  /** Spans follow each other without overlap. */
  ghost predicate Ordered(spans: seq<Span>, n: nat) {
    && (forall b | 0 <= b < |spans| :: spans[b].lo <= spans[b].hi <= n)
    && (forall b, c | 0 <= b < c < |spans| :: spans[b].hi <= spans[c].lo)
  }

  predicate InSpan(spans: seq<Span>, b: nat, j: nat) {
    b < |spans| && spans[b].lo <= j < spans[b].hi
  }

  /** File `j` is given to block `b`. */
  predicate Given(fileBlock: seq<Option<nat>>, j: nat, b: nat) {
    j < |fileBlock| && fileBlock[j] == Some(b)
  }

  /** The first `n` files are given to blocks exactly as the spans say, and no file with a stream is left out. */
  ghost predicate Tiled(streams: seq<bool>, fileBlock: seq<Option<nat>>, spans: seq<Span>, n: nat) {
    && n <= |streams| == |fileBlock|
    && (forall j | 0 <= j < n && fileBlock[j].Some? :: InSpan(spans, fileBlock[j].value, j))
    && (forall b: nat, j: nat | InSpan(spans, b, j) && j < n :: fileBlock[j] == Some(b))
    && (forall j | 0 <= j < n :: streams[j] ==> fileBlock[j].Some?)
  }

  /** A span that holds `count` files with a stream, and starts with one. */
  ghost predicate Holds(streams: seq<bool>, span: Span, count: nat) {
    && span.lo <= span.hi <= |streams|
    && Streamed(streams, span.hi) == Streamed(streams, span.lo) + count
    && (count == 0 ==> span.lo == span.hi)
    && (count > 0 ==> span.lo < span.hi && streams[span.lo])
  }

  /** A block that has been left holds all its sub-streams, and its span ends with one. */
  ghost predicate Full(streams: seq<bool>, span: Span, count: nat) {
    Holds(streams, span, count) && (span.lo < span.hi ==> streams[span.hi - 1])
  }

  ghost predicate Filled(subs: seq<nat>, streams: seq<bool>, spans: seq<Span>, done: nat) {
    done <= |spans| && done <= |subs| && forall b | 0 <= b < done :: Full(streams, spans[b], subs[b])
  }

  /** Where the scan over the files stands: `count` files with a stream are in block `block`. */
  datatype Cursor = Cursor(block: nat, count: nat)

  ghost predicate MapState(
    subs: seq<nat>, streams: seq<bool>, first: seq<nat>, fileBlock: seq<Option<nat>>, spans: seq<Span>, at: Cursor,
    n: nat)
  {
    && |first| == |subs| && n <= |streams| == |fileBlock|
    && |spans| == at.block + (if at.count > 0 then 1 else 0) <= |subs|
    && Ordered(spans, n) && Tiled(streams, fileBlock, spans, n) && Filled(subs, streams, spans, at.block)
    && (forall b | 0 <= b < |spans| :: first[b] == spans[b].lo)
    && (at.count > 0 ==>
          at.count < subs[at.block] && spans[at.block].hi == n && Holds(streams, spans[at.block], at.count))
    && Streamed(streams, n) == PrefixSum(subs, at.block) + at.count
  }

  /** The spans once file `n` has been given to the current block. */
  ghost function Extend(spans: seq<Span>, at: Cursor, n: nat): seq<Span>
    requires |spans| == at.block + if at.count > 0 then 1 else 0
  {
    if at.count == 0 then spans + [Span(n, n + 1)] else spans[at.block := Span(spans[at.block].lo, n + 1)]
  }

  /** The cursor once a file with a stream has been counted. */
  function Advance(at: Cursor, subs: seq<nat>): Cursor
    requires at.block < |subs|
  {
    if at.count + 1 >= subs[at.block] then Cursor(at.block + 1, 0) else Cursor(at.block, at.count + 1)
  }

  lemma OrderSpan(spans: seq<Span>, at: Cursor, n: nat)
    requires Ordered(spans, n) && |spans| == at.block + if at.count > 0 then 1 else 0
    ensures Ordered(spans, n + 1) && Ordered(spans + [Span(n, n)], n) && Ordered(Extend(spans, at, n), n + 1)
    ensures forall b | 0 <= b < |spans| :: spans[b].lo <= spans[b].hi <= n
  {
  }

  lemma TileNothing(streams: seq<bool>, fileBlock: seq<Option<nat>>, spans: seq<Span>, n: nat)
    requires Tiled(streams, fileBlock, spans, n)
    ensures Tiled(streams, fileBlock, spans + [Span(n, n)], n)
    ensures n < |streams| && !streams[n] && (forall b | 0 <= b < |spans| :: spans[b].hi <= n) ==>
              Tiled(streams, fileBlock[n := None], spans, n + 1)
  {
    var after := spans + [Span(n, n)];
    forall b: nat, j: nat | j < n
      ensures InSpan(after, b, j) == InSpan(spans, b, j)
    {
    }
  }

  lemma TileFile(streams: seq<bool>, fileBlock: seq<Option<nat>>, spans: seq<Span>, at: Cursor, n: nat)
    requires Tiled(streams, fileBlock, spans, n) && n < |streams|
    requires |spans| == at.block + if at.count > 0 then 1 else 0
    requires forall b | 0 <= b < |spans| :: spans[b].lo <= spans[b].hi <= n
    requires at.count > 0 ==> spans[at.block].hi == n
    ensures Tiled(streams, fileBlock[n := Some(at.block)], Extend(spans, at, n), n + 1)
  {
    var after := Extend(spans, at, n);
    forall b: nat, j: nat | j <= n
      ensures InSpan(after, b, j) == if j == n then b == at.block else InSpan(spans, b, j)
    {
    }
  }

  /** A file without a stream between two blocks belongs to neither. */
  lemma SkipFile(
    subs: seq<nat>, streams: seq<bool>, first: seq<nat>, fileBlock: seq<Option<nat>>, spans: seq<Span>, at: Cursor,
    n: nat)
    requires MapState(subs, streams, first, fileBlock, spans, at, n)
    requires n < |streams| && !streams[n] && at.count == 0
    ensures MapState(subs, streams, first, fileBlock[n := None], spans, at, n + 1)
  {
    hide Tiled;
    TileNothing(streams, fileBlock, spans, n);
    OrderSpan(spans, at, n);
  }

  /** A block without sub-streams is passed before the next streamed file. */
  lemma PassBlock(
    subs: seq<nat>, streams: seq<bool>, first: seq<nat>, fileBlock: seq<Option<nat>>, spans: seq<Span>, at: Cursor,
    n: nat)
    requires MapState(subs, streams, first, fileBlock, spans, at, n)
    requires at.count == 0 && at.block < |subs| && subs[at.block] == 0
    ensures MapState(subs, streams, first[at.block := n], fileBlock, spans + [Span(n, n)], Cursor(at.block + 1, 0), n)
  {
    hide Tiled, Ordered;
    TileNothing(streams, fileBlock, spans, n);
    OrderSpan(spans, at, n);
  }

  /** A file without a stream inside a block belongs to the block but is not counted. */
  lemma AddEmpty(
    subs: seq<nat>, streams: seq<bool>, first: seq<nat>, fileBlock: seq<Option<nat>>, spans: seq<Span>, at: Cursor,
    n: nat)
    requires MapState(subs, streams, first, fileBlock, spans, at, n)
    requires n < |streams| && at.count > 0 && !streams[n]
    ensures MapState(subs, streams, first, fileBlock[n := Some(at.block)], Extend(spans, at, n), at, n + 1)
  {
    hide Tiled;
    TileFile(streams, fileBlock, spans, at, n);
    OrderSpan(spans, at, n);
  }

  lemma FillFile(
    subs: seq<nat>, streams: seq<bool>, first: seq<nat>, fileBlock: seq<Option<nat>>, spans: seq<Span>, at: Cursor,
    n: nat)
    requires MapState(subs, streams, first, fileBlock, spans, at, n)
    requires n < |streams| && streams[n] && at.block < |subs| && subs[at.block] > 0
    ensures var after := Extend(spans, at, n);
            && Full(streams, after[at.block], at.count + 1) && Holds(streams, after[at.block], at.count + 1)
            && after[at.block].hi == n + 1
            && forall b | 0 <= b < at.block :: after[b] == spans[b]
  {
    hide Tiled, Ordered, Filled, PrefixSum;
  }

  /** A file with a stream is counted, and starts the block if it is the block's first. */
  lemma AddStream(
    subs: seq<nat>, streams: seq<bool>, first: seq<nat>, fileBlock: seq<Option<nat>>, spans: seq<Span>, at: Cursor,
    n: nat)
    requires MapState(subs, streams, first, fileBlock, spans, at, n)
    requires n < |streams| && streams[n] && at.block < |subs| && subs[at.block] > 0
    requires at.count == 0 ==> first[at.block] == n
    ensures MapState(
      subs, streams, first, fileBlock[n := Some(at.block)], Extend(spans, at, n), Advance(at, subs), n + 1)
  {
    hide Tiled, Ordered, Full, Holds, Filled;
    OrderSpan(spans, at, n);
    TileFile(streams, fileBlock, spans, at, n);
    FillFile(subs, streams, first, fileBlock, spans, at, n);
    FilledStep(subs, streams, spans, Extend(spans, at, n), at);
  }

  lemma FilledStep(subs: seq<nat>, streams: seq<bool>, spans: seq<Span>, after: seq<Span>, at: Cursor)
    requires at.block < |subs| && at.block < |after| && at.block <= |spans| && Filled(subs, streams, spans, at.block)
    requires forall b | 0 <= b < at.block :: after[b] == spans[b]
    ensures Filled(subs, streams, after, at.block)
    ensures Full(streams, after[at.block], subs[at.block]) ==> Filled(subs, streams, after, at.block + 1)
  {
  }

  // ---------------------------------------------------------------------
  // What the finished map says
  // ---------------------------------------------------------------------

  /** The files of an archive have been given to its blocks, up to the cursor. */
  ghost predicate MapsFiles(
    subs: seq<nat>, streams: seq<bool>, first: seq<nat>, fileBlock: seq<Option<nat>>, at: Cursor)
  {
    exists spans :: MapState(subs, streams, first, fileBlock, spans, at, |streams|)
  }

  /** Block indices never decrease over the files. */
  lemma BlocksNeverDecrease(
    subs: seq<nat>, streams: seq<bool>, first: seq<nat>, fileBlock: seq<Option<nat>>, at: Cursor, i: nat, j: nat)
    requires MapsFiles(subs, streams, first, fileBlock, at)
    requires i < j < |fileBlock| && fileBlock[i].Some? && fileBlock[j].Some?
    ensures fileBlock[i].value <= fileBlock[j].value
  {
    var spans :| MapState(subs, streams, first, fileBlock, spans, at, |streams|);
    assert Given(fileBlock, i, fileBlock[i].value) && Given(fileBlock, j, fileBlock[j].value);
  }

  /** How many of the first `n` files have a stream and are given to block `b`. */
  function StreamsGiven(streams: seq<bool>, fileBlock: seq<Option<nat>>, b: nat, n: nat): nat
    requires n <= |streams| == |fileBlock|
  {
    if n == 0 then 0
    else StreamsGiven(streams, fileBlock, b, n - 1) + if streams[n - 1] && Given(fileBlock, n - 1, b) then 1 else 0
  }

  lemma {:induction false} StreamsInSpan(
    streams: seq<bool>, fileBlock: seq<Option<nat>>, spans: seq<Span>, b: nat, n: nat)
    requires Tiled(streams, fileBlock, spans, |streams|) && n <= |streams| && b < |spans|
    requires spans[b].lo <= spans[b].hi <= |streams|
    ensures StreamsGiven(streams, fileBlock, b, n)
         == if n <= spans[b].lo then 0
            else Streamed(streams, if n <= spans[b].hi then n else spans[b].hi) - Streamed(streams, spans[b].lo)
  {
    if n > 0 {
      StreamsInSpan(streams, fileBlock, spans, b, n - 1);
    }
  }

  /** Every block that was passed over got exactly as many streamed files as it has sub-streams. */
  lemma PassedBlockFull(
    subs: seq<nat>, streams: seq<bool>, first: seq<nat>, fileBlock: seq<Option<nat>>, at: Cursor, b: nat)
    requires MapsFiles(subs, streams, first, fileBlock, at) && b < |subs|
    ensures StreamsGiven(streams, fileBlock, b, |streams|)
         == if b < at.block then subs[b] else if b == at.block then at.count else 0
  {
    hide MapState, StreamsGiven;
    var spans :| MapState(subs, streams, first, fileBlock, spans, at, |streams|);
    SpanHas(subs, streams, first, fileBlock, spans, at, b);
    if b < |spans| {
      StreamsInSpan(streams, fileBlock, spans, b, |streams|);
    } else {
      NothingGiven(streams, fileBlock, spans, b, |streams|);
    }
  }

  /** How many streamed files lie in the span of a block. */
  lemma SpanHas(
    subs: seq<nat>, streams: seq<bool>, first: seq<nat>, fileBlock: seq<Option<nat>>, spans: seq<Span>, at: Cursor,
    b: nat)
    requires MapState(subs, streams, first, fileBlock, spans, at, |streams|) && b < |subs|
    ensures Tiled(streams, fileBlock, spans, |streams|)
    ensures b < |spans| ==>
              && spans[b].lo <= spans[b].hi <= |streams|
              && Streamed(streams, spans[b].hi) - Streamed(streams, spans[b].lo)
                 == if b < at.block then subs[b] else at.count
    ensures b < |spans| ==> b <= at.block
    ensures b >= |spans| ==> b >= at.block && (b == at.block ==> at.count == 0)
  {
    hide Ordered, Tiled, Streamed, PrefixSum;
    if b < at.block {
      assert Full(streams, spans[b], subs[b]);
    }
  }

  lemma {:induction false} NothingGiven(
    streams: seq<bool>, fileBlock: seq<Option<nat>>, spans: seq<Span>, b: nat, n: nat)
    requires Tiled(streams, fileBlock, spans, |streams|) && n <= |streams| && b >= |spans|
    ensures StreamsGiven(streams, fileBlock, b, n) == 0
  {
    if n > 0 {
      NothingGiven(streams, fileBlock, spans, b, n - 1);
    }
  }

  lemma {:induction false} AllStreamed(streams: seq<bool>, i: nat, j: nat)
    requires i <= j <= |streams|
    ensures Streamed(streams, j) == Streamed(streams, i) + (j - i) <==> forall k | i <= k < j :: streams[k]
  {
    if i < j {
      StreamedMonotone(streams, i, j - 1);
      AllStreamed(streams, i, j - 1);
    }
  }

  /** The files that readers of a block go through are exactly its streamed files. */
  ghost predicate SpanExact(streams: seq<bool>, first: nat, count: nat, fileBlock: seq<Option<nat>>, b: nat) {
    forall j | 0 <= j < |streams| :: first <= j < first + count <==> streams[j] && Given(fileBlock, j, b)
  }

  /** Some file given to the block has no stream: it lies between two of the block's streamed files. */
  ghost predicate EmptyInside(streams: seq<bool>, fileBlock: seq<Option<nat>>, b: nat) {
    exists j :: 0 <= j < |streams| && !streams[j] && Given(fileBlock, j, b)
  }

  lemma SpanFiles(streams: seq<bool>, fileBlock: seq<Option<nat>>, spans: seq<Span>, b: nat, j: nat)
    requires Tiled(streams, fileBlock, spans, |streams|) && b < |spans| && j < |streams|
    ensures Given(fileBlock, j, b) <==> spans[b].lo <= j < spans[b].hi
  {
    assert InSpan(spans, b, j) <==> spans[b].lo <= j < spans[b].hi;
  }

  /** A passed block's file span is exact if and only if no empty entry lies inside the block. */
  lemma SpanExactly(
    subs: seq<nat>, streams: seq<bool>, first: seq<nat>, fileBlock: seq<Option<nat>>, at: Cursor, b: nat)
    requires MapsFiles(subs, streams, first, fileBlock, at) && b < at.block && b < |first|
    ensures SpanExact(streams, first[b], subs[b], fileBlock, b) <==> !EmptyInside(streams, fileBlock, b)
  {
    hide Tiled, Ordered;
    var spans :| MapState(subs, streams, first, fileBlock, spans, at, |streams|);
    var span := spans[b];
    assert Full(streams, span, subs[b]);
    AllStreamed(streams, span.lo, span.hi);
    StreamedMonotone(streams, span.lo, span.hi);
    forall j: nat | j < |streams|
      ensures Given(fileBlock, j, b) <==> span.lo <= j < span.hi
    {
      SpanFiles(streams, fileBlock, spans, b, j);
    }
    if SpanExact(streams, first[b], subs[b], fileBlock, b) && span.lo < span.hi {
      assert streams[span.hi - 1] && Given(fileBlock, span.hi - 1, b);
    }
  }

  // ---------------------------------------------------------------------
  // The scan over the files
  // ---------------------------------------------------------------------

  /** Blocks that no file has reached still have the first file they were allocated with. */
  predicate Untouched(first: seq<nat>, from: nat) {
    forall b | from <= b < |first| :: first[b] == 0
  }

  /** The blocks that have been entered are not changed any more. */
  predicate SameBelow(before: seq<nat>, after: seq<nat>, n: nat) {
    n <= |before| == |after| && forall b | 0 <= b < n :: after[b] == before[b]
  }

  /** Passes blocks without sub-streams, up to the block that file `i` starts. */
  method EnterBlock(
    subs: seq<nat>, ghost streams: seq<bool>, first: seq<nat>, ghost fileBlock: seq<Option<nat>>,
    ghost spans: seq<Span>,
    next: nat, i: nat)
    returns (entered: seq<nat>, block: nat, ghost passed: seq<Span>)
    requires MapState(subs, streams, first, fileBlock, spans, Cursor(next, 0), i) && Untouched(first, next)
    ensures MapState(subs, streams, entered, fileBlock, passed, Cursor(block, 0), i) && Untouched(entered, block + 1)
    ensures SameBelow(first, entered, next) && next <= block
    ensures block < |subs| ==> subs[block] > 0 && entered[block] == i
  {
    hide Ordered, Tiled, Filled, Holds;
    entered, block, passed := first, next, spans;
    while block < |subs|
      invariant MapState(subs, streams, entered, fileBlock, passed, Cursor(block, 0), i)
      invariant next <= block && SameBelow(first, entered, next) && Untouched(entered, block)
    {
      if subs[block] > 0 {
        StartBlock(subs, streams, entered, fileBlock, passed, block, i);
        entered := entered[block := i];
        return;
      }
      PassBlock(subs, streams, entered, fileBlock, passed, Cursor(block, 0), i);
      entered, passed, block := entered[block := i], passed + [Span(i, i)], block + 1;
    }
  }

  lemma StartBlock(
    subs: seq<nat>, streams: seq<bool>, first: seq<nat>, fileBlock: seq<Option<nat>>, spans: seq<Span>, block: nat,
    n: nat)
    requires MapState(subs, streams, first, fileBlock, spans, Cursor(block, 0), n) && block < |subs|
    ensures MapState(subs, streams, first[block := n], fileBlock, spans, Cursor(block, 0), n)
  {
    hide Ordered, Tiled, Filled;
  }

  /** File `j` is the first of its block, and the block has a packed stream to take the file's compressed size from. */
  predicate Heads(fileBlock: seq<Option<nat>>, first: seq<nat>, j: nat) {
    j < |fileBlock| && fileBlock[j].Some? && fileBlock[j].value < |first| && first[fileBlock[j].value] == j
  }

  /** The entry of file `j` afterwards: the first file of a block takes the size of the block's first packed stream. */
  ghost predicate SizedAt(
    before: seq<Entry>, after: seq<Entry>, fileBlock: seq<Option<nat>>, first: seq<nat>, firstPack: seq<nat>,
    packSizes: seq<u64>, j: nat)
  {
    && j < |before| == |after| && |first| == |firstPack|
    && if Heads(fileBlock, first, j) then
         var p := firstPack[fileBlock[j].value];
         p < |packSizes| && after[j] == before[j].(compressedSize := packSizes[p])
       else after[j] == before[j]
  }

  ghost predicate Sized(
    before: seq<Entry>, after: seq<Entry>, fileBlock: seq<Option<nat>>, first: seq<nat>, firstPack: seq<nat>,
    packSizes: seq<u64>, n: nat)
  {
    && n <= |before| == |after| && (forall j | n <= j < |before| :: after[j] == before[j])
    && forall j | 0 <= j < n :: SizedAt(before, after, fileBlock, first, firstPack, packSizes, j)
  }

  lemma SizedStep(
    before: seq<Entry>, after: seq<Entry>, fileBlock: seq<Option<nat>>, first: seq<nat>, entered: seq<nat>,
    firstPack: seq<nat>, packSizes: seq<u64>, n: nat, block: Option<nat>, reached: nat)
    requires Sized(before, after, fileBlock, first, firstPack, packSizes, n) && n < |before| == |fileBlock|
    requires SameBelow(first, entered, reached) && |first| == |firstPack|
    requires forall j | 0 <= j < n && fileBlock[j].Some? :: fileBlock[j].value < reached
    ensures var given := fileBlock[n := block];
            if Heads(given, entered, n) then
              var p := firstPack[block.value];
              p < |packSizes| ==>
                Sized(before, after[n := after[n].(compressedSize := packSizes[p])], given, entered, firstPack,
                  packSizes, n + 1)
            else
              Sized(before, after, given, entered, firstPack, packSizes, n + 1)
  {
    var given := fileBlock[n := block];
    forall j | 0 <= j < n
      ensures Heads(given, entered, j) == Heads(fileBlock, first, j)
    {
    }
    if Heads(given, entered, n) {
      var p := firstPack[block.value];
      if p < |packSizes| {
        var sized := after[n := after[n].(compressedSize := packSizes[p])];
        forall j | 0 <= j <= n
          ensures SizedAt(before, sized, given, entered, firstPack, packSizes, j)
        {
          assert j < n ==> SizedAt(before, after, fileBlock, first, firstPack, packSizes, j);
        }
      }
    } else {
      forall j | 0 <= j <= n
        ensures SizedAt(before, after, given, entered, firstPack, packSizes, j)
      {
        assert j < n ==> SizedAt(before, after, fileBlock, first, firstPack, packSizes, j);
      }
    }
  }

  lemma GivenReached(
    subs: seq<nat>, streams: seq<bool>, first: seq<nat>, fileBlock: seq<Option<nat>>, spans: seq<Span>, at: Cursor,
    n: nat)
    requires MapState(subs, streams, first, fileBlock, spans, at, n)
    ensures forall j | 0 <= j < n && fileBlock[j].Some? :: fileBlock[j].value < |spans|
    ensures forall j | 0 <= j < n && fileBlock[j].Some? && fileBlock[j].value == at.block :: spans[at.block].lo <= j
  {
    hide Ordered, Filled, Holds;
  }

  /** The whole state of the scan: `after` holds the entries as updated so far. */
  ghost predicate ScanState(
    subs: seq<nat>, firstPack: seq<nat>, packSizes: seq<u64>, before: seq<Entry>, after: seq<Entry>, first: seq<nat>,
    fileBlock: seq<Option<nat>>, spans: seq<Span>, at: Cursor, n: nat)
  {
    && |firstPack| == |subs|
    && MapState(subs, HasStream(before), first, fileBlock, spans, at, n)
    && Sized(before, after, fileBlock, first, firstPack, packSizes, n)
    && Untouched(first, |spans|)
  }

  lemma ScanSkips(
    subs: seq<nat>, firstPack: seq<nat>, packSizes: seq<u64>, before: seq<Entry>, after: seq<Entry>, first: seq<nat>,
    fileBlock: seq<Option<nat>>, spans: seq<Span>, at: Cursor, n: nat)
    requires ScanState(subs, firstPack, packSizes, before, after, first, fileBlock, spans, at, n)
    requires n < |before| && !after[n].hasStream
    ensures at.count == 0 ==>
              ScanState(subs, firstPack, packSizes, before, after, first, fileBlock[n := None], spans, at, n + 1)
    ensures at.count > 0 ==>
              ScanState(subs, firstPack, packSizes, before, after, first, fileBlock[n := Some(at.block)],
                        Extend(spans, at, n), at, n + 1)
  {
    hide Ordered, Tiled, Filled, SizedAt;
    GivenReached(subs, HasStream(before), first, fileBlock, spans, at, n);
    if at.count == 0 {
      SkipFile(subs, HasStream(before), first, fileBlock, spans, at, n);
      SizedStep(before, after, fileBlock, first, first, firstPack, packSizes, n, None, |spans|);
    } else {
      AddEmpty(subs, HasStream(before), first, fileBlock, spans, at, n);
      SizedStep(before, after, fileBlock, first, first, firstPack, packSizes, n, Some(at.block), |spans|);
    }
  }

  /** A file with a stream, once its block has been entered. `first` is from before entering, `entered` from after. */
  lemma ScanAdds(
    subs: seq<nat>, firstPack: seq<nat>, packSizes: seq<u64>, before: seq<Entry>, after: seq<Entry>, first: seq<nat>,
    entered: seq<nat>, fileBlock: seq<Option<nat>>, spans: seq<Span>, at: Cursor, n: nat, reached: nat)
    requires |firstPack| == |subs| && n < |before| && at.block < |subs| && subs[at.block] > 0
    requires MapState(subs, HasStream(before), entered, fileBlock, spans, at, n)
    requires Sized(before, after, fileBlock, first, firstPack, packSizes, n) && after[n].hasStream
    requires SameBelow(first, entered, reached) && Untouched(entered, at.block + 1)
    requires forall j | 0 <= j < n && fileBlock[j].Some? :: fileBlock[j].value < reached
    requires at.count == 0 ==> entered[at.block] == n
    ensures var given := fileBlock[n := Some(at.block)];
            var next := Extend(spans, at, n);
            && (entered[at.block] == n <==> at.count == 0)
            && (at.count > 0 ==>
                  ScanState(subs, firstPack, packSizes, before, after, entered, given, next, Advance(at, subs), n + 1))
            && (at.count == 0 && firstPack[at.block] < |packSizes| ==>
                  ScanState(subs, firstPack, packSizes, before,
                            after[n := after[n].(compressedSize := packSizes[firstPack[at.block]])],
                            entered, given, next, Advance(at, subs), n + 1))
  {
    hide Ordered, Tiled, Filled, SizedAt;
    AddStream(subs, HasStream(before), entered, fileBlock, spans, at, n);
    SizedStep(before, after, fileBlock, first, entered, firstPack, packSizes, n, Some(at.block), reached);
  }

  lemma TooFew(streams: seq<bool>, n: nat)
    requires n < |streams| && streams[n]
    ensures Streamed(streams, n) < Streamed(streams, |streams|)
  {
    StreamedMonotone(streams, n + 1, |streams|);
  }

  /** Gives the files to the blocks in order. */
  method MapFiles(blocks: seq<Folder>, packSizes: seq<u64>, firstPack: seq<nat>, before: seq<Entry>)
    returns (failure: Option<MapError>, files: seq<Entry>, first: seq<nat>, fileBlock: seq<Option<nat>>,
             ghost spans: seq<Span>, ghost end: Cursor)
    requires |firstPack| == |blocks|
    ensures HasStream(files) == HasStream(before)
    ensures failure.None? ==>
              ScanState(Subs(blocks), firstPack, packSizes, before, files, first, fileBlock, spans, end, |before|)
    ensures failure.Some? ==> failure.value.TooFewBlocks? || failure.value.NoPackStream?
    ensures failure == Some(TooFewBlocks) ==>
              Streamed(HasStream(before), |before|) > PrefixSum(Subs(blocks), |blocks|)
    ensures failure == Some(NoPackStream) ==>
              exists b :: 0 <= b < |blocks| && blocks[b].numSubStreams > 0 && firstPack[b] >= |packSizes|
                && PrefixSum(Subs(blocks), b) < Streamed(HasStream(before), |before|)
  {
    hide Ordered, Tiled, Filled, Holds, Sized;
    ghost var subs, streams := Subs(blocks), HasStream(before);
    files, failure, spans := before, None, [];
    first, fileBlock := seq(|blocks|, _ => 0), seq(|files|, _ => None);
    var block: nat, count: nat := 0, 0;
    end := Cursor(0, 0);
    ScanStarts(subs, firstPack, packSizes, before, first, fileBlock);
    for i := 0 to |files|
      invariant |files| == |before| && HasStream(files) == streams
      invariant end == Cursor(block, count)
      invariant ScanState(subs, firstPack, packSizes, before, files, first, fileBlock, spans, end, i)
    {
      if !files[i].hasStream {
        ScanSkips(subs, firstPack, packSizes, before, files, first, fileBlock, spans, end, i);
        if count == 0 {
          fileBlock := fileBlock[i := None];
        } else {
          fileBlock, spans := fileBlock[i := Some(block)], Extend(spans, end, i);
        }
        continue;
      }
      ghost var earlier, reached := first, |spans|;
      GivenReached(subs, streams, first, fileBlock, spans, end, i);
      if count == 0 {
        first, block, spans := EnterBlock(Subs(blocks), streams, first, fileBlock, spans, block, i);
        if block >= |blocks| {
          TooFew(streams, i);
          failure := Some(TooFewBlocks);
          return;
        }
        end := Cursor(block, 0);
      }
      ScanAdds(subs, firstPack, packSizes, before, files, earlier, first, fileBlock, spans, end, i, reached);
      fileBlock, spans := fileBlock[i := Some(block)], Extend(spans, end, i);
      if first[block] == i {
        if firstPack[block] >= |packSizes| {
          TooFew(streams, i);
          failure := Some(NoPackStream);
          return;
        }
        files := files[i := files[i].(compressedSize := packSizes[firstPack[block]])];
      }
      end := Advance(end, subs);
      count := count + 1;
      if count >= blocks[block].numSubStreams {
        block, count := block + 1, 0;
      }
    }
  }

  lemma ScanStarts(
    subs: seq<nat>, firstPack: seq<nat>, packSizes: seq<u64>, before: seq<Entry>, first: seq<nat>,
    fileBlock: seq<Option<nat>>)
    requires |firstPack| == |first| == |subs| && |fileBlock| == |before|
    requires forall b | 0 <= b < |first| :: first[b] == 0
    ensures ScanState(subs, firstPack, packSizes, before, before, first, fileBlock, [], Cursor(0, 0), 0)
  {
  }

  // ---------------------------------------------------------------------
  // The archive
  // ---------------------------------------------------------------------

  predicate SpansFit(first: seq<nat>, subs: seq<nat>, files: nat, n: nat) {
    n <= |first| == |subs| && forall b | 0 <= b < n :: first[b] + subs[b] <= files
  }

  /** A span that runs past the last file needs more streamed files than there are. */
  lemma SpanTooLong(
    subs: seq<nat>, streams: seq<bool>, first: seq<nat>, fileBlock: seq<Option<nat>>, spans: seq<Span>, at: Cursor,
    b: nat)
    requires MapState(subs, streams, first, fileBlock, spans, at, |streams|) && Untouched(first, |spans|)
    requires b < |subs| && first[b] + subs[b] > |streams|
    ensures Streamed(streams, |streams|) < PrefixSum(subs, |subs|)
  {
    hide Ordered, Tiled;
    if b < at.block {
      assert Full(streams, spans[b], subs[b]);
      StreamedMonotone(streams, spans[b].lo, spans[b].hi);
    }
    assert subs[b] > 0;
    PrefixSumMonotone(subs, at.block, b);
    PrefixSumMonotone(subs, b + 1, |subs|);
    assert PrefixSum(subs, b + 1) == PrefixSum(subs, b) + subs[b];
    if b > at.block {
      PrefixSumMonotone(subs, at.block + 1, b);
      assert PrefixSum(subs, at.block + 1) == PrefixSum(subs, at.block) + subs[at.block];
    }
  }

  /** A block without sub-streams is looked for no further than where the files end. */
  lemma SpanTooLongTaken(
    subs: seq<nat>, streams: seq<bool>, first: seq<nat>, fileBlock: seq<Option<nat>>, spans: seq<Span>, at: Cursor,
    b: nat)
    requires MapState(subs, streams, first, fileBlock, spans, at, |streams|) && Untouched(first, |spans|)
    requires b < |subs| && first[b] + subs[b] > |streams|
    ensures subs[b] > 0
  {
    hide Tiled, Filled, Holds;
  }

  method CheckSpans(blocks: seq<Folder>, first: seq<nat>, files: nat)
    returns (failure: Option<MapError>, ghost bad: nat)
    requires |first| == |blocks| && files < U64_BOUND
    ensures failure.None? ==> SpansFit(first, Subs(blocks), files, |blocks|)
    ensures failure.Some? ==>
              && bad < |blocks| && first[bad] + blocks[bad].numSubStreams > files
              && failure.value == if first[bad] + blocks[bad].numSubStreams >= U64_BOUND then FileSpanOverflow
                 else TooFewFiles
  {
    bad, failure := 0, None;
    for b := 0 to |blocks|
      invariant SpansFit(first, Subs(blocks), files, b)
    {
      var end := first[b] + blocks[b].numSubStreams;
      if end >= U64_BOUND {
        return Some(FileSpanOverflow), b;
      }
      if end > files {
        return Some(TooFewFiles), b;
      }
    }
  }

  /** Where streamed file number `k` stands among the first `n` files. */
  function NthBelow(streams: seq<bool>, n: nat, k: nat): (j: nat)
    requires n <= |streams| && k < Streamed(streams, n)
    ensures j < n && streams[j] && Streamed(streams, j) == k
  {
    if Streamed(streams, n - 1) == k then n - 1 else NthBelow(streams, n - 1, k)
  }

  /** There is only one streamed file of each number. */
  lemma NthIs(streams: seq<bool>, j: nat)
    requires j < |streams| && streams[j]
    ensures Streamed(streams, j) < Streamed(streams, |streams|)
    ensures NthBelow(streams, |streams|, Streamed(streams, j)) == j
  {
    StreamedMonotone(streams, j + 1, |streams|);
    var i := NthBelow(streams, |streams|, Streamed(streams, j));
    if i < j {
      StreamedMonotone(streams, i + 1, j);
    } else if j < i {
      StreamedMonotone(streams, j + 1, i);
    }
  }

  /**
   * Where readers look for the files of block `b`: at the streamed file behind those of the blocks before, or at the
   * first file when there is none.
   */
  function FirstFile(subs: seq<nat>, streams: seq<bool>, b: nat): nat
    requires b < |subs|
  {
    if PrefixSum(subs, b) < Streamed(streams, |streams|) then NthBelow(streams, |streams|, PrefixSum(subs, b)) else 0
  }

  lemma FirstFileIs(
    subs: seq<nat>, streams: seq<bool>, first: seq<nat>, fileBlock: seq<Option<nat>>, spans: seq<Span>, at: Cursor,
    b: nat)
    requires MapState(subs, streams, first, fileBlock, spans, at, |streams|) && Untouched(first, |spans|)
    requires b < |subs| && subs[b] > 0
    ensures first[b] == FirstFile(subs, streams, b)
  {
    hide Ordered, Tiled;
    if b < at.block {
      SpanStart(subs, streams, fileBlock, spans, at.block, b);
      assert Full(streams, spans[b], subs[b]);
      NthIs(streams, spans[b].lo);
    } else if b < |spans| {
      NthIs(streams, spans[b].lo);
    } else {
      NotReached(subs, streams, first, fileBlock, spans, at, b);
    }
  }

  /** For a block that no file was given to there are no streamed files. */
  lemma NotReached(
    subs: seq<nat>, streams: seq<bool>, first: seq<nat>, fileBlock: seq<Option<nat>>, spans: seq<Span>, at: Cursor,
    b: nat)
    requires MapState(subs, streams, first, fileBlock, spans, at, |streams|) && |spans| <= b < |subs|
    ensures Streamed(streams, |streams|) <= PrefixSum(subs, b)
  {
    hide Ordered, Tiled, Filled, Holds;
    PrefixSumMonotone(subs, at.block, b);
    if at.count > 0 {
      PrefixSumMonotone(subs, at.block + 1, b);
      assert PrefixSum(subs, at.block + 1) == PrefixSum(subs, at.block) + subs[at.block];
    }
  }

  /** The files that readers look at for a block exist, and its packed stream does if a file needs it. */
  ghost predicate BlockFits(blocks: seq<Folder>, packSizes: seq<u64>, streams: seq<bool>, b: nat)
    requires b < |blocks|
  {
    && FirstFile(Subs(blocks), streams, b) + blocks[b].numSubStreams <= |streams|
    && (PrefixSum(Subs(blocks), b) < Streamed(streams, |streams|) ==> PrefixSum(Packs(blocks), b) < |packSizes|)
  }

  /** The counts of an archive fit together. */
  ghost predicate Mappable(blocks: seq<Folder>, packSizes: seq<u64>, files: seq<Entry>) {
    && PrefixSum(Packs(blocks), |blocks|) <= |packSizes| && PrefixSum(packSizes, |packSizes|) < U64_BOUND
    && Streamed(HasStream(files), |files|) <= PrefixSum(Subs(blocks), |blocks|)
    && forall b | 0 <= b < |blocks| && blocks[b].numSubStreams > 0 :: BlockFits(blocks, packSizes, HasStream(files), b)
  }

  /** What a finished map says of the archive, whose entries were `before` and are `after`. */
  ghost predicate IsStreamMap(
    blocks: seq<Folder>, packSizes: seq<u64>, before: seq<Entry>, after: seq<Entry>, m: StreamMap)
  {
    var subs := Subs(blocks);
    && |m.blockFirstPack| == |m.blockFirstFile| == |blocks| && |m.fileBlock| == |before|
    && (forall b | 0 <= b < |blocks| :: PacksAt(m.blockFirstPack, Packs(blocks), b, |packSizes|))
    && |m.packOffsets| == |packSizes|
    && (forall i | 0 <= i < |packSizes| :: m.packOffsets[i] == PrefixSum(packSizes, i))
    && (exists end: Cursor :: MapsFiles(subs, HasStream(before), m.blockFirstFile, m.fileBlock, end))
    && Sized(before, after, m.fileBlock, m.blockFirstFile, m.blockFirstPack, packSizes, |before|)
    && SpansFit(m.blockFirstFile, subs, |before|, |blocks|)
    && (forall b | 0 <= b < |blocks| && subs[b] > 0 :: m.blockFirstFile[b] == FirstFile(subs, HasStream(before), b))
  }

  /** Why mapping fails. */
  ghost predicate Explains(error: MapError, blocks: seq<Folder>, packSizes: seq<u64>, files: seq<Entry>) {
    var streamed, declared := Streamed(HasStream(files), |files|), PrefixSum(Subs(blocks), |blocks|);
    match error
    case PackStreamsMissing => PrefixSum(Packs(blocks), |blocks|) > |packSizes|
    case PackOffsetOverflow => PrefixSum(packSizes, |packSizes|) >= U64_BOUND
    case TooFewBlocks => streamed > declared
    case NoPackStream =>
      exists b ::
        && 0 <= b < |blocks| && blocks[b].numSubStreams > 0 && PrefixSum(Subs(blocks), b) < streamed
        && PrefixSum(Packs(blocks), b) >= |packSizes|
    case FileSpanOverflow | TooFewFiles =>
      && streamed < declared
      && exists b ::
           && 0 <= b < |blocks| && blocks[b].numSubStreams > 0
           && FirstFile(Subs(blocks), HasStream(files), b) + blocks[b].numSubStreams > |files|
  }

  class Archive {
    const blocks: seq<Folder>
    const packSizes: seq<u64>
    var files: seq<Entry>
    var streamMap: StreamMap

    constructor (blocks: seq<Folder>, packSizes: seq<u64>, files: seq<Entry>)
      ensures this.blocks == blocks && this.packSizes == packSizes && this.files == files
    {
      this.blocks, this.packSizes, this.files := blocks, packSizes, files;
      streamMap := StreamMap([], [], [], []);
    }

    /** Builds the stream map, or says why the archive's counts do not fit together. */
    method CalculateStreamMap() returns (failure: Option<MapError>)
      requires |files| < U64_BOUND
      modifies this
      ensures HasStream(files) == HasStream(old(files))
      ensures failure.None? ==> IsStreamMap(blocks, packSizes, old(files), files, streamMap)
      ensures failure.Some? ==> streamMap == old(streamMap) && Explains(failure.value, blocks, packSizes, old(files))
      ensures failure.None? <==> Mappable(blocks, packSizes, old(files))
    {
      hide MapState, Sized, ScanState, FirstFile, MapsFiles, Streamed, PrefixSum, Given;
      var packs := MapPackStreams(blocks, |packSizes|);
      if packs.Err? {
        return Some(packs.error);
      }
      var offsets := MapPackOffsets(packSizes);
      if offsets.Err? {
        return Some(offsets.error);
      }
      ghost var before := files;
      var error, sized, first, fileBlock;
      ghost var spans, end;
      error, sized, first, fileBlock, spans, end := MapFiles(blocks, packSizes, packs.value, files);
      files := sized;
      if error.Some? {
        if error.value.NoPackStream? {
          ghost var b: nat :| b < |blocks| && blocks[b].numSubStreams > 0 && packs.value[b] >= |packSizes|
                              && PrefixSum(Subs(blocks), b) < Streamed(HasStream(before), |before|);
          assert PacksAt(packs.value, Packs(blocks), b, |packSizes|);
        }
        return error;
      }
      ScanDone(Subs(blocks), packs.value, packSizes, before, files, first, fileBlock, spans, end);
      ScanFits(Subs(blocks), packs.value, packSizes, before, files, first, fileBlock, spans, end);
      ghost var bad;
      error, bad := CheckSpans(blocks, first, |files|);
      if error.Some? {
        ScanTooLong(Subs(blocks), packs.value, packSizes, before, files, first, fileBlock, spans, end, bad);
        return error;
      }
      MapFits(blocks, packSizes, before, packs.value, first);
      streamMap := StreamMap(packs.value, offsets.value, first, fileBlock);
      failure := None;
    }
  }

  lemma MapFits(blocks: seq<Folder>, packSizes: seq<u64>, files: seq<Entry>, firstPack: seq<nat>, first: seq<nat>)
    requires |firstPack| == |first| == |blocks| && PrefixSum(Packs(blocks), |blocks|) <= |packSizes|
    requires PrefixSum(packSizes, |packSizes|) < U64_BOUND
    requires Streamed(HasStream(files), |files|) <= PrefixSum(Subs(blocks), |blocks|)
    requires forall b | 0 <= b < |blocks| :: PacksAt(firstPack, Packs(blocks), b, |packSizes|)
    requires SpansFit(first, Subs(blocks), |files|, |blocks|)
    requires forall b | 0 <= b < |blocks| && Subs(blocks)[b] > 0 ::
               first[b] == FirstFile(Subs(blocks), HasStream(files), b)
    requires forall b | 0 <= b < |blocks| && Subs(blocks)[b] > 0 ::
               PrefixSum(Subs(blocks), b) < Streamed(HasStream(files), |files|) ==> firstPack[b] < |packSizes|
    ensures Mappable(blocks, packSizes, files)
  {
    hide FirstFile, Streamed, PrefixSum;
    forall b | 0 <= b < |blocks| && blocks[b].numSubStreams > 0
      ensures BlockFits(blocks, packSizes, HasStream(files), b)
    {
      assert Subs(blocks)[b] == blocks[b].numSubStreams;
      assert PacksAt(firstPack, Packs(blocks), b, |packSizes|);
      assert first[b] + Subs(blocks)[b] <= |files|;
    }
  }

  lemma ScanDone(
    subs: seq<nat>, firstPack: seq<nat>, packSizes: seq<u64>, before: seq<Entry>, after: seq<Entry>, first: seq<nat>,
    fileBlock: seq<Option<nat>>, spans: seq<Span>, end: Cursor)
    requires ScanState(subs, firstPack, packSizes, before, after, first, fileBlock, spans, end, |before|)
    ensures |first| == |subs| && |fileBlock| == |before| == |after|
    ensures MapsFiles(subs, HasStream(before), first, fileBlock, end)
    ensures Sized(before, after, fileBlock, first, firstPack, packSizes, |before|)
  {
    hide Ordered, Tiled, Filled, Holds, SizedAt;
  }

  lemma ScanFits(
    subs: seq<nat>, firstPack: seq<nat>, packSizes: seq<u64>, before: seq<Entry>, after: seq<Entry>, first: seq<nat>,
    fileBlock: seq<Option<nat>>, spans: seq<Span>, end: Cursor)
    requires ScanState(subs, firstPack, packSizes, before, after, first, fileBlock, spans, end, |before|)
    ensures Streamed(HasStream(before), |before|) <= PrefixSum(subs, |subs|) && |first| == |subs| == |firstPack|
    ensures forall b | 0 <= b < |subs| && subs[b] > 0 :: first[b] == FirstFile(subs, HasStream(before), b)
    ensures forall b | 0 <= b < |subs| && subs[b] > 0 ::
              PrefixSum(subs, b) < Streamed(HasStream(before), |before|) ==> firstPack[b] < |packSizes|
  {
    hide MapState, Sized, Streamed, PrefixSum, FirstFile, Untouched;
    assert |firstPack| == |subs|;
    ScanSizes(subs, firstPack, packSizes, before, after, first, fileBlock, spans, end);
    AllCounted(subs, HasStream(before), first, fileBlock, spans, end);
    hide ScanState;
    forall b | 0 <= b < |subs| && subs[b] > 0
      ensures first[b] == FirstFile(subs, HasStream(before), b)
      ensures PrefixSum(subs, b) < Streamed(HasStream(before), |before|) ==> firstPack[b] < |packSizes|
    {
      ScanBlockFits(subs, firstPack, packSizes, before, after, first, fileBlock, spans, end, b);
    }
  }

  lemma ScanSizes(
    subs: seq<nat>, firstPack: seq<nat>, packSizes: seq<u64>, before: seq<Entry>, after: seq<Entry>, first: seq<nat>,
    fileBlock: seq<Option<nat>>, spans: seq<Span>, end: Cursor)
    requires ScanState(subs, firstPack, packSizes, before, after, first, fileBlock, spans, end, |before|)
    ensures |first| == |subs| == |firstPack|
  {
    hide Ordered, Tiled, Filled, Holds, Sized;
  }

  lemma ScanBlockFits(
    subs: seq<nat>, firstPack: seq<nat>, packSizes: seq<u64>, before: seq<Entry>, after: seq<Entry>, first: seq<nat>,
    fileBlock: seq<Option<nat>>, spans: seq<Span>, end: Cursor, b: nat)
    requires ScanState(subs, firstPack, packSizes, before, after, first, fileBlock, spans, end, |before|)
    requires |first| == |subs| == |firstPack| && b < |subs| && subs[b] > 0
    ensures first[b] == FirstFile(subs, HasStream(before), b)
    ensures PrefixSum(subs, b) < Streamed(HasStream(before), |before|) ==> firstPack[b] < |packSizes|
  {
    hide MapState, Sized, Streamed, PrefixSum, FirstFile, Untouched;
    FirstFileIs(subs, HasStream(before), first, fileBlock, spans, end, b);
    if PrefixSum(subs, b) < Streamed(HasStream(before), |before|) {
      PackNeeded(subs, firstPack, packSizes, before, after, first, fileBlock, spans, end, b);
    }
  }

  lemma AllCounted(
    subs: seq<nat>, streams: seq<bool>, first: seq<nat>, fileBlock: seq<Option<nat>>, spans: seq<Span>, at: Cursor)
    requires MapState(subs, streams, first, fileBlock, spans, at, |streams|)
    ensures Streamed(streams, |streams|) <= PrefixSum(subs, |subs|)
  {
    hide Ordered, Tiled, Filled, Holds;
    PrefixSumMonotone(subs, at.block, |subs|);
    if at.count > 0 {
      PrefixSumMonotone(subs, at.block + 1, |subs|);
      assert PrefixSum(subs, at.block + 1) == PrefixSum(subs, at.block) + subs[at.block];
    }
  }

  /** A block whose files there are has its first packed stream, whose size its first file was given. */
  lemma PackNeeded(
    subs: seq<nat>, firstPack: seq<nat>, packSizes: seq<u64>, before: seq<Entry>, after: seq<Entry>, first: seq<nat>,
    fileBlock: seq<Option<nat>>, spans: seq<Span>, end: Cursor, b: nat)
    requires ScanState(subs, firstPack, packSizes, before, after, first, fileBlock, spans, end, |before|)
    requires b < |subs| && subs[b] > 0 && PrefixSum(subs, b) < Streamed(HasStream(before), |before|)
    ensures firstPack[b] < |packSizes|
  {
    var streams := HasStream(before);
    var j := FirstFile(subs, streams, b);
    FirstFileIs(subs, streams, first, fileBlock, spans, end, b);
    HeadGiven(subs, streams, first, fileBlock, spans, end, b);
    hide MapState;
    assert Heads(fileBlock, first, j);
    assert SizedAt(before, after, fileBlock, first, firstPack, packSizes, j);
  }

  lemma HeadGiven(
    subs: seq<nat>, streams: seq<bool>, first: seq<nat>, fileBlock: seq<Option<nat>>, spans: seq<Span>, at: Cursor,
    b: nat)
    requires MapState(subs, streams, first, fileBlock, spans, at, |streams|)
    requires b < |subs| && subs[b] > 0 && PrefixSum(subs, b) < Streamed(streams, |streams|)
    ensures b < |spans| && first[b] < |streams| && fileBlock[first[b]] == Some(b)
  {
    if b >= |spans| {
      NotReached(subs, streams, first, fileBlock, spans, at, b);
    }
    SpanNotEmpty(subs, streams, first, fileBlock, spans, at, b);
    hide Ordered, Filled, Holds, Streamed, PrefixSum;
    assert first[b] == spans[b].lo && InSpan(spans, b, spans[b].lo);
  }

  lemma SpanNotEmpty(
    subs: seq<nat>, streams: seq<bool>, first: seq<nat>, fileBlock: seq<Option<nat>>, spans: seq<Span>, at: Cursor,
    b: nat)
    requires MapState(subs, streams, first, fileBlock, spans, at, |streams|)
    requires b < |spans| && b < |subs| && subs[b] > 0
    ensures spans[b].lo < spans[b].hi <= |streams|
  {
    hide Ordered, Tiled, Streamed, PrefixSum;
    assert b < at.block ==> Full(streams, spans[b], subs[b]);
  }

  lemma ScanTooLong(
    subs: seq<nat>, firstPack: seq<nat>, packSizes: seq<u64>, before: seq<Entry>, after: seq<Entry>, first: seq<nat>,
    fileBlock: seq<Option<nat>>, spans: seq<Span>, end: Cursor, b: nat)
    requires ScanState(subs, firstPack, packSizes, before, after, first, fileBlock, spans, end, |before|)
    requires b < |first| == |subs| && first[b] + subs[b] > |before|
    ensures Streamed(HasStream(before), |before|) < PrefixSum(subs, |subs|)
    ensures subs[b] > 0 && FirstFile(subs, HasStream(before), b) == first[b]
  {
    hide Ordered, Tiled, Filled, Holds, Sized;
    SpanTooLong(subs, HasStream(before), first, fileBlock, spans, end, b);
    SpanTooLongTaken(subs, HasStream(before), first, fileBlock, spans, end, b);
    FirstFileIs(subs, HasStream(before), first, fileBlock, spans, end, b);
  }

  /** Every file with a stream has a block, and blocks are used in order. */
  lemma MapOrdersFiles(blocks: seq<Folder>, packSizes: seq<u64>, before: seq<Entry>, after: seq<Entry>, m: StreamMap)
    requires IsStreamMap(blocks, packSizes, before, after, m)
    ensures forall j | 0 <= j < |before| && before[j].hasStream :: m.fileBlock[j].Some?
    ensures forall i, j | 0 <= i < j < |before| && m.fileBlock[i].Some? && m.fileBlock[j].Some? ::
              m.fileBlock[i].value <= m.fileBlock[j].value
  {
    hide Sized, SpansFit, PacksAt;
    var subs, streams := Subs(blocks), HasStream(before);
    var end: Cursor :| MapsFiles(subs, streams, m.blockFirstFile, m.fileBlock, end);
    hide MapsFiles;
    forall i, j | 0 <= i < j < |before| && m.fileBlock[i].Some? && m.fileBlock[j].Some?
      ensures m.fileBlock[i].value <= m.fileBlock[j].value
    {
      BlocksNeverDecrease(subs, streams, m.blockFirstFile, m.fileBlock, end, i, j);
    }
    StreamsMapped(subs, streams, m.blockFirstFile, m.fileBlock, end);
  }

  lemma StreamsMapped(
    subs: seq<nat>, streams: seq<bool>, first: seq<nat>, fileBlock: seq<Option<nat>>, at: Cursor)
    requires MapsFiles(subs, streams, first, fileBlock, at)
    ensures |fileBlock| == |streams| && forall j | 0 <= j < |streams| && streams[j] :: fileBlock[j].Some?
  {
    hide Ordered, Filled, Holds;
  }

  /** How many of the archive's streamed files are left for block `b`, and no more than it takes. */
  function Share(subs: seq<nat>, streams: seq<bool>, b: nat): nat
    requires b < |subs|
  {
    var before, all := PrefixSum(subs, b), Streamed(streams, |streams|);
    if all <= before then 0 else if all - before < subs[b] then all - before else subs[b]
  }

  /** An empty entry lies between two streamed files of block `b`. */
  ghost predicate EmptyAmong(subs: seq<nat>, streams: seq<bool>, b: nat)
    requires b < |subs|
  {
    exists j: nat :: j < |streams| && !streams[j] && PrefixSum(subs, b) < Streamed(streams, j) < PrefixSum(subs, b + 1)
  }

  /**
   * Every block gets its share of the streamed files, in order. The span readers use for it is exactly those files if
   * and only if they are as many as the block has sub-streams, and no empty entry lies among them.
   */
  lemma MapFillsBlocks(
    blocks: seq<Folder>, packSizes: seq<u64>, before: seq<Entry>, after: seq<Entry>, m: StreamMap, b: nat)
    requires IsStreamMap(blocks, packSizes, before, after, m) && b < |blocks|
    ensures var subs, streams := Subs(blocks), HasStream(before);
            && StreamsGiven(streams, m.fileBlock, b, |before|) == Share(subs, streams, b)
            && SpanExact(streams, m.blockFirstFile[b], subs[b], m.fileBlock, b)
               == (Share(subs, streams, b) == subs[b] && !EmptyAmong(subs, streams, b))
  {
    hide Sized, PacksAt, SpanExact, EmptyInside, EmptyAmong;
    var subs, streams := Subs(blocks), HasStream(before);
    var end: Cursor :| MapsFiles(subs, streams, m.blockFirstFile, m.fileBlock, end);
    hide MapsFiles;
    PassedBlockFull(subs, streams, m.blockFirstFile, m.fileBlock, end, b);
    EndShares(subs, streams, m.blockFirstFile, m.fileBlock, end, b);
    if b < end.block {
      SpanExactly(subs, streams, m.blockFirstFile, m.fileBlock, end, b);
      EmptyInsideAmong(subs, streams, m.blockFirstFile, m.fileBlock, end, b);
    } else {
      assert m.blockFirstFile[b] + subs[b] <= |before|;
      UnreachedSpan(subs, streams, m.blockFirstFile, m.fileBlock, end, b);
    }
  }

  lemma EndShares(
    subs: seq<nat>, streams: seq<bool>, first: seq<nat>, fileBlock: seq<Option<nat>>, end: Cursor, b: nat)
    requires MapsFiles(subs, streams, first, fileBlock, end) && b < |subs|
    ensures Share(subs, streams, b) == if b < end.block then subs[b] else if b == end.block then end.count else 0
    ensures end.block <= |subs| && (b == end.block && subs[b] > 0 ==> end.count < subs[b])
  {
    hide Ordered, Tiled, Filled, Holds;
    var spans :| MapState(subs, streams, first, fileBlock, spans, end, |streams|);
    if b < end.block {
      PrefixSumMonotone(subs, b + 1, end.block);
    } else if b > end.block {
      PrefixSumMonotone(subs, end.block + 1, b);
      assert PrefixSum(subs, end.block + 1) == PrefixSum(subs, end.block) + subs[end.block];
    }
  }

  /** A block that the files do not fill has a span with files that are not its own, unless it takes none. */
  lemma UnreachedSpan(
    subs: seq<nat>, streams: seq<bool>, first: seq<nat>, fileBlock: seq<Option<nat>>, end: Cursor, b: nat)
    requires MapsFiles(subs, streams, first, fileBlock, end) && end.block <= b < |subs| == |first|
    requires first[b] + subs[b] <= |streams|
             && StreamsGiven(streams, fileBlock, b, |streams|) == Share(subs, streams, b)
    ensures |fileBlock| == |streams|
    ensures SpanExact(streams, first[b], subs[b], fileBlock, b)
       <==> Share(subs, streams, b) == subs[b] && !EmptyAmong(subs, streams, b)
  {
    EndShares(subs, streams, first, fileBlock, end, b);
    var spans :| MapState(subs, streams, first, fileBlock, spans, end, |streams|);
    hide MapState;
    if SpanExact(streams, first[b], subs[b], fileBlock, b) {
      ExactCounts(streams, first[b], subs[b], fileBlock, b, |streams|);
    }
    if subs[b] == 0 {
      assert PrefixSum(subs, b + 1) == PrefixSum(subs, b);
      NoneGiven(streams, fileBlock, b, |streams|);
    }
  }

  lemma {:induction false} ExactCounts(
    streams: seq<bool>, first: nat, count: nat, fileBlock: seq<Option<nat>>, b: nat, n: nat)
    requires |fileBlock| == |streams| && n <= |streams| && SpanExact(streams, first, count, fileBlock, b)
    ensures StreamsGiven(streams, fileBlock, b, n)
         == if n <= first then 0 else if n <= first + count then n - first else count
  {
    if n > 0 {
      ExactCounts(streams, first, count, fileBlock, b, n - 1);
    }
  }

  lemma {:induction false} NoneGiven(streams: seq<bool>, fileBlock: seq<Option<nat>>, b: nat, n: nat)
    requires |fileBlock| == |streams| && n <= |streams| && StreamsGiven(streams, fileBlock, b, n) == 0
    ensures forall j | 0 <= j < n :: !(streams[j] && Given(fileBlock, j, b))
  {
    if n > 0 {
      NoneGiven(streams, fileBlock, b, n - 1);
    }
  }

  /** No file with a stream lies between spans. */
  lemma {:induction false} NoStreamBetween(
    streams: seq<bool>, fileBlock: seq<Option<nat>>, spans: seq<Span>, b: nat, lo: nat, hi: nat)
    requires Tiled(streams, fileBlock, spans, |streams|) && Ordered(spans, |streams|) && b < |spans|
    requires lo <= hi <= spans[b].lo && (b == 0 || spans[b - 1].hi <= lo)
    ensures Streamed(streams, hi) == Streamed(streams, lo)
  {
    if lo < hi {
      NoStreamBetween(streams, fileBlock, spans, b, lo, hi - 1);
      assert !streams[hi - 1];
    }
  }

  /** A block's first file stands behind as many streamed files as the blocks before it take. */
  lemma {:induction false} SpanStart(
    subs: seq<nat>, streams: seq<bool>, fileBlock: seq<Option<nat>>, spans: seq<Span>, done: nat, b: nat)
    requires Tiled(streams, fileBlock, spans, |streams|) && Ordered(spans, |streams|)
    requires Filled(subs, streams, spans, done) && b < done
    ensures b < |spans| && b < |subs| && spans[b].lo <= spans[b].hi <= |streams|
    ensures Streamed(streams, spans[b].lo) == PrefixSum(subs, b)
            && Streamed(streams, spans[b].hi) == PrefixSum(subs, b + 1)
  {
    hide InSpan;
    assert Full(streams, spans[b], subs[b]) && (b > 0 ==> spans[b - 1].hi <= spans[b].lo);
    hide Ordered, Tiled, Filled;
    if b == 0 {
      NoStreamBetween(streams, fileBlock, spans, b, 0, spans[b].lo);
    } else {
      SpanStart(subs, streams, fileBlock, spans, done, b - 1);
      NoStreamBetween(streams, fileBlock, spans, b, spans[b - 1].hi, spans[b].lo);
    }
  }

  /**
   * In a block that files have moved past, an entry lies among the streamed files exactly if it is given to the
   * block.
   */
  lemma EmptyInsideAmong(
    subs: seq<nat>, streams: seq<bool>, first: seq<nat>, fileBlock: seq<Option<nat>>, end: Cursor, b: nat)
    requires MapsFiles(subs, streams, first, fileBlock, end) && b < end.block && b < |subs|
    ensures EmptyInside(streams, fileBlock, b) <==> EmptyAmong(subs, streams, b)
  {
    hide Ordered, Tiled;
    var spans :| MapState(subs, streams, first, fileBlock, spans, end, |streams|);
    SpanStart(subs, streams, fileBlock, spans, end.block, b);
    assert Full(streams, spans[b], subs[b]);
    hide MapState, Filled, PrefixSum;
    forall j: nat | j < |streams| && !streams[j]
      ensures Given(fileBlock, j, b) <==> PrefixSum(subs, b) < Streamed(streams, j) < PrefixSum(subs, b + 1)
    {
      SpanFiles(streams, fileBlock, spans, b, j);
      CountedInside(streams, spans[b], subs[b], j);
    }
  }

  lemma CountedInside(streams: seq<bool>, span: Span, count: nat, j: nat)
    requires Full(streams, span, count) && j < |streams| && !streams[j]
    ensures span.lo <= j < span.hi <==> Streamed(streams, span.lo) < Streamed(streams, j) < Streamed(streams, span.hi)
  {
    hide Streamed;
    if count > 0 {
      StreamedStep(streams, span.lo);
      StreamedStep(streams, span.hi - 1);
    }
    if j <= span.lo {
      StreamedMonotone(streams, j, span.lo);
    } else if j >= span.hi {
      StreamedMonotone(streams, span.hi, j);
    } else {
      StreamedMonotone(streams, span.lo + 1, j);
      StreamedMonotone(streams, j, span.hi - 1);
    }
  }

  // ---------------------------------------------------------------------
  // An empty entry among the files of a block
  // ---------------------------------------------------------------------

  /** Two files with a stream, and an empty entry between them. */
  const AROUND_EMPTY: seq<Entry> := [Entry(true, 0), Entry(false, 0), Entry(true, 0)]

  /**
   * A block with both streams gets all three entries, the empty one included. Its span is the first two, so it has
   * the empty entry in it and leaves the block's second file out.
   */
  lemma SpanAroundEmpty(after: seq<Entry>, m: StreamMap)
    requires IsStreamMap([Folder(1, 2)], [5], AROUND_EMPTY, after, m)
    ensures m.blockFirstFile == [0] && m.fileBlock == [Some(0), Some(0), Some(0)]
    ensures !SpanExact(HasStream(AROUND_EMPTY), m.blockFirstFile[0], 2, m.fileBlock, 0)
  {
    hide Filled;
    var blocks := [Folder(1, 2)];
    var subs, streams := Subs(blocks), HasStream(AROUND_EMPTY);
    hide Sized, PacksAt, SpansFit, Tiled, Ordered, Full, Holds, Streamed, PrefixSum;
    var end: Cursor :| MapsFiles(subs, streams, m.blockFirstFile, m.fileBlock, end);
    var spans :| MapState(subs, streams, m.blockFirstFile, m.fileBlock, spans, end, 3);
    AroundEmptyCounts();
    FullAroundEmpty(spans[0]);
    TiledAroundEmpty(m.fileBlock, spans);
  }

  lemma FullAroundEmpty(span: Span)
    requires Full(HasStream(AROUND_EMPTY), span, 2)
    ensures span == Span(0, 3)
  {
    AroundEmptyCounts();
    hide Streamed;
    assert span.lo <= 3 && span.hi <= 3;
  }

  lemma TiledAroundEmpty(fileBlock: seq<Option<nat>>, spans: seq<Span>)
    requires Tiled(HasStream(AROUND_EMPTY), fileBlock, spans, 3) && |spans| > 0 && spans[0] == Span(0, 3)
    ensures fileBlock == [Some(0), Some(0), Some(0)]
    ensures !SpanExact(HasStream(AROUND_EMPTY), 0, 2, fileBlock, 0)
  {
    forall j: nat | j < 3
      ensures fileBlock[j] == Some(0)
    {
      assert InSpan(spans, 0, j);
    }
    assert Given(fileBlock, 2, 0);
  }

  lemma AroundEmptyCounts()
    ensures var streams := HasStream(AROUND_EMPTY);
            && Streamed(streams, 0) == 0 && Streamed(streams, 1) == 1
            && Streamed(streams, 2) == 1 && Streamed(streams, 3) == 2
    ensures var subs := Subs([Folder(1, 2)]); PrefixSum(subs, 0) == 0 && PrefixSum(subs, 1) == 2
    ensures PrefixSum(Packs([Folder(1, 2)]), 1) == 1 && PrefixSum([5], 1) == 5
            && PrefixSum(Packs([Folder(1, 2)]), 0) == 0
  {
  }

  /** Such an archive is accepted. */
  method MapAroundEmpty() returns (m: StreamMap)
    ensures m.blockFirstFile == [0] && m.fileBlock == [Some(0), Some(0), Some(0)]
  {
    var archive := new Archive([Folder(1, 2)], [5], AROUND_EMPTY);
    var failure := archive.CalculateStreamMap();
    AroundEmptyCounts();
    assert failure.None? by {
      hide IsStreamMap;
    }
    SpanAroundEmpty(archive.files, archive.streamMap);
    m := archive.streamMap;
  }
}
