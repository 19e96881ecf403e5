/** From the bits of a bzip2 block's symbols to its bytes. */
module BlockDecoding {
  import opened BitReaders
  import opened CanonicalCode
  import opened Common
  import opened HuffmanBuilder
  import opened HuffmanTree
  import opened Permutations

  import BlockReading
  import BlockTransform
  import LinkTable
  import MoveToFront
  import SymbolStage

  /** So many symbols are read with one table before the next selector is taken. */
  const GROUP: nat := 50

  datatype ReadError = NoSelector | BadSelector | BitsTruncated

  /** Symbols that have been read, and the bits they take. */
  datatype Reading = Reading(symbols: seq<nat>, used: nat)

  predicate AllBranches(trees: seq<Tree>) {
    forall t | 0 <= t < |trees| :: trees[t].Branch?
  }

  /** There is a selector for symbol `i`, and a table for the selector. */
  predicate HasTree(trees: seq<Tree>, selectors: seq<nat>, i: nat) {
    i / GROUP < |selectors| && selectors[i / GROUP] < |trees|
  }

  /** The tree that symbol `i` is read with. */
  function TreeFor(trees: seq<Tree>, selectors: seq<nat>, i: nat): (t: Tree)
    requires AllBranches(trees) && HasTree(trees, selectors, i)
    ensures t.Branch?
  {
    trees[selectors[i / GROUP]]
  }

  /** The symbols that bits hold from symbol `i` on, up to the symbol `end`. */
  function SymbolsFrom(trees: seq<Tree>, selectors: seq<nat>, bits: seq<bool>, end: nat, i: nat): Option<Reading>
    requires AllBranches(trees)
    decreases |bits|
  {
    if !HasTree(trees, selectors, i) then None
    else
      var d := DecodeTree(TreeFor(trees, selectors, i), bits);
      if d.value.None? then None
      else if d.value.value == end then Some(Reading([end], d.used))
      else
        BranchUsesBits(TreeFor(trees, selectors, i), bits);
        Behind(d.value.value, d.used, SymbolsFrom(trees, selectors, bits[d.used..], end, i + 1))
  }

  /** One symbol in front of others. */
  function Behind(symbol: nat, used: nat, rest: Option<Reading>): Option<Reading> {
    if rest.None? then None else Some(Reading([symbol] + rest.value.symbols, used + rest.value.used))
  }

  lemma BranchUsesBits(t: Tree, bits: seq<bool>)
    requires t.Branch? && DecodeTree(t, bits).value.Some?
    ensures 0 < DecodeTree(t, bits).used <= |bits|
  {
    DecodeNeedsUsed(t, bits);
  }

  // ---------------------------------------------------------------------
  // Reading
  // ---------------------------------------------------------------------

  /** The tables hold the trees, none of which is deeper than the cache can take. */
  ghost predicate Holds(tables: seq<Table>, trees: seq<Tree>) {
    && |tables| == |trees| && AllBranches(trees)
    && forall t | 0 <= t < |trees| :: Represents(tables[t].nodes, 0, trees[t]) && Depth(trees[t]) <= CACHED_BITS
  }

  /** `symbols` have been read from `whole`, and `rest` is what is read next. */
  ghost predicate Continues(whole: Option<Reading>, symbols: seq<nat>, used: nat, rest: Option<Reading>) {
    whole == if rest.None? then None else Some(Reading(symbols + rest.value.symbols, used + rest.value.used))
  }

  lemma NoMoreSymbols(whole: Option<Reading>, symbols: seq<nat>, used: nat, rest: Option<Reading>)
    requires Continues(whole, symbols, used, rest)
    ensures rest.None? ==> whole.None?
    ensures whole.Some? ==> whole.value.used >= used
  {
  }

  /** One more symbol has been read. */
  lemma ReadOn(
    trees: seq<Tree>, selectors: seq<nat>, bits: seq<bool>, end: nat, whole: Option<Reading>, symbols: seq<nat>,
    used: nat,
    symbol: nat, more: nat)
    requires AllBranches(trees) && HasTree(trees, selectors, |symbols|)
    requires Continues(whole, symbols, used, SymbolsFrom(trees, selectors, bits, end, |symbols|))
    requires DecodeTree(TreeFor(trees, selectors, |symbols|), bits) == Decoded(Some(symbol), more)
    ensures 0 < more <= |bits|
    ensures if symbol == end then whole == Some(Reading(symbols + [symbol], used + more))
            else
              Continues(
                whole, symbols + [symbol], used + more,
                SymbolsFrom(trees, selectors, bits[more..], end, |symbols| + 1))
  {
    hide DecodeTree, TreeFor;
    BranchUsesBits(TreeFor(trees, selectors, |symbols|), bits);
    var rest := SymbolsFrom(trees, selectors, bits[more..], end, |symbols| + 1);
    if symbol != end && rest.Some? {
      assert symbols + ([symbol] + rest.value.symbols) == (symbols + [symbol]) + rest.value.symbols;
    }
  }

  lemma ReadStarts(whole: Option<Reading>)
    ensures Continues(whole, [], 0, whole)
  {
    assert whole.Some? ==> [] + whole.value.symbols == whole.value.symbols;
  }

  lemma BitsBehind(bytes: seq<byte>, start: nat, used: nat)
    requires start + used <= 8 * |bytes|
    ensures BitsFrom(bytes, start)[used..] == BitsFrom(bytes, start + used)
  {
    hide Digits;
  }

  /** The selector for a symbol is that of its group. */
  lemma GroupOf(trees: seq<Tree>, selectors: seq<nat>, group: nat, decoded: nat)
    requires decoded <= GROUP
    ensures var g := if decoded == GROUP then group + 1 else group;
            && (GROUP * group + decoded) / GROUP == g
            && (HasTree(trees, selectors, GROUP * group + decoded) <==> g < |selectors| && selectors[g] < |trees|)
  {
  }

  /** Reads symbol `GROUP * group + decoded`, with the next selector's table if the group is full. */
  method NextSymbol(
    tables: seq<Table>, ghost trees: seq<Tree>, selectors: seq<nat>, group: nat, decoded: nat, reader: BitReader,
    cached: CachedBitReader)
    returns (r: Result<nat, ReadError>, nextGroup: nat, nextDecoded: nat)
    requires Holds(tables, trees) && Synced(reader, cached) && decoded <= GROUP
    requires group < |selectors| && selectors[group] < |tables|
    modifies reader, cached
    ensures old(Standing(reader, cached)) <= 8 * |reader.bytes|
    ensures var i, start := GROUP * group + decoded, old(Standing(reader, cached));
            match r
            case Err(_) => !HasTree(trees, selectors, i) || !EightFollow(reader.bytes, start)
            case Ok(symbol) =>
              && HasTree(trees, selectors, i) && Synced(reader, cached) && start <= Standing(reader, cached)
              && DecodeTree(TreeFor(trees, selectors, i), BitsFrom(reader.bytes, start))
                 == Decoded(Some(symbol), Standing(reader, cached) - start)
              && nextDecoded <= GROUP && GROUP * nextGroup + nextDecoded == i + 1
              && nextGroup < |selectors| && selectors[nextGroup] < |tables|
  {
    GroupOf(trees, selectors, group, decoded);
    hide DecodeTree, BitsFrom, HasTree, WithinCache;
    assert Standing(reader, cached) <= 8 * |reader.bytes| by {
      GivenIsPlain(reader.bytes, reader.position, cached.read, 0);
    }
    hide Synced;
    nextGroup, nextDecoded := group, decoded;
    if decoded == GROUP {
      nextGroup, nextDecoded := group + 1, 0;
      if nextGroup >= |selectors| {
        return Err(NoSelector), nextGroup, nextDecoded;
      }
      if selectors[nextGroup] >= |tables| {
        return Err(BadSelector), nextGroup, nextDecoded;
      }
    }
    ghost var tree := trees[selectors[nextGroup]];
    var value := ReadSymbol(tables[selectors[nextGroup]].nodes, tree, reader, cached);
    r := if value.None? then Err(BitsTruncated) else Ok(value.value);
    nextDecoded := nextDecoded + 1;
  }

  /** `symbols` have been read from `start` on, and the next is at `at`. */
  ghost predicate ReadSoFar(
    trees: seq<Tree>, selectors: seq<nat>, bytes: seq<byte>, start: nat, end: nat, symbols: seq<nat>, at: nat)
    requires AllBranches(trees) && start <= at <= 8 * |bytes|
  {
    Continues(
      SymbolsFrom(trees, selectors, BitsFrom(bytes, start), end, 0), symbols, at - start,
      SymbolsFrom(trees, selectors, BitsFrom(bytes, at), end, |symbols|))
  }

  lemma NothingRead(trees: seq<Tree>, selectors: seq<nat>, bytes: seq<byte>, start: nat, end: nat)
    requires AllBranches(trees) && start <= 8 * |bytes|
    ensures ReadSoFar(trees, selectors, bytes, start, end, [], start)
  {
    ReadStarts(SymbolsFrom(trees, selectors, BitsFrom(bytes, start), end, 0));
  }

  /** Without a table or bits for the next symbol there is nothing to be read; otherwise what is read ends behind it. */
  lemma ReadStops(
    trees: seq<Tree>, selectors: seq<nat>, bytes: seq<byte>, start: nat, end: nat, symbols: seq<nat>, at: nat)
    requires AllBranches(trees) && start <= at <= 8 * |bytes|
    requires ReadSoFar(trees, selectors, bytes, start, end, symbols, at)
    ensures var whole := SymbolsFrom(trees, selectors, BitsFrom(bytes, start), end, 0);
            && (!HasTree(trees, selectors, |symbols|) ==> whole.None?)
            && (whole.Some? && EightFollow(bytes, start + whole.value.used) ==> EightFollow(bytes, at))
  {
    hide DecodeTree, BitsFrom, HasTree;
    var whole := SymbolsFrom(trees, selectors, BitsFrom(bytes, start), end, 0);
    var rest := SymbolsFrom(trees, selectors, BitsFrom(bytes, at), end, |symbols|);
    hide SymbolsFrom;
    NoTree(trees, selectors, BitsFrom(bytes, at), end, |symbols|);
    NoMoreSymbols(whole, symbols, at - start, rest);
  }

  lemma ReadNext(
    trees: seq<Tree>, selectors: seq<nat>, bytes: seq<byte>, start: nat, end: nat, symbols: seq<nat>, at: nat,
    symbol: nat,
    next: nat)
    requires AllBranches(trees) && start <= at <= 8 * |bytes| && at <= next && HasTree(trees, selectors, |symbols|)
    requires ReadSoFar(trees, selectors, bytes, start, end, symbols, at)
    requires DecodeTree(TreeFor(trees, selectors, |symbols|), BitsFrom(bytes, at)) == Decoded(Some(symbol), next - at)
    ensures at < next <= 8 * |bytes|
    ensures if symbol == end then
              SymbolsFrom(trees, selectors, BitsFrom(bytes, start), end, 0)
              == Some(Reading(symbols + [symbol], next - start))
            else ReadSoFar(trees, selectors, bytes, start, end, symbols + [symbol], next)
  {
    var bits := BitsFrom(bytes, at);
    assert |bits| == 8 * |bytes| - at;
    var whole := SymbolsFrom(trees, selectors, BitsFrom(bytes, start), end, 0);
    hide DecodeTree, BitsFrom, HasTree, TreeFor, Continues, SymbolsFrom;
    ReadOn(trees, selectors, bits, end, whole, symbols, at - start, symbol, next - at);
    BitsBehind(bytes, at, next - at);
  }

  /**
   * Reads the symbols of a block through the cache, with the table that the next selector names for every fifty of
   * them. What is read are the symbols that the bits hold, and the reader stands behind them. They are always read
   * when eight more bytes follow them, as behind every block of a stream.
   */
  method ReadSymbols(
    tables: seq<Table>, ghost trees: seq<Tree>, selectors: seq<nat>, reader: BitReader, end: nat)
    returns (r: Result<seq<nat>, ReadError>)
    requires Holds(tables, trees) && reader.position <= 8 * |reader.bytes|
    modifies reader
    ensures var start := old(reader.position);
            var whole := SymbolsFrom(trees, selectors, BitsFrom(reader.bytes, start), end, 0);
            && (r.Ok? ==> reader.position >= start && whole == Some(Reading(r.value, reader.position - start)))
            && (whole.Some? && EightFollow(reader.bytes, start + whole.value.used) ==> r.Ok?)
  {
    hide DecodeTree, BitsFrom, HasTree, TreeFor, Synced, SymbolsFrom, ReadSoFar;
    ghost var start := reader.position;
    NothingRead(trees, selectors, reader.bytes, start, end);
    ReadStops(trees, selectors, reader.bytes, start, end, [], start);
    GroupOf(trees, selectors, 0, 0);
    if |selectors| == 0 {
      return Err(NoSelector);
    }
    if selectors[0] >= |tables| {
      return Err(BadSelector);
    }
    var cached, loaded := NewCache(reader);
    if !loaded {
      return Err(BitsTruncated);
    }
    hide Holds, EightFollow;
    var symbols: seq<nat> := [];
    var group: nat, decoded: nat := 0, 0;
    while true
      invariant Synced(reader, cached) && start <= Standing(reader, cached) <= 8 * |reader.bytes|
      invariant |symbols| == GROUP * group + decoded && decoded <= GROUP
      invariant group < |selectors| && selectors[group] < |tables|
      invariant ReadSoFar(trees, selectors, reader.bytes, start, end, symbols, Standing(reader, cached))
      decreases 8 * |reader.bytes| - Standing(reader, cached)
    {
      ghost var at := Standing(reader, cached);
      ReadStops(trees, selectors, reader.bytes, start, end, symbols, at);
      var next;
      next, group, decoded := NextSymbol(tables, trees, selectors, group, decoded, reader, cached);
      if next.Err? {
        return Err(next.error);
      }
      ReadNext(trees, selectors, reader.bytes, start, end, symbols, at, next.value, Standing(reader, cached));
      symbols := symbols + [next.value];
      if next.value == end {
        break;
      }
    }
    Finish(reader, cached);
    r := Ok(symbols);
  }

  /** Eight bytes are left from the byte of a bit on. */
  predicate EightFollow(bytes: seq<byte>, at: nat) {
    at / 8 + 8 <= |bytes|
  }

  lemma NoTree(trees: seq<Tree>, selectors: seq<nat>, bits: seq<bool>, end: nat, i: nat)
    requires AllBranches(trees)
    ensures !HasTree(trees, selectors, i) ==> SymbolsFrom(trees, selectors, bits, end, i).None?
  {
  }

  // ---------------------------------------------------------------------
  // Tables that the builder makes
  // ---------------------------------------------------------------------

  /** The tables of a block, each made from code lengths for `n` symbols, and the trees they hold. */
  ghost predicate Made(
    tables: seq<Table>, trees: seq<Tree>, codes: seq<seq<Code>>, lengths: seq<seq<nat>>, n: nat)
  {
    && |tables| == |trees| == |codes| == |lengths|
    && forall t | 0 <= t < |tables| :: MadeOne(tables[t], trees[t], codes[t], lengths[t], n)
  }

  ghost predicate MadeOne(table: Table, tree: Tree, codes: seq<Code>, lengths: seq<nat>, n: nat) {
    && ValidTable(lengths) && |lengths| == n && IsCodeTable(codes, lengths)
    && Holding(table, codes) && tree == Build(codes, 0).tree
  }

  lemma MadeHolds(
    tables: seq<Table>, trees: seq<Tree>, codes: seq<seq<Code>>, lengths: seq<seq<nat>>, n: nat)
    requires Made(tables, trees, codes, lengths, n)
    ensures Holds(tables, trees)
  {
    hide IsCodeTable, ValidTable, Represents;
    forall t | 0 <= t < |trees|
      ensures trees[t].Branch? && Represents(tables[t].nodes, 0, trees[t]) && Depth(trees[t]) <= CACHED_BITS
    {
      assert MadeOne(tables[t], trees[t], codes[t], lengths[t], n);
      BuiltDepth(codes[t], 0);
    }
  }

  /** Every leaf holds the value of one of the codes. */
  ghost predicate LeavesBelow(t: Tree, n: nat) {
    match t
    case Leaf(value) => value < n
    case Branch(one, zero) => LeavesBelow(one, n) && LeavesBelow(zero, n)
  }

  lemma {:induction false} BuiltLeaves(codes: seq<Code>, level: nat, n: nat)
    requires forall i | 0 <= i < |codes| :: codes[i].value < n
    ensures Build(codes, level).Built? ==> LeavesBelow(Build(codes, level).tree, n)
    decreases 32 - level
  {
    if level < 32 {
      var k := SplitIndex(codes, level);
      if k == 0 || k == |codes| {
        BuiltLeaves(codes, level + 1, n);
      } else {
        BuiltLeaves(codes[..k], level + 1, n);
        BuiltLeaves(codes[k..], level + 1, n);
      }
    }
  }

  lemma {:induction false} DecodedBelow(t: Tree, bits: seq<bool>, n: nat)
    requires LeavesBelow(t, n) && DecodeTree(t, bits).value.Some?
    ensures DecodeTree(t, bits).value.value < n
  {
    if t.Branch? {
      DecodedBelow(if bits[0] then t.one else t.zero, bits[1..], n);
    }
  }

  /** The symbols read with such tables are those of the alphabet. */
  lemma {:induction false} SymbolsBelow(trees: seq<Tree>, selectors: seq<nat>, bits: seq<bool>, end: nat, i: nat)
    requires AllBranches(trees) && forall t | 0 <= t < |trees| :: LeavesBelow(trees[t], end + 1)
    ensures var whole := SymbolsFrom(trees, selectors, bits, end, i);
            whole.Some? ==> SymbolStage.InAlphabet(whole.value.symbols, end)
    decreases |bits|
  {
    hide LeavesBelow, DecodeTree;
    if HasTree(trees, selectors, i) {
      var tree := TreeFor(trees, selectors, i);
      var d := DecodeTree(tree, bits);
      if d.value.Some? {
        DecodedBelow(tree, bits, end + 1);
        if d.value.value != end {
          BranchUsesBits(tree, bits);
          SymbolsBelow(trees, selectors, bits[d.used..], end, i + 1);
        }
      }
    }
  }

  lemma MadeLeaves(
    tables: seq<Table>, trees: seq<Tree>, codes: seq<seq<Code>>, lengths: seq<seq<nat>>, n: nat)
    requires Made(tables, trees, codes, lengths, n)
    ensures forall t | 0 <= t < |trees| :: LeavesBelow(trees[t], n)
  {
    hide LeavesBelow, Build;
    forall t | 0 <= t < |trees|
      ensures LeavesBelow(trees[t], n)
    {
      assert MadeOne(tables[t], trees[t], codes[t], lengths[t], n);
      forall i | 0 <= i < |codes[t]|
        ensures codes[t][i].value < n
      {
        PermutationRange(ValuesOf(codes[t]), n, i);
      }
      BuiltLeaves(codes[t], 0, n);
    }
  }

  // ---------------------------------------------------------------------
  // Writing
  // ---------------------------------------------------------------------

  /** There are selectors for `count` symbols, each naming one of the tables. */
  predicate Selected(selectors: seq<nat>, tables: nat, count: nat) {
    count <= 50 * |selectors| && forall g | 0 <= g < |selectors| :: selectors[g] < tables
  }

  lemma SelectedTree(trees: seq<Tree>, selectors: seq<nat>, count: nat, i: nat)
    requires Selected(selectors, |trees|, count) && i < count
    ensures HasTree(trees, selectors, i)
  {
  }

  /** Code lengths for `n` symbols that leave no code unused. */
  ghost predicate AllComplete(lengths: seq<seq<nat>>, n: nat) {
    forall t | 0 <= t < |lengths| :: ValidTable(lengths[t]) && |lengths[t]| == n && Complete(lengths[t])
  }

  /** Symbols from number `i` on, each written with its canonical code in the table that its group's selector names. */
  ghost function SymbolBits(lengths: seq<seq<nat>>, selectors: seq<nat>, symbols: seq<nat>, n: nat, i: nat): seq<bool>
    requires AllComplete(lengths, n) && Selected(selectors, |lengths|, i + |symbols|)
    requires forall k | 0 <= k < |symbols| :: symbols[k] < n
  {
    if symbols == [] then []
    else
      CanonicalBits(lengths[selectors[i / 50]], symbols[0])
      + SymbolBits(lengths, selectors, symbols[1..], n, i + 1)
  }

  /** The last symbol is `end`, and no other. */
  predicate EndsWith(symbols: seq<nat>, end: nat) {
    symbols != [] && symbols[|symbols| - 1] == end && forall k | 0 <= k < |symbols| - 1 :: symbols[k] != end
  }

  /** Reading gives the symbols that were written, whatever follows them. */
  lemma {:induction false} WrittenSymbolsRead(
    tables: seq<Table>, trees: seq<Tree>, codes: seq<seq<Code>>, lengths: seq<seq<nat>>, selectors: seq<nat>,
    symbols: seq<nat>, end: nat, i: nat, rest: seq<bool>)
    requires Made(tables, trees, codes, lengths, end + 1) && AllComplete(lengths, end + 1) && AllBranches(trees)
    requires Selected(selectors, |lengths|, i + |symbols|) && EndsWith(symbols, end)
    requires forall k | 0 <= k < |symbols| :: symbols[k] < end + 1
    ensures var bits := SymbolBits(lengths, selectors, symbols, end + 1, i);
            SymbolsFrom(trees, selectors, bits + rest, end, i) == Some(Reading(symbols, |bits|))
    decreases |symbols|
  {
    hide CanonicalBits, DecodeTree, ValidTable, Complete, IsCodeTable, Holding, SymbolsFrom, Selected, Build;
    SelectedTree(trees, selectors, i + |symbols|, i);
    var t := selectors[i / 50];
    assert MadeOne(tables[t], trees[t], codes[t], lengths[t], end + 1);
    var first, later := CanonicalBits(lengths[t], symbols[0]), [];
    if symbols[0] == end {
      assert symbols == [end] && symbols[1..] == [];
    } else {
      SelectedRest(selectors, |lengths|, i + |symbols|, i + 1 + |symbols[1..]|);
      WrittenSymbolsRead(tables, trees, codes, lengths, selectors, symbols[1..], end, i + 1, rest);
      assert symbols == [symbols[0]] + symbols[1..];
      later := SymbolBits(lengths, selectors, symbols[1..], end + 1, i + 1);
    }
    CanonicalRead(tables[t], codes[t], lengths[t], symbols[0], later + rest);
    ReadFirst(trees, selectors, first, later + rest, end, i, symbols[0]);
    assert first + later + rest == first + (later + rest);
  }

  lemma SelectedRest(selectors: seq<nat>, tables: nat, count: nat, same: nat)
    requires Selected(selectors, tables, count) && same == count
    ensures Selected(selectors, tables, same)
  {
  }

  lemma ReadFirst(
    trees: seq<Tree>, selectors: seq<nat>, first: seq<bool>, later: seq<bool>, end: nat, i: nat, symbol: nat)
    requires AllBranches(trees) && HasTree(trees, selectors, i)
    requires DecodeTree(TreeFor(trees, selectors, i), first + later) == Decoded(Some(symbol), |first|)
    ensures SymbolsFrom(trees, selectors, first + later, end, i)
         == if symbol == end then Some(Reading([end], |first|))
            else Behind(symbol, |first|, SymbolsFrom(trees, selectors, later, end, i + 1))
  {
    hide DecodeTree, TreeFor, HasTree;
    assert (first + later)[|first|..] == later;
  }

  lemma CanonicalRead(table: Table, codes: seq<Code>, lengths: seq<nat>, s: nat, rest: seq<bool>)
    requires ValidTable(lengths) && Complete(lengths) && IsCodeTable(codes, lengths) && Holding(table, codes)
    requires s < |lengths|
    ensures DecodeTree(Build(codes, 0).tree, CanonicalBits(lengths, s) + rest)
         == Decoded(Some(s), |CanonicalBits(lengths, s)|)
  {
    TableDecodesCanonicalCode(table, lengths, codes, s, rest);
  }

  // ---------------------------------------------------------------------
  // Whole blocks
  // ---------------------------------------------------------------------

  /** What a block says in front of its symbols: its table of bytes, those in use first, and where it starts. */
  datatype Header = Header(table: seq<byte>, used: nat, origPtr: nat)

  predicate ValidHeader(header: Header) {
    |header.table| == 256 && 0 < header.used <= 256
  }

  /** How an encoder starts with `data`: it sorts the rotations of its run-length coding, and lists the bytes in use. */
  ghost predicate Encodes(data: seq<byte>, order: seq<nat>, header: Header) {
    var coded := BlockReading.Encode(data);
    && BlockTransform.SortsRotations(coded, order) && ValidHeader(header)
    && header.origPtr < |coded| && BlockTransform.Rotation(coded, order[header.origPtr]) == coded
    && MoveToFront.Covers(header.table[..header.used], coded) && MoveToFront.Covers(header.table, Column(data, order))
  }

  /** The last bytes of the sorted rotations. */
  ghost function Column(data: seq<byte>, order: seq<nat>): seq<byte>
    requires BlockTransform.SortsRotations(BlockReading.Encode(data), order)
  {
    BlockTransform.LastColumn(BlockReading.Encode(data), order)
  }

  lemma ColumnCovered(data: seq<byte>, order: seq<nat>, used: seq<byte>)
    requires BlockTransform.SortsRotations(BlockReading.Encode(data), order)
    ensures MoveToFront.Covers(used, BlockReading.Encode(data)) ==> MoveToFront.Covers(used, Column(data, order))
  {
    var coded, column := BlockReading.Encode(data), Column(data, order);
    forall b | b in column
      ensures b in coded
    {
      var i :| 0 <= i < |column| && column[i] == b;
      assert b == coded[BlockTransform.Pred(order[i], |coded|)];
    }
  }

  /** The symbols that an encoder writes for `data`. */
  ghost function SymbolsFor(data: seq<byte>, order: seq<nat>, header: Header): seq<nat>
    requires Encodes(data, order, header)
  {
    SymbolStage.Symbols(MoveToFront.EncodeFrom(header.table, Column(data, order)), header.used + 1)
  }

  /** The symbols that are written decode to the column, and end with the end symbol, which stands nowhere else. */
  lemma WrittenSymbols(data: seq<byte>, order: seq<nat>, header: Header)
    requires Encodes(data, order, header)
    ensures var symbols, end := SymbolsFor(data, order, header), header.used + 1;
            && SymbolStage.InAlphabet(symbols, end) && EndsWith(symbols, end)
            && SymbolStage.Decoded(symbols, end, header.table) == Some(Column(data, order))
  {
    hide SymbolStage.Decoded, SymbolStage.Symbols, MoveToFront.EncodeFrom, MoveToFront.Covers, SymbolStage.InAlphabet;
    hide BlockTransform.SortsRotations, BlockReading.Encode;
    var used, column := header.table[..header.used], Column(data, order);
    ColumnCovered(data, order, used);
    SymbolStage.SymbolRoundTrip(column, used, header.table);
    SymbolStage.PositionsBelow(header.table, column, header.used);
    SymbolsEnd(MoveToFront.EncodeFrom(header.table, column), header.used + 1);
  }

  lemma {:induction false} SymbolsEnd(positions: seq<nat>, end: nat)
    requires end >= 2 && forall i | 0 <= i < |positions| :: positions[i] + 1 < end
    ensures EndsWith(SymbolStage.Symbols(positions, end), end)
    decreases |positions|
  {
    var n := SymbolStage.Leading(positions);
    SymbolStage.RunRoundTrip(n);
    if n < |positions| {
      SymbolsEnd(positions[n + 1..], end);
    }
  }

  /** Trees for an alphabet of `n` symbols. */
  ghost predicate TreesFit(trees: seq<Tree>, n: nat) {
    AllBranches(trees) && forall t | 0 <= t < |trees| :: LeavesBelow(trees[t], n)
  }

  /** The bytes that the symbols of a block decode to. */
  ghost function BlockColumn(
    trees: seq<Tree>, selectors: seq<nat>, bits: seq<bool>, header: Header): Option<seq<byte>>
    requires ValidHeader(header) && TreesFit(trees, header.used + 2)
  {
    SymbolsBelow(trees, selectors, bits, header.used + 1, 0);
    var whole := SymbolsFrom(trees, selectors, bits, header.used + 1, 0);
    if whole.None? then None else SymbolStage.Decoded(whole.value.symbols, header.used + 1, header.table)
  }

  lemma ColumnOf(trees: seq<Tree>, selectors: seq<nat>, bits: seq<bool>, header: Header)
    requires ValidHeader(header) && TreesFit(trees, header.used + 2)
    ensures AllBranches(trees)
    ensures var whole := SymbolsFrom(trees, selectors, bits, header.used + 1, 0);
            if whole.None? then BlockColumn(trees, selectors, bits, header) == None
            else
              && SymbolStage.InAlphabet(whole.value.symbols, header.used + 1)
              && BlockColumn(trees, selectors, bits, header)
                 == SymbolStage.Decoded(whole.value.symbols, header.used + 1, header.table)
  {
    hide SymbolStage.InAlphabet, SymbolStage.Decoded, LeavesBelow, AllBranches, SymbolsFrom;
    SymbolsBelow(trees, selectors, bits, header.used + 1, 0);
  }

  lemma MadeFit(
    tables: seq<Table>, trees: seq<Tree>, codes: seq<seq<Code>>, lengths: seq<seq<nat>>, n: nat)
    requires Made(tables, trees, codes, lengths, n)
    ensures TreesFit(trees, n)
  {
    hide LeavesBelow, Made;
    MadeHolds(tables, trees, codes, lengths, n);
    MadeLeaves(tables, trees, codes, lengths, n);
  }

  /** What is handed out for a block's bytes: the walk along their links, with its runs expanded. */
  ghost predicate HandsOut(column: seq<byte>, origPtr: nat, out: seq<byte>) {
    exists words ::
      && LinkTable.IsLinkTable(words, column) && origPtr < |words|
      && out == BlockReading.Expand(BlockTransform.Walk(words, LinkTable.Link(words, origPtr), |words|), -1, 0)
  }

  /** A block fits, and starts at one of its bytes. */
  predicate Fits(column: seq<byte>, header: Header, maxBlock: nat) {
    header.origPtr < |column| <= maxBlock
  }

  datatype BlockError = BadSymbols(error: ReadError) | BadBlock(reason: SymbolStage.SymbolError) | OriginPastEnd

  /** Reads the symbols of a block and decodes them to its bytes, which are also counted. */
  method DecodeColumn(
    tables: seq<Table>, ghost trees: seq<Tree>, ghost codes: seq<seq<Code>>, ghost lengths: seq<seq<nat>>,
    selectors: seq<nat>, header: Header, maxBlock: nat, reader: BitReader)
    returns (r: Result<(seq<byte>, seq<nat>), BlockError>)
    requires ValidHeader(header) && Made(tables, trees, codes, lengths, header.used + 2)
    requires maxBlock <= SymbolStage.MAX_REPEAT && reader.position <= 8 * |reader.bytes|
    modifies reader
    ensures TreesFit(trees, header.used + 2)
    ensures var bits := BitsFrom(reader.bytes, old(reader.position));
            var column := BlockColumn(trees, selectors, bits, header);
            && (r.Ok? ==>
                  column == Some(r.value.0) && |r.value.0| <= maxBlock && LinkTable.IsHistogram(r.value.1, r.value.0))
            && (column.Some? && |column.value| <= maxBlock ==>
                  && SymbolsFrom(trees, selectors, bits, header.used + 1, 0).Some?
                  && var used := SymbolsFrom(trees, selectors, bits, header.used + 1, 0).value.used;
                     EightFollow(reader.bytes, old(reader.position) + used) ==> r.Ok?)
  {
    hide BitsFrom, EightFollow, SymbolStage.Decoded, LinkTable.IsHistogram, SymbolStage.InAlphabet, Holds, Made;
    hide AllBranches, TreesFit, BlockColumn, SymbolsFrom;
    MadeHolds(tables, trees, codes, lengths, header.used + 2);
    MadeFit(tables, trees, codes, lengths, header.used + 2);
    ColumnOf(trees, selectors, BitsFrom(reader.bytes, reader.position), header);
    var symbols := ReadSymbols(tables, trees, selectors, reader, header.used + 1);
    if symbols.Err? {
      return Err(BadSymbols(symbols.error));
    }
    var decoded := DecodeMoved(symbols.value, header, maxBlock);
    r := if decoded.Ok? then Ok(decoded.value) else Err(BadBlock(decoded.error));
  }

  /** Decodes symbols with a table that starts as the header says. */
  method DecodeMoved(symbols: seq<nat>, header: Header, maxBlock: nat)
    returns (r: Result<(seq<byte>, seq<nat>), SymbolStage.SymbolError>)
    requires ValidHeader(header) && maxBlock <= SymbolStage.MAX_REPEAT
    requires SymbolStage.InAlphabet(symbols, header.used + 1)
    ensures var column := SymbolStage.Decoded(symbols, header.used + 1, header.table);
            && (r.Ok? <==> column.Some? && |column.value| <= maxBlock)
            && (r.Ok? ==> r.value.0 == column.value && LinkTable.IsHistogram(r.value.1, r.value.0))
  {
    hide SymbolStage.Decoded, LinkTable.IsHistogram, SymbolStage.InAlphabet;
    var decoder := new MoveToFront.MoveToFrontDecoder.FromSymbols(header.table);
    r := SymbolStage.DecodeSymbols(symbols, decoder, header.used + 1, maxBlock);
  }

  /**
   * Decodes the symbols of a block and prepares its bytes to be handed out. It does if and only if the bits hold the
   * symbols of a block that fits, except that it may fail when less than eight bytes follow the symbols.
   */
  method DecodeBlock(
    tables: seq<Table>, ghost trees: seq<Tree>, ghost codes: seq<seq<Code>>, ghost lengths: seq<seq<nat>>,
    selectors: seq<nat>, header: Header, maxBlock: nat, reader: BitReader)
    returns (r: Result<BlockReading.BlockReader, BlockError>)
    requires ValidHeader(header) && Made(tables, trees, codes, lengths, header.used + 2)
    requires maxBlock <= SymbolStage.MAX_REPEAT && reader.position <= 8 * |reader.bytes|
    modifies reader
    ensures TreesFit(trees, header.used + 2)
    ensures var bits := BitsFrom(reader.bytes, old(reader.position));
            var column := BlockColumn(trees, selectors, bits, header);
            && (r.Ok? ==>
                  && column.Some? && Fits(column.value, header, maxBlock)
                  && r.value.Valid() && HandsOut(column.value, header.origPtr, r.value.Pending()))
            && (column.Some? && Fits(column.value, header, maxBlock) ==>
                  var used := SymbolsFrom(trees, selectors, bits, header.used + 1, 0).value.used;
                  EightFollow(reader.bytes, old(reader.position) + used) ==> r.Ok?)
  {
    hide BitsFrom, EightFollow, SymbolsFrom, HandsOut, LinkTable.IsHistogram, Made, TreesFit, BlockColumn;
    var column := DecodeColumn(tables, trees, codes, lengths, selectors, header, maxBlock, reader);
    if column.Err? {
      return Err(column.error);
    }
    if header.origPtr >= |column.value.0| {
      return Err(OriginPastEnd);
    }
    var block := Prepare(column.value.0, column.value.1, header.origPtr);
    r := Ok(block);
  }

  /** Links the bytes of a block in place, and starts to walk at its origin. */
  method Prepare(column: seq<byte>, counts: seq<nat>, origPtr: nat) returns (block: BlockReading.BlockReader)
    requires origPtr < |column| <= SymbolStage.MAX_REPEAT && LinkTable.IsHistogram(counts, column)
    ensures block.Valid() && HandsOut(column, origPtr, block.Pending())
  {
    hide LinkTable.IsHistogram, LinkTable.IsLinkTable;
    var tt := new nat[|column|](i requires 0 <= i < |column| => column[i]);
    assert tt[..] == column;
    var start := LinkTable.InverseBwt(tt, origPtr, counts);
    LinksStay(tt[..], column);
    block := new BlockReading.BlockReader(tt[..], start);
  }

  lemma LinksStay(words: seq<nat>, column: seq<byte>)
    requires LinkTable.IsLinkTable(words, column)
    ensures LinkTable.LinksInRange(words) && |words| == |column|
  {
  }

  /**
   * What is handed out for a written block is the block. The bits are those of its symbols, each written with the
   * canonical code of the table that its group's selector names, and anything may follow them. Between them and the
   * data lie run-length coding, sorting the rotations, moving to the front and run digits.
   */
  lemma WrittenBlockRead(
    tables: seq<Table>, trees: seq<Tree>, codes: seq<seq<Code>>, lengths: seq<seq<nat>>, selectors: seq<nat>,
    header: Header,
    data: seq<byte>, order: seq<nat>, rest: seq<bool>, out: seq<byte>)
    requires Encodes(data, order, header) && Made(tables, trees, codes, lengths, header.used + 2)
    requires AllComplete(lengths, header.used + 2)
    requires Selected(selectors, |lengths|, |SymbolsFor(data, order, header)|)
    requires HandsOut(Column(data, order), header.origPtr, out)
    ensures TreesFit(trees, header.used + 2)
    ensures var symbols := SymbolsFor(data, order, header);
            && (forall k | 0 <= k < |symbols| :: symbols[k] < header.used + 2)
            && var bits := SymbolBits(lengths, selectors, symbols, header.used + 2, 0);
               && SymbolsFrom(trees, selectors, bits + rest, header.used + 1, 0) == Some(Reading(symbols, |bits|))
               && BlockColumn(trees, selectors, bits + rest, header) == Some(Column(data, order))
    ensures header.origPtr < |Column(data, order)| == |BlockReading.Encode(data)|
    ensures out == data
  {
    hide SymbolStage.Decoded, SymbolStage.Symbols, MoveToFront.EncodeFrom, MoveToFront.Covers;
    hide BlockTransform.SortsRotations, BlockReading.Encode, BlockReading.Expand, BlockTransform.Walk, LeavesBelow;
    var symbols := SymbolsFor(data, order, header);
    MadeHolds(tables, trees, codes, lengths, header.used + 2);
    MadeLeaves(tables, trees, codes, lengths, header.used + 2);
    WrittenSymbols(data, order, header);
    InTheAlphabet(symbols, header.used + 1);
    WrittenSymbolsRead(tables, trees, codes, lengths, selectors, symbols, header.used + 1, 0, rest);
    HandedOutIsData(data, order, header, out);
  }

  lemma InTheAlphabet(symbols: seq<nat>, end: nat)
    requires SymbolStage.InAlphabet(symbols, end)
    ensures forall k | 0 <= k < |symbols| :: symbols[k] < end + 1
  {
  }

  lemma HandedOutIsData(data: seq<byte>, order: seq<nat>, header: Header, out: seq<byte>)
    requires Encodes(data, order, header) && HandsOut(Column(data, order), header.origPtr, out)
    ensures header.origPtr < |Column(data, order)| == |BlockReading.Encode(data)| && out == data
  {
    hide MoveToFront.Covers, BlockReading.Encode, BlockReading.Expand, BlockTransform.Walk, BlockTransform.Rotation;
    var words :| LinkTable.IsLinkTable(words, Column(data, order)) && header.origPtr < |words|
      && out == BlockReading.Expand(BlockTransform.Walk(words, LinkTable.Link(words, header.origPtr), |words|), -1, 0);
    BlockReading.BlockRoundTrip(data, order, words, header.origPtr);
  }
}
