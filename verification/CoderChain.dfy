/** Parsing the stream bindings of a 7z block, and following its coders from the packed stream to the output. */
module CoderChain {
  import opened Common
  import opened TopologicalSort
  import opened BlockGraph
  import opened HeaderReader

  // ---------------------------------------------------------------------
  // Lookups
  // ---------------------------------------------------------------------

  /** The first bind pair that carries output `index`. */
  function FindOut(pairs: seq<BindPair>, index: nat): (e: Option<nat>)
    ensures e.Some? ==> e.value < |pairs| && pairs[e.value].outIndex == index
    ensures e.None? ==> forall k | 0 <= k < |pairs| :: pairs[k].outIndex != index
  {
    if pairs == [] then None
    else if pairs[0].outIndex == index then Some(0)
    else
      var rest := FindOut(pairs[1..], index);
      assert forall k | 1 <= k < |pairs| :: pairs[k] == pairs[1..][k - 1];
      if rest.Some? then Some(rest.value + 1) else None
  }

  /** The first bind pair that feeds input `index`. */
  function FindIn(pairs: seq<BindPair>, index: nat): (e: Option<nat>)
    ensures e.Some? ==> e.value < |pairs| && pairs[e.value].inIndex == index
    ensures e.None? ==> forall k | 0 <= k < |pairs| :: pairs[k].inIndex != index
  {
    if pairs == [] then None
    else if pairs[0].inIndex == index then Some(0)
    else
      var rest := FindIn(pairs[1..], index);
      assert forall k | 1 <= k < |pairs| :: pairs[k] == pairs[1..][k - 1];
      if rest.Some? then Some(rest.value + 1) else None
  }

  // ---------------------------------------------------------------------
  // Accepted blocks
  // ---------------------------------------------------------------------

  /** What `ReadBlock` guarantees of the blocks it returns. */
  ghost predicate Accepted(block: Block) {
    && PairsInRange(block)
    && ValidGraph(block)
    && |block.bindPairs| + 1 == TotalOut(block)
  }

  function ToSet(s: seq<nat>): (r: set<nat>)
    ensures forall x :: x in r <==> x in s
  {
    set x | x in s
  }

  lemma {:induction false} DistinctSize(s: seq<nat>)
    requires Distinct(s)
    ensures |ToSet(s)| == |s|
  {
    if s != [] {
      var init, last := s[..|s| - 1], s[|s| - 1];
      assert s == init + [last];
      DistinctSnoc(init, last);
      DistinctSize(init);
      assert ToSet(s) == ToSet(init) + {last};
    } else {
      assert ToSet(s) == {};
    }
  }

  /** Distinct numbers below `n` that are fewer than `n` leave one out. */
  lemma MissingNumber(s: seq<nat>, n: nat) returns (x: nat)
    requires |s| < n
    ensures x < n && x !in s
  {
    SetOfSeqSize(s);
    if Below(n) <= ToSet(s) {
      SubsetSize(Below(n), ToSet(s));
    }
    x :| x in Below(n) && x !in ToSet(s);
  }

  lemma {:induction false} SetOfSeqSize(s: seq<nat>)
    ensures |ToSet(s)| <= |s|
  {
    if s != [] {
      assert s == s[..|s| - 1] + [s[|s| - 1]];
      SetOfSeqSize(s[..|s| - 1]);
      assert ToSet(s) == ToSet(s[..|s| - 1]) + {s[|s| - 1]};
    } else {
      assert ToSet(s) == {};
    }
  }

  /** At most one number is left out when only one can be. */
  lemma OneMissing(s: seq<nat>, n: nat, x: nat, y: nat)
    requires Distinct(s) && |s| + 1 == n && forall z | z in s :: z < n
    requires x < n && y < n && x !in s && y !in s
    ensures x == y
  {
    DistinctSize(s);
    var missing := Below(n) - ToSet(s);
    assert Below(n) == ToSet(s) + missing;
    assert |missing| == 1;
    assert missing == {x} + (missing - {x});
    assert |missing - {x}| == 0;
  }

  /** In an accepted block exactly one output is bound to nothing: the block's own output. */
  lemma UniqueOutput(block: Block) returns (u: nat)
    requires Accepted(block)
    ensures u < TotalOut(block) && u !in BoundOuts(block.bindPairs)
    ensures forall v | 0 <= v < TotalOut(block) && v !in BoundOuts(block.bindPairs) :: v == u
  {
    var outs := BoundOuts(block.bindPairs);
    u := MissingNumber(outs, TotalOut(block));
    forall v | 0 <= v < TotalOut(block) && v !in outs
      ensures v == u
    {
      OneMissing(outs, TotalOut(block), u, v);
    }
  }

  /**
   * The size of a block's output. For an accepted block with a size for every output it is the size of the one
   * unbound output, and the final zero is never returned.
   */
  method GetUnpackSize(block: Block, unpackSizes: seq<nat>) returns (size: nat)
    requires Accepted(block) && |unpackSizes| == TotalOut(block)
    ensures exists u :: 0 <= u < |unpackSizes| && u !in BoundOuts(block.bindPairs) && size == unpackSizes[u]
    ensures forall u | 0 <= u < |unpackSizes| && u !in BoundOuts(block.bindPairs) :: size == unpackSizes[u]
  {
    ghost var output := UniqueOutput(block);
    size := 0;
    var i := TotalOut(block);
    while i > 0
      invariant output < i <= TotalOut(block)
    {
      i := i - 1;
      var pair := FindOut(block.bindPairs, i);
      if pair.None? {
        return unpackSizes[i];
      }
    }
    assert false;
  }

  // ---------------------------------------------------------------------
  // Following the chain
  // ---------------------------------------------------------------------

  /** Output `a` is bound to input `b`. */
  ghost predicate Linked(block: Block, a: nat, b: nat) {
    exists e :: 0 <= e < |block.bindPairs| && block.bindPairs[e] == BindPair(b, a)
  }

  /** A path along bind pairs that starts at the first packed stream. */
  ghost predicate IsChain(block: Block, path: seq<nat>) {
    && (path != [] ==> block.packedStreams != [] && path[0] == block.packedStreams[0])
    && forall j | 0 < j < |path| :: Linked(block, path[j - 1], path[j])
  }

  lemma FeedsDistinct(block: Block, i: nat, j: nat)
    requires Accepted(block) && i < |Feeds(block)| && j < |Feeds(block)|
    ensures Feeds(block)[i] == Feeds(block)[j] ==> i == j
  {
    var feeds := Feeds(block);
    assert Distinct(feeds);
  }

  /** The bind map is injective, and its start is outside its range. */
  lemma LinkInjective(block: Block, a: nat, b: nat, c: nat)
    requires Accepted(block) && Linked(block, a, c)
    ensures Linked(block, b, c) ==> a == b
    ensures block.packedStreams != [] ==> c != block.packedStreams[0]
  {
    var pairs, feeds := block.bindPairs, Feeds(block);
    var e :| 0 <= e < |pairs| && pairs[e] == BindPair(c, a);
    assert feeds[e] == c;
    if Linked(block, b, c) {
      var f :| 0 <= f < |pairs| && pairs[f] == BindPair(c, b);
      assert feeds[f] == c;
      FeedsDistinct(block, e, f);
    }
    if block.packedStreams != [] {
      assert feeds[|pairs|] == block.packedStreams[0];
      FeedsDistinct(block, e, |pairs|);
    }
  }

  lemma {:induction false} ChainDistinctAt(block: Block, path: seq<nat>, i: nat, j: nat)
    requires Accepted(block) && IsChain(block, path) && i < j < |path|
    ensures path[i] != path[j]
  {
    LinkInjective(block, path[j - 1], if i > 0 then path[i - 1] else 0, path[j]);
    if i > 0 {
      ChainDistinctAt(block, path, i - 1, j - 1);
    }
  }

  /** The chain visits no index twice, so it is no longer than there are inputs. */
  lemma ChainDistinct(block: Block, path: seq<nat>)
    requires Accepted(block) && IsChain(block, path)
    ensures Distinct(path) && |path| <= TotalIn(block)
  {
    forall i, j | 0 <= i < j < |path|
      ensures path[i] != path[j]
    {
      ChainDistinctAt(block, path, i, j);
    }
    DistinctSize(path);
    forall x | x in path
      ensures x < TotalIn(block)
    {
      var j :| 0 <= j < |path| && path[j] == x;
      ChainInRange(block, path, j);
    }
    SubsetSize(ToSet(path), Below(TotalIn(block)));
  }

  lemma ChainInRange(block: Block, path: seq<nat>, j: nat)
    requires Accepted(block) && IsChain(block, path) && j < |path|
    ensures path[j] < TotalIn(block)
  {
    if j == 0 {
      assert block.packedStreams[0] == Feeds(block)[|block.bindPairs|];
      assert path[0] in Feeds(block);
    } else {
      assert Linked(block, path[j - 1], path[j]);
    }
  }

  /** The iterator over a block's coders. `path` records the indices it has moved past. */
  class OrderedCoderIter {
    const block: Block
    var current: Option<nat>
    ghost var path: seq<nat>

    ghost predicate Valid()
      reads this
    {
      && Accepted(block)
      && IsChain(block, path)
      && (current.Some? ==> IsChain(block, path + [current.value]))
      && (current.None? && path != [] ==> path[|path| - 1] !in BoundOuts(block.bindPairs))
      && (current.None? && path == [] ==> block.packedStreams == [])
    }

    constructor (block: Block)
      requires Accepted(block)
      ensures Valid() && this.block == block && path == []
    {
      this.block := block;
      current := if block.packedStreams == [] then None else Some(block.packedStreams[0]);
      path := [];
      new;
      if current.Some? {
        assert [] + [current.value] == [current.value];
      }
    }

    /** Yields the current index if it names a coder, and moves to the input that the index's output is bound to. */
    method Next() returns (item: Option<nat>)
      requires Valid()
      modifies this
      ensures Valid()
      ensures old(current).None? ==> item.None? && current.None? && path == old(path)
      ensures old(current).Some? ==>
                && path == old(path) + [old(current).value]
                && item == if old(current).value < |block.coders| then old(current) else None
    {
      if current.None? {
        return None;
      }
      var i := current.value;
      var pair := FindOut(block.bindPairs, i);
      ghost var before := path;
      path := path + [i];
      if pair.Some? {
        var next := block.bindPairs[pair.value].inIndex;
        assert Linked(block, i, next) by { assert block.bindPairs[pair.value] == BindPair(next, i); }
        ExtendChain(block, path, next);
        current := Some(next);
      } else {
        current := None;
      }
      item := if i < |block.coders| then Some(i) else None;
    }
  }

  lemma ExtendChain(block: Block, path: seq<nat>, next: nat)
    requires IsChain(block, path) && path != [] && Linked(block, path[|path| - 1], next)
    ensures IsChain(block, path + [next])
  {
  }

  /** A chain of coder indices that cannot be continued. */
  ghost predicate IsWholeChain(block: Block, order: seq<nat>) {
    && IsChain(block, order)
    && (forall i | 0 <= i < |order| :: order[i] < |block.coders|)
    && (order == [] && block.packedStreams != [] ==> block.packedStreams[0] >= |block.coders|)
    && (order != [] ==>
          || order[|order| - 1] !in BoundOuts(block.bindPairs)
          || LeadsOutside(block, order[|order| - 1]))
  }

  /** Output `a` is bound to an input whose number names no coder. */
  ghost predicate LeadsOutside(block: Block, a: nat) {
    exists b: nat :: Linked(block, a, b) && b >= |block.coders|
  }

  /** Runs the iterator to its end, as every loop over it does. It ends, and yields no index twice. */
  method OrderedCoders(block: Block) returns (order: seq<nat>)
    requires Accepted(block)
    ensures IsWholeChain(block, order) && Distinct(order)
  {
    hide PrefixSum, PairsInRange;
    var iter := new OrderedCoderIter(block);
    order := [];
    var item := iter.Next();
    while item.Some?
      invariant iter.Valid() && iter.block == block
      invariant forall i | 0 <= i < |order| :: order[i] < |block.coders|
      invariant item.Some? ==> iter.path == order + [item.value] && item.value < |block.coders|
      invariant item.None? ==> Ended(iter.block, iter.path, iter.current, order)
      decreases TotalIn(block) - |order|, item.Some?
    {
      ChainDistinct(block, iter.path);
      order := order + [item.value];
      item := iter.Next();
    }
    EndedIsWhole(block, iter.path, iter.current, order);
    ChainDistinct(block, order);
  }

  /** Why the iterator ended: the chain stopped, or the last index moved past names no coder. */
  ghost predicate Ended(block: Block, path: seq<nat>, current: Option<nat>, order: seq<nat>) {
    || (path == order && current.None? && (path != [] ==> path[|path| - 1] !in BoundOuts(block.bindPairs))
        && (path == [] ==> block.packedStreams == []))
    || (path != [] && path[..|path| - 1] == order && path[|path| - 1] >= |block.coders|)
  }

  lemma EndedIsWhole(block: Block, path: seq<nat>, current: Option<nat>, order: seq<nat>)
    requires IsChain(block, path) && Ended(block, path, current, order)
    requires forall i | 0 <= i < |order| :: order[i] < |block.coders|
    ensures IsWholeChain(block, order)
  {
    if path != order {
      assert path == order + [path[|path| - 1]];
      if order != [] {
        assert Linked(block, path[|path| - 2], path[|path| - 1]);
      }
    }
  }

  // ---------------------------------------------------------------------
  // Blocks of simple coders
  // ---------------------------------------------------------------------

  /** Every coder has one input and one output, as the decoders that walk the chain require. */
  predicate Simple(block: Block) {
    forall c | 0 <= c < |block.coders| :: block.coders[c] == Coder(1, 1)
  }

  lemma {:induction false} OneStreamEach(counts: seq<nat>, k: nat)
    requires k <= |counts| && forall c | 0 <= c < |counts| :: counts[c] == 1
    ensures PrefixSum(counts, k) == k
  {
    if k > 0 {
      OneStreamEach(counts, k - 1);
    }
  }

  lemma SimpleTotals(block: Block)
    requires Simple(block)
    ensures TotalIn(block) == TotalOut(block) == |block.coders|
    ensures forall i | 0 <= i < |block.coders| ::
              Owner(Ins(block.coders), i) == i && Owner(Outs(block.coders), i) == i
  {
    var n := |block.coders|;
    OneStreamEach(Ins(block.coders), n);
    OneStreamEach(Outs(block.coders), n);
    forall i | 0 <= i < n
      ensures Owner(Ins(block.coders), i) == i && Owner(Outs(block.coders), i) == i
    {
      OneStreamEach(Ins(block.coders), i);
      OneStreamEach(Outs(block.coders), i);
      OneStreamEach(Ins(block.coders), i + 1);
      OneStreamEach(Outs(block.coders), i + 1);
      OwnerBelowIs(Ins(block.coders), n, i, i);
      OwnerBelowIs(Outs(block.coders), n, i, i);
    }
  }

  lemma LinkClimbs(block: Block, rank: seq<nat>, a: nat, b: nat)
    requires Accepted(block) && Simple(block) && Linked(block, a, b)
    requires |rank| == |block.coders| && IsRank(Edges(block), rank)
    ensures a < |rank| && b < |rank| && rank[a] < rank[b]
  {
    SimpleTotals(block);
    var e :| 0 <= e < |block.bindPairs| && block.bindPairs[e] == BindPair(b, a);
    assert Upward(Edges(block), rank, e);
  }

  function MaxOf(s: seq<nat>): (m: nat)
    ensures forall i | 0 <= i < |s| :: s[i] <= m
  {
    if s == [] then 0
    else
      var m := MaxOf(s[..|s| - 1]);
      if s[|s| - 1] > m then s[|s| - 1] else m
  }

  /** From any coder the chain leads up in rank to the block's output, so no coder can be missed. */
  lemma {:induction false} CoderVisited(block: Block, rank: seq<nat>, order: seq<nat>, c: nat)
    requires Accepted(block) && Simple(block) && IsWholeChain(block, order) && c < |block.coders|
    requires |rank| == |block.coders| && IsRank(Edges(block), rank)
    ensures c in order
    decreases MaxOf(rank) - rank[c]
  {
    SimpleTotals(block);
    SimpleStart(block, order);
    var pair := FindOut(block.bindPairs, c);
    if pair.Some? {
      var next := block.bindPairs[pair.value].inIndex;
      assert Linked(block, c, next) by { assert block.bindPairs[pair.value] == BindPair(next, c); }
      LinkClimbs(block, rank, c, next);
      CoderVisited(block, rank, order, next);
      var j :| 0 <= j < |order| && order[j] == next;
      LinkInjective(block, c, if j > 0 then order[j - 1] else c, next);
      assert j > 0;
      assert Linked(block, order[j - 1], order[j]);
    } else {
      var u := UniqueOutput(block);
      assert c !in BoundOuts(block.bindPairs);
      assert order[|order| - 1] < |block.coders|;
      assert order[|order| - 1] == u == c;
    }
  }

  lemma LinkInside(block: Block, a: nat)
    requires PairsInRange(block) && TotalIn(block) <= |block.coders|
    ensures !LeadsOutside(block, a)
  {
  }

  /** With simple coders the chain is not empty and stops only at an unbound output. */
  lemma SimpleStart(block: Block, order: seq<nat>)
    requires Accepted(block) && Simple(block) && IsWholeChain(block, order)
    ensures order != [] && order[|order| - 1] !in BoundOuts(block.bindPairs)
  {
    SimpleTotals(block);
    var x := MissingNumber(BoundIns(block.bindPairs), TotalIn(block));
    assert x in Feeds(block);
    assert block.packedStreams != [];
    assert block.packedStreams[0] in Feeds(block);
    LinkInside(block, order[|order| - 1]);
  }

  /**
   * For an accepted block of simple coders the iterator visits every coder exactly once, each after the coder whose
   * output it reads, from the packed stream to the block's output.
   */
  lemma SimpleOrderComplete(block: Block, order: seq<nat>)
    requires Accepted(block) && Simple(block) && IsWholeChain(block, order)
    ensures |order| == |block.coders| && Distinct(order)
    ensures forall c | 0 <= c < |block.coders| :: c in order
    ensures order != [] && order[|order| - 1] !in BoundOuts(block.bindPairs)
    ensures forall a, b | Linked(block, a, b) :: exists j :: 0 < j < |order| && order[j - 1] == a && order[j] == b
  {
    var rank: seq<nat> :| |rank| == |block.coders| && IsRank(Edges(block), rank);
    forall c | 0 <= c < |block.coders|
      ensures c in order
    {
      CoderVisited(block, rank, order, c);
    }
    ChainDistinct(block, order);
    SimpleStart(block, order);
    DistinctSize(order);
    assert ToSet(order) == Below(|block.coders|);
    forall a, b | Linked(block, a, b)
      ensures exists j :: 0 < j < |order| && order[j - 1] == a && order[j] == b
    {
      LinkClimbs(block, rank, a, b);
      assert b in order;
      var j :| 0 <= j < |order| && order[j] == b;
      LinkInjective(block, a, if j > 0 then order[j - 1] else a, b);
      assert j > 0 && Linked(block, order[j - 1], order[j]);
    }
  }

  // ---------------------------------------------------------------------
  // Parsing
  // ---------------------------------------------------------------------

  datatype BlockError =
    | Truncated
    | StreamCountsExceedLimit
    | NoOutputStreams
    | PairOutOfRange
    | TooFewInputs
    | NoUnboundInput
    | BadGraph(error: GraphError)

  /** Adds up the coders' streams, keeping both totals within the limit. */
  method CountStreams(coders: seq<Coder>, limit: nat) returns (r: Result<(nat, nat), BlockError>)
    ensures r.Ok? <==> PrefixSum(Ins(coders), |coders|) <= limit && PrefixSum(Outs(coders), |coders|) <= limit
    ensures r.Ok? ==> r.value == (PrefixSum(Ins(coders), |coders|), PrefixSum(Outs(coders), |coders|))
    ensures r.Err? ==> r.error == StreamCountsExceedLimit
  {
    var totalIn, totalOut: nat := 0, 0;
    for c := 0 to |coders|
      invariant totalIn == PrefixSum(Ins(coders), c) <= limit && totalOut == PrefixSum(Outs(coders), c) <= limit
    {
      totalIn := totalIn + coders[c].numInStreams;
      totalOut := totalOut + coders[c].numOutStreams;
      if totalIn > limit || totalOut > limit {
        PrefixSumMonotone(Ins(coders), c + 1, |coders|);
        PrefixSumMonotone(Outs(coders), c + 1, |coders|);
        return Err(StreamCountsExceedLimit);
      }
    }
    r := Ok((totalIn, totalOut));
  }

  predicate AllInRange(pairs: seq<BindPair>, totalIn: nat, totalOut: nat) {
    forall e | 0 <= e < |pairs| :: pairs[e].inIndex < totalIn && pairs[e].outIndex < totalOut
  }

  /** The bind pair whose two numbers stand at position `at`, the input first. */
  function PairAt(bytes: seq<byte>, at: nat): (r: Option<(BindPair, nat)>)
    ensures r.Some? ==> at < r.value.1 <= |bytes|
  {
    match NumberAt(bytes, at)
    case None => None
    case Some((inIndex, middle)) =>
      match NumberAt(bytes, middle)
      case None => None
      case Some((outIndex, end)) => Some((BindPair(inIndex, outIndex), end))
  }

  function PairsAt(bytes: seq<byte>, at: nat, n: nat): (r: Option<(seq<BindPair>, nat)>)
    requires at <= |bytes|
    ensures r.Some? ==> |r.value.0| == n && at <= r.value.1 <= |bytes|
  {
    if n == 0 then Some(([], at))
    else
      match PairsAt(bytes, at, n - 1)
      case None => None
      case Some((pairs, next)) =>
        match PairAt(bytes, next)
        case None => None
        case Some((pair, end)) => Some((pairs + [pair], end))
  }

  /** Fewer pairs are the first of more. */
  lemma {:induction false} PairsFirst(bytes: seq<byte>, at: nat, i: nat, n: nat)
    requires at <= |bytes| && i <= n && PairsAt(bytes, at, n).Some?
    ensures PairsAt(bytes, at, i).Some? && PairsAt(bytes, at, i).value.0 == PairsAt(bytes, at, n).value.0[..i]
    decreases n - i
  {
    hide PairAt;
    if i < n {
      PairsFirst(bytes, at, i, n - 1);
    }
  }

  method ReadPair(header: Reader) returns (r: Option<BindPair>)
    requires header.Valid()
    modifies header
    ensures header.Valid()
    ensures match PairAt(header.bytes, old(header.position))
            case Some((pair, end)) => r == Some(pair) && header.position == end
            case None => r == None
  {
    var inIndex := header.ReadVariableU64();
    if inIndex.None? {
      return None;
    }
    var outIndex := header.ReadVariableU64();
    if outIndex.None? {
      return None;
    }
    r := Some(BindPair(inIndex.value, outIndex.value));
  }

  /** Succeeds exactly when the header holds that many pairs and all of them are in range. */
  method ReadPairs(header: Reader, count: nat, totalIn: nat, totalOut: nat)
    returns (r: Result<seq<BindPair>, BlockError>)
    requires header.Valid()
    modifies header
    ensures header.Valid()
    ensures match PairsAt(header.bytes, old(header.position), count)
            case Some((pairs, end)) =>
              if AllInRange(pairs, totalIn, totalOut) then r == Ok(pairs) && header.position == end
              else r == Err(PairOutOfRange)
            case None => r == Err(Truncated) || r == Err(PairOutOfRange)
  {
    hide PairAt;
    var pairs: seq<BindPair> := [];
    ghost var start := header.position;
    ghost var all := PairsAt(header.bytes, start, count);
    for i := 0 to count
      invariant header.Valid() && AllInRange(pairs, totalIn, totalOut)
      invariant PairsAt(header.bytes, start, i) == Some((pairs, header.position))
    {
      if all.Some? {
        PairsFirst(header.bytes, start, i, count);
        PairsFirst(header.bytes, start, i + 1, count);
      }
      var pair := ReadPair(header);
      if pair.None? {
        return Err(Truncated);
      }
      if pair.value.inIndex >= totalIn || pair.value.outIndex >= totalOut {
        assert all.Some? ==> all.value.0[i] == pair.value;
        return Err(PairOutOfRange);
      }
      pairs := pairs + [pair.value];
    }
    r := Ok(pairs);
  }

  /** The first input that no bind pair feeds. */
  method FirstUnbound(pairs: seq<BindPair>, totalIn: nat) returns (index: Option<nat>)
    ensures index.Some? ==> index.value < totalIn && index.value !in BoundIns(pairs)
    ensures index.Some? ==> forall i | 0 <= i < index.value :: i in BoundIns(pairs)
    ensures index.None? ==> forall i | 0 <= i < totalIn :: i in BoundIns(pairs)
  {
    for i := 0 to totalIn
      invariant forall j | 0 <= j < i :: j in BoundIns(pairs)
    {
      var pair := FindIn(pairs, i);
      if pair.None? {
        return Some(i);
      }
      assert BoundIns(pairs)[pair.value] == i;
    }
    index := None;
  }

  method ReadPacked(header: Reader, count: nat) returns (r: Result<seq<nat>, BlockError>)
    requires header.Valid()
    modifies header
    ensures header.Valid()
    ensures match NumbersAt(header.bytes, old(header.position), count)
            case Some((numbers, end)) => r == Ok(numbers) && header.position == end
            case None => r == Err(Truncated)
  {
    var packed: seq<nat> := [];
    ghost var start := header.position;
    for i := 0 to count
      invariant header.Valid() && NumbersAt(header.bytes, start, i) == Some((packed, header.position))
    {
      var index := header.ReadVariableU64();
      if index.None? {
        NumbersFail(header.bytes, start, i + 1, count);
        return Err(Truncated);
      }
      packed := packed + [index.value];
    }
    r := Ok(packed);
  }

  /**
   * The block's bindings are those the header holds from `at` to `end`. A single packed stream is not in the header: it
   * is the first input that no pair feeds.
   */
  ghost predicate ReadFrom(bytes: seq<byte>, at: nat, block: Block, end: nat) {
    && at <= |bytes|
    && var pairs := PairsAt(bytes, at, |block.bindPairs|);
    && pairs.Some? && block.bindPairs == pairs.value.0
    && if |block.packedStreams| == 1 then
         && end == pairs.value.1 && block.packedStreams[0] !in BoundIns(block.bindPairs)
         && forall i | 0 <= i < block.packedStreams[0] :: i in BoundIns(block.bindPairs)
       else NumbersAt(bytes, pairs.value.1, |block.packedStreams|) == Some((block.packedStreams, end))
  }

  /** What the header holds from `at` to `end` makes this block, which is accepted and within the limit. */
  ghost predicate Holds(bytes: seq<byte>, at: nat, coders: seq<Coder>, limit: nat, block: Block, end: nat) {
    && block.coders == coders && Accepted(block) && ReadFrom(bytes, at, block, end)
    && TotalIn(block) <= limit && TotalOut(block) <= limit
  }

  /** There are as many packed streams as inputs that no pair feeds. */
  lemma PackedCount(block: Block)
    requires Accepted(block)
    ensures |block.bindPairs| + |block.packedStreams| == TotalIn(block)
  {
    hide Acyclic;
    DistinctSize(Feeds(block));
    assert ToSet(Feeds(block)) == Below(TotalIn(block));
  }

  /** The header makes one block at most: the one that reading builds. */
  lemma OneBlock(bytes: seq<byte>, at: nat, coders: seq<Coder>, limit: nat, block: Block, end: nat)
    requires Holds(bytes, at, coders, limit, block, end)
    ensures at <= |bytes| && 0 < TotalOut(block) <= TotalIn(block) + 1
    ensures var pairs := PairsAt(bytes, at, TotalOut(block) - 1);
            && pairs.Some? && pairs.value.0 == block.bindPairs
            && AllInRange(block.bindPairs, TotalIn(block), TotalOut(block))
            && var count := TotalIn(block) + 1 - TotalOut(block);
            && |block.packedStreams| == count
            && if count == 1 then
                 && block.packedStreams[0] < TotalIn(block) && block.packedStreams[0] !in BoundIns(block.bindPairs)
                 && forall i | 0 <= i < block.packedStreams[0] :: i in BoundIns(block.bindPairs)
               else NumbersAt(bytes, pairs.value.1, count) == Some((block.packedStreams, end))
  {
    hide Acyclic, NumbersAt, PairsAt;
    PackedCount(block);
    assert forall f | f in Feeds(block) :: f < TotalIn(block);
    assert block.packedStreams != [] ==> Feeds(block)[|block.bindPairs|] == block.packedStreams[0];
    assert block.packedStreams != [] ==> block.packedStreams[0] in Feeds(block);
  }

  lemma ThatBlock(bytes: seq<byte>, at: nat, coders: seq<Coder>, limit: nat, block: Block, end: nat)
    requires Holds(bytes, at, coders, limit, block, end)
    ensures block.coders == coders && PairsInRange(block) && ValidGraph(block)
    ensures TotalIn(block) <= limit && TotalOut(block) <= limit
  {
  }

  lemma BuiltHolds(bytes: seq<byte>, at: nat, coders: seq<Coder>, limit: nat, block: Block, end: nat)
    requires block.coders == coders && PairsInRange(block) && ValidGraph(block) && ReadFrom(bytes, at, block, end)
    requires |block.bindPairs| + 1 == TotalOut(block) && TotalIn(block) <= limit && TotalOut(block) <= limit
    ensures Holds(bytes, at, coders, limit, block, end)
  {
  }

  /**
   * Reads the bind pairs and packed streams behind the coders. It succeeds exactly when the header makes a block that
   * is within the limit and accepted: in range, bound consistently and acyclic. A single packed stream is always
   * found, so that error is never reported.
   */
  method ReadBlock(header: Reader, coders: seq<Coder>, limit: nat) returns (r: Result<Block, BlockError>)
    requires header.Valid()
    modifies header
    ensures header.Valid()
    ensures r.Ok? ==> Holds(header.bytes, old(header.position), coders, limit, r.value, header.position)
    ensures r.Ok? <==> exists block, end: nat :: Holds(header.bytes, old(header.position), coders, limit, block, end)
    ensures r != Err(NoUnboundInput)
  {
    hide PairsAt, NumbersAt, ValidGraph, BoundIns, Holds, PrefixSum;
    ghost var start := header.position;
    ghost var one, oneEnd: nat := Block(coders, [], []), 0;
    ghost var some := exists block, end: nat :: Holds(header.bytes, start, coders, limit, block, end);
    if some {
      one, oneEnd :| Holds(header.bytes, start, coders, limit, one, oneEnd);
      OneBlock(header.bytes, start, coders, limit, one, oneEnd);
      ThatBlock(header.bytes, start, coders, limit, one, oneEnd);
    }
    var totals := CountStreams(coders, limit);
    if totals.Err? {
      return Err(totals.error);
    }
    var (totalIn, totalOut) := totals.value;
    if totalOut == 0 {
      return Err(NoOutputStreams);
    }
    var pairs := ReadPairs(header, totalOut - 1, totalIn, totalOut);
    if pairs.Err? {
      return Err(pairs.error);
    }
    if totalIn < totalOut - 1 {
      return Err(TooFewInputs);
    }
    var packed;
    if totalIn - (totalOut - 1) == 1 {
      var index := FirstUnbound(pairs.value, totalIn);
      ghost var missing := MissingNumber(BoundIns(pairs.value), totalIn);
      packed := [index.value];
      assert some ==> index.value == one.packedStreams[0];
    } else {
      var read := ReadPacked(header, totalIn - (totalOut - 1));
      if read.Err? {
        return Err(read.error);
      }
      packed := read.value;
    }
    var block := Block(coders, pairs.value, packed);
    assert some ==> block.packedStreams == one.packedStreams && block == one;
    var valid := ValidateCoderGraph(block);
    if valid.Err? {
      return Err(BadGraph(valid.error));
    }
    BuiltHolds(header.bytes, start, coders, limit, block, header.position);
    r := Ok(block);
  }
}
