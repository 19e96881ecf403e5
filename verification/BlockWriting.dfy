/** Writing the bindings of a 7z block, and reading them back. */
module BlockWriting {
  import opened BlockGraph
  import opened CoderChain
  import opened Common
  import opened HeaderReader
  import opened NumberWriting
  import opened TopologicalSort

  /** A bind pair as it is written: the input, and the output that feeds it. */
  datatype Bound = Bound(input: Num, output: Num)

  ghost predicate FitsBound(bound: Bound) {
    Fits(bound.input.value, bound.input.extra) && Fits(bound.output.value, bound.output.extra)
  }

  ghost predicate AllBound(bounds: seq<Bound>) {
    forall i | 0 <= i < |bounds| :: FitsBound(bounds[i])
  }

  function PairsOf(bounds: seq<Bound>): (pairs: seq<BindPair>)
    ensures |pairs| == |bounds|
  {
    seq(|bounds|, i requires 0 <= i < |bounds| => BindPair(bounds[i].input.value, bounds[i].output.value))
  }

  ghost function BoundBytes(bound: Bound): seq<byte>
    requires FitsBound(bound)
  {
    Encode(bound.input.value, bound.input.extra) + Encode(bound.output.value, bound.output.extra)
  }

  /** Each input in front of the output that feeds it. */
  ghost function BoundsBytes(bounds: seq<Bound>): seq<byte>
    requires AllBound(bounds)
  {
    if bounds == [] then []
    else BoundsBytes(bounds[..|bounds| - 1]) + BoundBytes(bounds[|bounds| - 1])
  }

  /** The bind pairs, and the packed streams behind them. A single packed stream is not written. */
  ghost function BlockBytes(bounds: seq<Bound>, packed: seq<Num>): seq<byte>
    requires AllBound(bounds) && AllFit(packed)
  {
    BoundsBytes(bounds) + if |packed| == 1 then [] else NumbersBytes(packed)
  }

  lemma BoundRead(front: seq<byte>, bound: Bound, rest: seq<byte>)
    requires FitsBound(bound)
    ensures PairAt(front + BoundBytes(bound) + rest, |front|)
         == Some((BindPair(bound.input.value, bound.output.value), |front + BoundBytes(bound)|))
  {
    hide NumberAt, Encode, Fits;
    var input, output := Encode(bound.input.value, bound.input.extra), Encode(bound.output.value, bound.output.extra);
    Grouped(front, input, output, rest);
    NumberRead(front, bound.input, output + rest);
    NumberRead(front + input, bound.output, rest);
  }

  lemma {:induction false} BoundsRead(front: seq<byte>, bounds: seq<Bound>, rest: seq<byte>)
    requires AllBound(bounds)
    ensures var written := BoundsBytes(bounds);
            PairsAt(front + written + rest, |front|, |bounds|) == Some((PairsOf(bounds), |front + written|))
  {
    hide PairAt, BoundBytes, FitsBound;
    if bounds == [] {
      assert front + [] + rest == front + rest;
    } else {
      var n := |bounds| - 1;
      var before, last := BoundsBytes(bounds[..n]), BoundBytes(bounds[n]);
      Grouped(front, before, last, rest);
      BoundsRead(front, bounds[..n], last + rest);
      BoundRead(front + before, bounds[n], rest);
      assert PairsOf(bounds) == PairsOf(bounds[..n]) + [BindPair(bounds[n].input.value, bounds[n].output.value)];
    }
  }

  /** The one packed stream that is not written is the first input that no pair feeds. */
  lemma OneUnfed(block: Block)
    requires Accepted(block) && |block.packedStreams| == 1
    ensures block.packedStreams[0] !in BoundIns(block.bindPairs)
    ensures forall i | 0 <= i < block.packedStreams[0] :: i in BoundIns(block.bindPairs)
  {
    hide Acyclic;
    var feeds, bound := Feeds(block), BoundIns(block.bindPairs);
    assert feeds[|bound|] == block.packedStreams[0] && block.packedStreams[0] in feeds;
    assert forall i | 0 <= i < |bound| :: feeds[i] == bound[i];
    forall i | 0 <= i < block.packedStreams[0]
      ensures i in bound
    {
      assert i in feeds;
      var k :| 0 <= k < |feeds| && feeds[k] == i;
      assert k < |bound|;
    }
  }

  lemma WrittenReadFrom(front: seq<byte>, block: Block, bounds: seq<Bound>, packed: seq<Num>, rest: seq<byte>)
    requires Accepted(block) && AllBound(bounds) && AllFit(packed)
    requires block.bindPairs == PairsOf(bounds) && block.packedStreams == Values(packed)
    ensures var bytes, end := front + BlockBytes(bounds, packed) + rest, |front + BlockBytes(bounds, packed)|;
            ReadFrom(bytes, |front|, block, end)
  {
    hide Accepted, BoundsBytes, NumbersBytes, PairsAt, NumbersAt, AllBound, AllFit, BoundIns;
    var written := if |packed| == 1 then [] else NumbersBytes(packed);
    Grouped(front, BoundsBytes(bounds), written, rest);
    BoundsRead(front, bounds, written + rest);
    if |packed| == 1 {
      OneUnfed(block);
    } else {
      NumbersRead(front + BoundsBytes(bounds), packed, rest);
    }
  }

  /**
   * The bindings of an accepted block, written in any admissible way, are read back whatever follows them, and no other
   * block is read from them.
   */
  lemma BlockRead(
    front: seq<byte>, block: Block, bounds: seq<Bound>, packed: seq<Num>, limit: nat, rest: seq<byte>)
    requires Accepted(block) && TotalIn(block) <= limit && TotalOut(block) <= limit
    requires AllBound(bounds) && AllFit(packed)
    requires block.bindPairs == PairsOf(bounds) && block.packedStreams == Values(packed)
    ensures var bytes, end := front + BlockBytes(bounds, packed) + rest, |front + BlockBytes(bounds, packed)|;
            forall other, end': nat ::
              Holds(bytes, |front|, block.coders, limit, other, end') <==> other == block && end' == end
  {
    var bytes, end := front + BlockBytes(bounds, packed) + rest, |front + BlockBytes(bounds, packed)|;
    WrittenReadFrom(front, block, bounds, packed, rest);
    assert Holds(bytes, |front|, block.coders, limit, block, end) by {
      hide ReadFrom, Accepted;
    }
    hide *;
    forall other, end': nat
      ensures Holds(bytes, |front|, block.coders, limit, other, end') <==> other == block && end' == end
    {
      if Holds(bytes, |front|, block.coders, limit, other, end') {
        OnlyOne(bytes, |front|, block.coders, limit, block, end, other, end');
      }
    }
  }

  lemma OnlyOne(
    bytes: seq<byte>, at: nat, coders: seq<Coder>, limit: nat, block: Block, end: nat, other: Block, end': nat)
    requires Holds(bytes, at, coders, limit, block, end) && Holds(bytes, at, coders, limit, other, end')
    ensures other == block && end' == end
  {
    ThatBlock(bytes, at, coders, limit, block, end);
    ThatBlock(bytes, at, coders, limit, other, end');
    OneBlock(bytes, at, coders, limit, block, end);
    OneBlock(bytes, at, coders, limit, other, end');
    assert ReadFrom(bytes, at, block, end) && ReadFrom(bytes, at, other, end');
    hide Holds, PairsAt, NumbersAt, ValidGraph, BoundIns, PrefixSum;
    assert block.bindPairs == other.bindPairs && |block.packedStreams| == |other.packedStreams|;
    if |block.packedStreams| == 1 {
      var i, j := block.packedStreams[0], other.packedStreams[0];
      assert i == j;
      assert block.packedStreams == [i] && other.packedStreams == [j];
    }
  }
}
