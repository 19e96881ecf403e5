/** 7z blocks: their coders, stream bindings and the checks made before any decoder is built. */
module BlockGraph {
  import opened Common
  import opened TopologicalSort

  datatype Coder = Coder(numInStreams: nat, numOutStreams: nat)

  datatype BindPair = BindPair(inIndex: nat, outIndex: nat)

  datatype Block = Block(coders: seq<Coder>, bindPairs: seq<BindPair>, packedStreams: seq<nat>)

  datatype GraphError = DuplicateBinding | PackedOutOfRange | DuplicatePacked | UnboundInput | Cyclic

  // ---------------------------------------------------------------------
  // Streams and the coders that own them
  // ---------------------------------------------------------------------

  function Ins(coders: seq<Coder>): (counts: seq<nat>)
    ensures |counts| == |coders|
  {
    seq(|coders|, i requires 0 <= i < |coders| => coders[i].numInStreams)
  }

  function Outs(coders: seq<Coder>): (counts: seq<nat>)
    ensures |counts| == |coders|
  {
    seq(|coders|, i requires 0 <= i < |coders| => coders[i].numOutStreams)
  }

  function TotalIn(block: Block): nat { PrefixSum(Ins(block.coders), |block.coders|) }

  function TotalOut(block: Block): nat { PrefixSum(Outs(block.coders), |block.coders|) }

  /** The coder among the first `k` whose stream range holds stream `i`. */
  function OwnerBelow(counts: seq<nat>, k: nat, i: nat): (owner: nat)
    requires k <= |counts| && i < PrefixSum(counts, k)
    ensures owner < k && PrefixSum(counts, owner) <= i < PrefixSum(counts, owner + 1)
  {
    if i >= PrefixSum(counts, k - 1) then k - 1 else OwnerBelow(counts, k - 1, i)
  }

  function Owner(counts: seq<nat>, i: nat): (owner: nat)
    requires i < PrefixSum(counts, |counts|)
    ensures owner < |counts|
  {
    OwnerBelow(counts, |counts|, i)
  }

  lemma {:induction false} OwnerBelowIs(counts: seq<nat>, k: nat, i: nat, owner: nat)
    requires k <= |counts| && owner < k && PrefixSum(counts, owner) <= i < PrefixSum(counts, owner + 1)
    ensures i < PrefixSum(counts, k) && OwnerBelow(counts, k, i) == owner
  {
    if owner < k - 1 {
      OwnerBelowIs(counts, k - 1, i, owner);
    }
  }

  predicate PairsInRange(block: Block) {
    forall e | 0 <= e < |block.bindPairs| ::
      block.bindPairs[e].inIndex < TotalIn(block) && block.bindPairs[e].outIndex < TotalOut(block)
  }

  /** Every bind pair carries an output of one coder to an input of another. */
  function Edges(block: Block): (edges: seq<Edge>)
    requires PairsInRange(block)
    ensures |edges| == |block.bindPairs| && InRange(edges, |block.coders|)
  {
    seq(|block.bindPairs|, e requires 0 <= e < |block.bindPairs| =>
      Edge(
        Owner(Outs(block.coders), block.bindPairs[e].outIndex),
        Owner(Ins(block.coders), block.bindPairs[e].inIndex)))
  }

  // ---------------------------------------------------------------------
  // What a valid block is
  // ---------------------------------------------------------------------

  predicate Distinct(s: seq<nat>) {
    forall i, j | 0 <= i < j < |s| :: s[i] != s[j]
  }

  function BoundIns(pairs: seq<BindPair>): (s: seq<nat>)
    ensures |s| == |pairs| && forall e | 0 <= e < |pairs| :: s[e] == pairs[e].inIndex
  {
    seq(|pairs|, e requires 0 <= e < |pairs| => pairs[e].inIndex)
  }

  function BoundOuts(pairs: seq<BindPair>): (s: seq<nat>)
    ensures |s| == |pairs| && forall e | 0 <= e < |pairs| :: s[e] == pairs[e].outIndex
  {
    seq(|pairs|, e requires 0 <= e < |pairs| => pairs[e].outIndex)
  }

  /** Everything that feeds an input: the bind pairs, then the packed streams. */
  function Feeds(block: Block): seq<nat> {
    BoundIns(block.bindPairs) + block.packedStreams
  }

  /** No output is bound twice, and every input is fed exactly once. */
  predicate ValidBindings(block: Block) {
    && Distinct(BoundOuts(block.bindPairs))
    && Distinct(Feeds(block))
    && (forall f | f in Feeds(block) :: f < TotalIn(block))
    && (forall i | 0 <= i < TotalIn(block) :: i in Feeds(block))
  }

  ghost predicate ValidGraph(block: Block)
    requires PairsInRange(block)
  {
    ValidBindings(block) && Acyclic(Edges(block), |block.coders|)
  }

  // ---------------------------------------------------------------------
  // Owner tables
  // ---------------------------------------------------------------------

  method FillOwners(counts: seq<nat>) returns (owner: array<nat>)
    ensures fresh(owner) && owner.Length == PrefixSum(counts, |counts|)
    ensures forall i | 0 <= i < owner.Length :: owner[i] == Owner(counts, i)
  {
    owner := new nat[PrefixSum(counts, |counts|)](_ => 0);
    var start: nat := 0;
    for index := 0 to |counts|
      invariant start == PrefixSum(counts, index) <= owner.Length
      invariant forall i | 0 <= i < start :: owner[i] == Owner(counts, i)
    {
      var end := start + counts[index];
      PrefixSumMonotone(counts, index + 1, |counts|);
      for i := start to end
        invariant forall j | 0 <= j < i :: owner[j] == Owner(counts, j)
      {
        OwnerBelowIs(counts, |counts|, i, index);
        owner[i] := index;
      }
      start := end;
    }
  }

  // ---------------------------------------------------------------------
  // Marking streams
  // ---------------------------------------------------------------------

  /** `bound` marks exactly the listed streams. */
  ghost predicate Marks(bound: seq<bool>, s: seq<nat>) {
    forall i | 0 <= i < |bound| :: bound[i] <==> i in s
  }

  /** Marks a stream and reports whether it was marked before. */
  method Replace(bound: array<bool>, i: nat, ghost s: seq<nat>) returns (before: bool)
    requires i < bound.Length && Marks(bound[..], s)
    modifies bound
    ensures before <==> i in s
    ensures Marks(bound[..], s + [i])
  {
    before := bound[i];
    assert before == bound[..][i];
    bound[i] := true;
    forall j | 0 <= j < bound.Length
      ensures bound[..][j] <==> j in s + [i]
    {
      assert j != i ==> bound[j] == old(bound[..])[j];
    }
  }

  lemma DistinctSnoc(s: seq<nat>, x: nat)
    ensures Distinct(s + [x]) <==> Distinct(s) && x !in s
  {
    if Distinct(s + [x]) {
      forall i | 0 <= i < |s|
        ensures s[i] != x
      {
        assert (s + [x])[i] != (s + [x])[|s|];
      }
      forall i, j | 0 <= i < j < |s|
        ensures s[i] != s[j]
      {
        assert (s + [x])[i] != (s + [x])[j];
      }
    }
  }

  lemma {:induction false} DistinctPrefix(s: seq<nat>, k: nat)
    requires k <= |s| && Distinct(s)
    ensures Distinct(s[..k])
  {
    forall i, j | 0 <= i < j < k
      ensures s[..k][i] != s[..k][j]
    {
      assert s[i] != s[j];
    }
  }

  // ---------------------------------------------------------------------
  // The bind pairs
  // ---------------------------------------------------------------------

  ghost predicate IncomingBelow(edges: seq<Edge>, incoming: seq<nat>, k: nat)
    requires k <= |edges|
  {
    forall d | 0 <= d < |incoming| :: incoming[d] == InCount(edges, Below(|edges|), d, k)
  }

  ghost predicate TableOf(edges: seq<Edge>, incoming: seq<nat>, first: seq<Option<nat>>, next: seq<Option<nat>>) {
    && |incoming| == |first| && |next| <= |edges|
    && FirstEdges(edges, first, |next|) && NextEdges(edges, next)
    && IncomingBelow(edges, incoming, |next|)
  }

  lemma NothingLinked(edges: seq<Edge>, incoming: seq<nat>, first: seq<Option<nat>>)
    requires |incoming| == |first|
    requires forall c | 0 <= c < |incoming| :: incoming[c] == 0 && first[c] == None
    ensures TableOf(edges, incoming, first, [])
  {
  }

  lemma AddIncoming(edges: seq<Edge>, incoming: seq<nat>, k: nat)
    requires k < |edges| && InRange(edges, |incoming|) && IncomingBelow(edges, incoming, k)
    ensures var d := edges[k].destination;
            IncomingBelow(edges, incoming[d := incoming[d] + 1], k + 1)
  {
  }

  lemma AddNext(edges: seq<Edge>, next: seq<Option<nat>>, before: Option<nat>)
    requires |next| < |edges| && NextEdges(edges, next)
    requires before == LastEdge(edges, edges[|next|].source, |next|)
    ensures NextEdges(edges, next + [before])
  {
  }

  lemma AddFirst(edges: seq<Edge>, first: seq<Option<nat>>, k: nat)
    requires k < |edges| && InRange(edges, |first|) && FirstEdges(edges, first, k)
    ensures FirstEdges(edges, first[edges[k].source := Some(k)], k + 1)
    ensures first[edges[k].source] == LastEdge(edges, edges[k].source, k)
  {
    var first' := first[edges[k].source := Some(k)];
    forall c | 0 <= c < |first|
      ensures first'[c] == LastEdge(edges, c, k + 1)
    {
      assert c != edges[k].source ==> first[c] == LastEdge(edges, c, k);
    }
  }

  lemma AddEdge(edges: seq<Edge>, incoming: seq<nat>, first: seq<Option<nat>>, next: seq<Option<nat>>)
    requires TableOf(edges, incoming, first, next) && |next| < |edges| && InRange(edges, |incoming|)
    ensures var e := edges[|next|];
            TableOf(edges, incoming[e.destination := incoming[e.destination] + 1],
                    first[e.source := Some(|next|)], next + [first[e.source]])
  {
    AddIncoming(edges, incoming, |next|);
    AddFirst(edges, first, |next|);
    AddNext(edges, next, first[edges[|next|].source]);
  }

  method Increment(counts: array<nat>, i: nat)
    requires i < counts.Length
    modifies counts
    ensures counts[..] == old(counts[..])[i := old(counts[i]) + 1]
  {
    counts[i] := counts[i] + 1;
  }

  /** Stores a value and returns the one it replaces. */
  method ReplaceFirst(first: array<Option<nat>>, i: nat, e: nat) returns (before: Option<nat>)
    requires i < first.Length
    modifies first
    ensures first[..] == old(first[..])[i := Some(e)] && before == old(first[i])
  {
    before := first[i];
    first[i] := Some(e);
  }

  /** Builds the incoming counts and the edge lists, in one pass over the edges. */
  method LinkEdges(edges: seq<Edge>, n: nat)
    returns (incoming: array<nat>, first: array<Option<nat>>, next: seq<Option<nat>>)
    requires InRange(edges, n)
    ensures fresh(incoming) && incoming.Length == n == first.Length && |next| == |edges|
    ensures TableOf(edges, incoming[..], first[..], next)
  {
    hide TableOf;
    incoming := new nat[n](_ => 0);
    first := new Option<nat>[n](_ => None);
    next := [];
    NothingLinked(edges, incoming[..], first[..]);
    for e := 0 to |edges|
      invariant |next| == e && TableOf(edges, incoming[..], first[..], next)
    {
      AddEdge(edges, incoming[..], first[..], next);
      Increment(incoming, edges[e].destination);
      var before := ReplaceFirst(first, edges[e].source, e);
      next := next + [before];
    }
  }

  /** Marks both ends of every bind pair; stops at the first end marked twice. */
  method MarkPairs(pairs: seq<BindPair>, boundInputs: array<bool>, boundOutputs: array<bool>) returns (ok: bool)
    requires boundInputs != boundOutputs && Marks(boundInputs[..], []) && Marks(boundOutputs[..], [])
    requires forall e | 0 <= e < |pairs| ::
               pairs[e].inIndex < boundInputs.Length && pairs[e].outIndex < boundOutputs.Length
    modifies boundInputs, boundOutputs
    ensures ok <==> Distinct(BoundIns(pairs)) && Distinct(BoundOuts(pairs))
    ensures ok ==> Marks(boundInputs[..], BoundIns(pairs))
  {
    ghost var ins, outs := BoundIns(pairs), BoundOuts(pairs);
    for e := 0 to |pairs|
      invariant Marks(boundInputs[..], ins[..e]) && Marks(boundOutputs[..], outs[..e])
      invariant Distinct(ins[..e]) && Distinct(outs[..e])
    {
      assert ins[..e + 1] == ins[..e] + [ins[e]] && outs[..e + 1] == outs[..e] + [outs[e]];
      DistinctSnoc(ins[..e], ins[e]);
      DistinctSnoc(outs[..e], outs[e]);
      var inBound := Replace(boundInputs, pairs[e].inIndex, ins[..e]);
      if inBound {
        NotDistinct(ins, e + 1);
        return false;
      }
      var outBound := Replace(boundOutputs, pairs[e].outIndex, outs[..e]);
      if outBound {
        NotDistinct(outs, e + 1);
        return false;
      }
    }
    assert ins[..|pairs|] == ins && outs[..|pairs|] == outs;
    ok := true;
  }

  lemma NotDistinct(s: seq<nat>, k: nat)
    requires k <= |s|
    ensures Distinct(s) ==> Distinct(s[..k])
  {
    if Distinct(s) {
      DistinctPrefix(s, k);
    }
  }

  /** Marks the packed streams behind the bound inputs. */
  method MarkPacked(ins: seq<nat>, packed: seq<nat>, bound: array<bool>) returns (error: Option<GraphError>)
    requires Marks(bound[..], ins) && Distinct(ins)
    modifies bound
    ensures error.None? <==> Distinct(ins + packed) && forall f | f in packed :: f < bound.Length
    ensures error.None? ==> Marks(bound[..], ins + packed)
    ensures error.Some? ==> error.value.PackedOutOfRange? || error.value.DuplicatePacked?
    ensures error == Some(PackedOutOfRange) ==> exists f :: f in packed && f >= bound.Length
    ensures error == Some(DuplicatePacked) ==> !Distinct(ins + packed)
  {
    ghost var all := ins + packed;
    assert all[..|ins|] == ins;
    for k := 0 to |packed|
      invariant Marks(bound[..], all[..|ins| + k]) && Distinct(all[..|ins| + k])
      invariant forall f | f in packed[..k] :: f < bound.Length
    {
      assert all[..|ins| + k + 1] == all[..|ins| + k] + [packed[k]];
      assert packed[..k + 1] == packed[..k] + [packed[k]];
      DistinctSnoc(all[..|ins| + k], packed[k]);
      assert packed[k] in packed;
      if packed[k] >= bound.Length {
        return Some(PackedOutOfRange);
      }
      var before := Replace(bound, packed[k], all[..|ins| + k]);
      if before {
        NotDistinct(all, |ins| + k + 1);
        return Some(DuplicatePacked);
      }
    }
    assert all[..|ins| + |packed|] == all && packed[..|packed|] == packed;
    error := None;
  }

  /** Whether every input is marked. */
  method AllBound(bound: array<bool>, ghost s: seq<nat>) returns (all: bool)
    requires Marks(bound[..], s)
    ensures all <==> forall i: nat | i < bound.Length :: i in s
  {
    for i := 0 to bound.Length
      invariant forall j | 0 <= j < i :: j in s
    {
      assert bound[i] == bound[..][i];
      if !bound[i] {
        return false;
      }
    }
    all := true;
  }

  /** Why a block is not accepted. */
  ghost predicate Refused(block: Block, error: GraphError)
    requires PairsInRange(block)
  {
    match error
    case DuplicateBinding => !Distinct(BoundIns(block.bindPairs)) || !Distinct(BoundOuts(block.bindPairs))
    case PackedOutOfRange => exists f :: f in block.packedStreams && f >= TotalIn(block)
    case DuplicatePacked => Distinct(BoundIns(block.bindPairs)) && !Distinct(Feeds(block))
    case UnboundInput => Distinct(Feeds(block)) && exists i: nat :: i < TotalIn(block) && i !in Feeds(block)
    case Cyclic => ValidBindings(block) && !Acyclic(Edges(block), |block.coders|)
  }

  /**
   * Accepts a block if and only if no output is bound twice, every input is fed exactly once by a bind pair or a
   * packed stream in range, and the coder graph is acyclic. Every array access is in range and the work list ends.
   */
  method ValidateCoderGraph(block: Block) returns (r: Result<(), GraphError>)
    requires PairsInRange(block)
    ensures r.Ok? <==> ValidGraph(block)
    ensures r.Err? ==> Refused(block, r.error)
  {
    var pairs := block.bindPairs;
    var inputOwner := FillOwners(Ins(block.coders));
    var outputOwner := FillOwners(Outs(block.coders));
    var boundInputs := new bool[inputOwner.Length](_ => false);
    var boundOutputs := new bool[outputOwner.Length](_ => false);
    var ok := MarkPairs(pairs, boundInputs, boundOutputs);
    BoundPrefix(block);
    if !ok {
      return Err(DuplicateBinding);
    }
    var packedError := MarkPacked(BoundIns(pairs), block.packedStreams, boundInputs);
    if packedError.Some? {
      return Err(packedError.value);
    }
    var all := AllBound(boundInputs, Feeds(block));
    if !all {
      return Err(UnboundInput);
    }
    var edges := seq(|pairs|, e requires 0 <= e < |pairs| reads inputOwner, outputOwner =>
      Edge(outputOwner[pairs[e].outIndex], inputOwner[pairs[e].inIndex]));
    assert edges == Edges(block);
    r := SortCoders(edges, |block.coders|);
  }

  lemma BoundPrefix(block: Block)
    requires PairsInRange(block)
    ensures Distinct(Feeds(block)) ==> Distinct(BoundIns(block.bindPairs))
    ensures (forall f | f in Feeds(block) :: f < TotalIn(block)) <==>
            (forall f | f in block.packedStreams :: f < TotalIn(block))
  {
    NotDistinct(Feeds(block), |block.bindPairs|);
    var ins := BoundIns(block.bindPairs);
    assert Feeds(block)[..|block.bindPairs|] == ins;
    forall f | f in ins
      ensures f < TotalIn(block)
    {
      var e :| 0 <= e < |ins| && ins[e] == f;
    }
    assert forall f :: f in Feeds(block) <==> f in ins || f in block.packedStreams;
  }

  method SortCoders(edges: seq<Edge>, n: nat) returns (r: Result<(), GraphError>)
    requires InRange(edges, n)
    ensures r == if Acyclic(edges, n) then Ok(()) else Err(Cyclic)
  {
    var incoming, first, next := LinkEdges(edges, n);
    var visited := VisitAll(edges, incoming, first[..], next);
    r := if visited != n then Err(Cyclic) else Ok(());
  }
}
