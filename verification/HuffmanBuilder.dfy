/** The table constructor, and exactly which length tables it returns from. */
module HuffmanBuilder {
  import opened Common
  import opened Bits
  import opened Permutations
  import opened HuffmanTree
  import opened CodeGroups
  import opened CanonicalCode
  import opened Sorting

  datatype LengthPair = LengthPair(value: nat, length: nat)

  datatype Table = Table(nodes: seq<Node>)

  /** The builder's order: longer codes first, larger symbols first among equals. */
  predicate PairNotBelow(a: LengthPair, b: LengthPair) {
    b.length < a.length || (b.length == a.length && b.value <= a.value)
  }

  // ---------------------------------------------------------------------
  // Assigning codes
  // ---------------------------------------------------------------------

  /** The table's symbols with their lengths, longest first, larger symbols first among equals. */
  ghost predicate Ordered(pairs: seq<LengthPair>, lengths: seq<nat>) {
    && |pairs| == |lengths|
    && (forall i | 0 <= i < |pairs| :: pairs[i].value < |lengths| && pairs[i].length == lengths[pairs[i].value])
    && (forall i, j | 0 <= i < j < |pairs| :: Precedes(lengths, pairs[j].value, pairs[i].value))
    && (forall s | 0 <= s < |lengths| :: Listed(pairs, s))
  }

  ghost predicate Listed(pairs: seq<LengthPair>, s: nat) {
    exists i :: 0 <= i < |pairs| && pairs[i].value == s
  }

  ghost function Values(pairs: seq<LengthPair>): (values: seq<nat>)
    ensures |values| == |pairs| && forall i | 0 <= i < |pairs| :: values[i] == pairs[i].value
  {
    seq(|pairs|, i requires 0 <= i < |pairs| => pairs[i].value)
  }

  function LengthPairs(lengths: seq<nat>): (pairs: seq<LengthPair>)
    ensures |pairs| == |lengths|
    ensures forall i | 0 <= i < |pairs| :: pairs[i] == LengthPair(i, lengths[i])
  {
    seq(|lengths|, i requires 0 <= i < |lengths| => LengthPair(i, lengths[i]))
  }

  lemma SortedPairsOrdered(pairs: seq<LengthPair>, lengths: seq<nat>)
    requires multiset(pairs) == multiset(LengthPairs(lengths))
    requires forall i, j | 0 <= i < j < |pairs| :: PairNotBelow(pairs[i], pairs[j])
    ensures Ordered(pairs, lengths)
    ensures IsPermutation(Values(pairs), |lengths|)
  {
    var all := LengthPairs(lengths);
    assert |pairs| == |multiset(pairs)| == |all|;
    forall i | 0 <= i < |pairs|
      ensures pairs[i].value < |lengths| && pairs[i].length == lengths[pairs[i].value]
    {
      assert pairs[i] in multiset(all);
    }
    forall s | 0 <= s < |lengths|
      ensures Listed(pairs, s)
    {
      assert all[s] in multiset(pairs);
    }
    var value := (p: LengthPair) => p.value;
    MapPreservesMultiset(value, pairs, all);
    assert MapSeq(value, pairs) == Values(pairs);
    assert MapSeq(value, all) == Iota(|lengths|);
    forall i, j | 0 <= i < j < |pairs|
      ensures Precedes(lengths, pairs[j].value, pairs[i].value)
    {
      PermutationDistinct(Values(pairs), |lengths|, i, j);
      assert PairNotBelow(pairs[i], pairs[j]);
    }
  }

  ghost function Taken(pairs: seq<LengthPair>, i: nat): set<nat>
    requires i <= |pairs|
  {
    set j | 0 <= j < i :: pairs[j].value
  }

  lemma TakenIsAfter(pairs: seq<LengthPair>, lengths: seq<nat>, i: nat)
    requires Ordered(pairs, lengths) && i < |pairs|
    ensures Taken(pairs, i) == After(lengths, pairs[i].value)
    ensures Taken(pairs, i + 1) == Taken(pairs, i) + {pairs[i].value}
    ensures pairs[i].value !in Taken(pairs, i)
  {
    forall t | t in After(lengths, pairs[i].value)
      ensures t in Taken(pairs, i)
    {
      assert Listed(pairs, t);
      var j :| 0 <= j < |pairs| && pairs[j].value == t;
    }
  }

  lemma AssignNext(codes: seq<Code>, code: Code, lengths: seq<nat>)
    requires ValidTable(lengths) && HasAssignedCodes(codes, lengths)
    requires code.value < |lengths| && code.code == AssignedCode(lengths, code.value)
    ensures HasAssignedCodes(codes + [code], lengths)
  {
    hide AssignedCode;
  }

  /** Wrapping a sum once is the same as wrapping it step by step. */
  lemma WrapOnce(sum: nat, more: nat)
    ensures (sum % U32_BOUND + more) % U32_BOUND == (sum + more) % U32_BOUND
  {
    RemainderIs(sum + more, U32_BOUND, sum / U32_BOUND + (sum % U32_BOUND + more) / U32_BOUND,
                (sum % U32_BOUND + more) % U32_BOUND);
  }

  /** Gives out codes in order of the pairs, advancing by each pair's width in wrapping 32-bit arithmetic. */
  method AssignCodes(pairs: seq<LengthPair>, ghost lengths: seq<nat>) returns (codes: seq<Code>)
    requires ValidTable(lengths) && Ordered(pairs, lengths)
    ensures |codes| == |pairs| && ValuesOf(codes) == Values(pairs) && HasAssignedCodes(codes, lengths)
  {
    var code, length := 0, 32;
    codes := [];
    SumEmpty(lengths, |lengths|);
    assert Taken(pairs, 0) == {} && HasAssignedCodes(codes, lengths);
    hide SumWidths, HasAssignedCodes, Taken, Pow2, After;
    for i := 0 to |pairs|
      invariant |codes| == i && HasAssignedCodes(codes, lengths)
      invariant forall j | 0 <= j < i :: codes[j].value == pairs[j].value
      invariant code == SumWidths(lengths, |lengths|, Taken(pairs, i)) % U32_BOUND
      invariant length == if i == 0 then 32 else pairs[i - 1].length
    {
      TakenIsAfter(pairs, lengths, i);
      SumAdd(lengths, |lengths|, Taken(pairs, i), pairs[i].value);
      assert i > 0 ==> Precedes(lengths, pairs[i].value, pairs[i - 1].value);
      length := if length < pairs[i].length then length else pairs[i].length;
      AssignNext(codes, Code(code, pairs[i].value), lengths);
      codes := codes + [Code(code, pairs[i].value)];
      WrapOnce(SumWidths(lengths, |lengths|, Taken(pairs, i)), Pow2(32 - length));
      code := (code + Pow2(32 - length)) % U32_BOUND;
    }
  }

  lemma SortedCodesAreTable(codes: seq<Code>, sorted: seq<Code>, lengths: seq<nat>)
    requires ValidTable(lengths) && |codes| == |lengths| && HasAssignedCodes(codes, lengths)
    requires IsPermutation(ValuesOf(codes), |lengths|)
    requires multiset(sorted) == multiset(codes) && SortedByCode(sorted)
    ensures IsCodeTable(sorted, lengths)
  {
    assert |sorted| == |multiset(sorted)| == |codes|;
    var value := (c: Code) => c.value;
    MapPreservesMultiset(value, sorted, codes);
    assert MapSeq(value, sorted) == ValuesOf(sorted) && MapSeq(value, codes) == ValuesOf(codes);
    forall i | 0 <= i < |sorted|
      ensures sorted[i].value < |lengths| && sorted[i].code == AssignedCode(lengths, sorted[i].value)
    {
      assert sorted[i] in multiset(codes);
    }
  }

  // ---------------------------------------------------------------------
  // Which tables the builder returns from
  // ---------------------------------------------------------------------

  ghost predicate Repeats(lengths: seq<nat>, c: nat)
    requires ValidTable(lengths)
  {
    exists s, t :: 0 <= s < t < |lengths| && AssignedCode(lengths, s) == c && AssignedCode(lengths, t) == c
  }

  ghost predicate Assigned(lengths: seq<nat>, c: nat)
    requires ValidTable(lengths)
  {
    exists u :: 0 <= u < |lengths| && AssignedCode(lengths, u) == c
  }

  /** The smallest code given to two symbols has its sibling given out as well. */
  ghost predicate TableRunsAway(lengths: seq<nat>)
    requires ValidTable(lengths)
  {
    exists c: nat :: Repeats(lengths, c) && (forall d | 0 <= d < c :: !Repeats(lengths, d))
      && Assigned(lengths, Sibling(c))
  }

  lemma {:induction false} FirstRepeatIsLeast(codes: seq<Code>, i: nat, j: nat)
    requires SortedByCode(codes) && i < j < |codes| && codes[i].code == codes[j].code
    ensures FirstRepeat(codes).Some? && FirstRepeat(codes).value <= codes[i].code
  {
    if codes[0].code == codes[1].code {
      assert i > 0 ==> CodeLeq(codes, 0, i);
    } else {
      assert CodeLeq(codes, 0, 1);
      assert j > 1 ==> CodeLeq(codes, 1, j);
      SortedSlice(codes, 1, |codes|);
      assert codes[1..|codes|] == codes[1..];
      FirstRepeatIsLeast(codes[1..], i - 1, j - 1);
    }
  }

  lemma {:induction false} FirstRepeatPair(codes: seq<Code>) returns (i: nat, j: nat)
    requires FirstRepeat(codes).Some?
    ensures i < j < |codes| && codes[i].code == codes[j].code == FirstRepeat(codes).value
  {
    if codes[0].code == codes[1].code {
      i, j := 0, 1;
    } else {
      i, j := FirstRepeatPair(codes[1..]);
      i, j := i + 1, j + 1;
    }
  }

  lemma TableRepeat(codes: seq<Code>, lengths: seq<nat>, c: nat)
    requires ValidTable(lengths) && IsCodeTable(codes, lengths) && Repeats(lengths, c)
    ensures FirstRepeat(codes).Some? && FirstRepeat(codes).value <= c
  {
    var s, t :| 0 <= s < t < |lengths| && AssignedCode(lengths, s) == c && AssignedCode(lengths, t) == c;
    var i := PermutationPosition(codes, |lengths|, s);
    var j := PermutationPosition(codes, |lengths|, t);
    if i < j {
      FirstRepeatIsLeast(codes, i, j);
    } else {
      FirstRepeatIsLeast(codes, j, i);
    }
  }

  lemma FirstRepeatRepeats(codes: seq<Code>, lengths: seq<nat>)
    requires ValidTable(lengths) && IsCodeTable(codes, lengths) && FirstRepeat(codes).Some?
    ensures Repeats(lengths, FirstRepeat(codes).value)
  {
    var i, j := FirstRepeatPair(codes);
    PermutationDistinct(ValuesOf(codes), |lengths|, i, j);
    var s, t := codes[i].value, codes[j].value;
    assert AssignedCode(lengths, s) == AssignedCode(lengths, t);
    if t < s {
      assert Repeats(lengths, AssignedCode(lengths, t));
    }
  }

  lemma AssignedIsHeld(codes: seq<Code>, lengths: seq<nat>, c: nat)
    requires ValidTable(lengths) && IsCodeTable(codes, lengths)
    ensures Assigned(lengths, c) <==> HasCode(codes, c)
  {
    if u :| 0 <= u < |lengths| && AssignedCode(lengths, u) == c {
      var i := PermutationPosition(codes, |lengths|, u);
      assert codes[i].code == c;
    }
    if i :| 0 <= i < |codes| && codes[i].code == c {
      assert AssignedCode(lengths, codes[i].value) == c;
    }
  }

  lemma RunsAwayExactly(codes: seq<Code>, lengths: seq<nat>)
    requires ValidTable(lengths) && IsCodeTable(codes, lengths)
    ensures RunsAway(codes) <==> TableRunsAway(lengths)
  {
    if RunsAway(codes) {
      var c := FirstRepeat(codes).value;
      FirstRepeatRepeats(codes, lengths);
      AssignedIsHeld(codes, lengths, Sibling(c));
      forall d | 0 <= d < c
        ensures !Repeats(lengths, d)
      {
        if Repeats(lengths, d) { TableRepeat(codes, lengths, d); }
      }
    }
    if TableRunsAway(lengths) {
      var c: nat :| Repeats(lengths, c) && (forall d | 0 <= d < c :: !Repeats(lengths, d))
        && Assigned(lengths, Sibling(c));
      TableRepeat(codes, lengths, c);
      FirstRepeatRepeats(codes, lengths);
      AssignedIsHeld(codes, lengths, Sibling(c));
    }
  }

  /**
   * For every length table: the builder's recursion passes its last level if and only if the smallest repeated code
   * has an assigned sibling; it builds a tree if and only if no code repeats; otherwise it reports equal symbols.
   */
  lemma TableOutcomeExactly(codes: seq<Code>, lengths: seq<nat>)
    requires ValidTable(lengths) && IsCodeTable(codes, lengths)
    ensures Build(codes, 0).Runaway? <==> TableRunsAway(lengths)
    ensures Build(codes, 0).Built? <==> forall c: nat :: !Repeats(lengths, c)
    ensures Build(codes, 0).Failed? ==> Build(codes, 0).error == EqualSymbols
  {
    CodeTableIsGroup(codes, lengths);
    TableOutcome(codes);
    RunsAwayExactly(codes, lengths);
    if FirstRepeat(codes).Some? {
      FirstRepeatRepeats(codes, lengths);
    } else {
      forall c: nat ensures !Repeats(lengths, c) {
        if Repeats(lengths, c) { TableRepeat(codes, lengths, c); }
      }
    }
  }

  // ---------------------------------------------------------------------
  // The constructor
  // ---------------------------------------------------------------------

  /** The tree a returned table holds; the codes it was built from. */
  ghost predicate Holding(table: Table, codes: seq<Code>) {
    && Build(codes, 0).Built?
    && Build(codes, 0).tree.Branch?
    && Represents(table.nodes, 0, Build(codes, 0).tree)
  }

  method BuildTable(codes: seq<Code>) returns (r: Result<Table, HuffmanError>)
    ensures match Build(codes, 0)
            case Built(t) => r.Ok? && |r.value.nodes| == |codes| && Holding(r.value, codes)
            case Failed(e) => r == Err(e)
            case Runaway => r == Err(PastLastLevel)
  {
    var nodes := new Node[|codes|](_ => Node(Next(0), Next(0)));
    var built, used := BuildHuffmanNode(nodes, 0, codes, 0);
    r := if built.Ok? then Ok(Table(nodes[..])) else Err(built.error);
  }

  /**
   * Builds the decoding table. It succeeds exactly when no two symbols get the same code, in particular for every
   * complete table, and the table then decodes every symbol's canonical code. It passes the last level exactly for the
   * tables that run away.
   */
  method New(lengths: seq<nat>) returns (r: Result<Table, HuffmanError>, ghost codes: seq<Code>)
    requires ValidTable(lengths)
    ensures IsCodeTable(codes, lengths)
    ensures r.Ok? <==> forall c: nat :: !Repeats(lengths, c)
    ensures r.Ok? ==> |r.value.nodes| == |lengths| && Holding(r.value, codes)
    ensures r == Err(PastLastLevel) <==> TableRunsAway(lengths)
    ensures r.Err? ==> r.error == EqualSymbols || r.error == PastLastLevel
    ensures Complete(lengths) ==> r.Ok?
  {
    var pairs := Sort(PairNotBelow, LengthPairs(lengths));
    SortedPairsOrdered(pairs, lengths);
    var unsorted := AssignCodes(pairs, lengths);
    var sorted := Sort((a: Code, b: Code) => a.code <= b.code, unsorted);
    codes := sorted;
    SortedCodesAreTable(unsorted, sorted, lengths);
    TableOutcomeExactly(sorted, lengths);
    CompleteIsDistinct(lengths);
    r := BuildTable(sorted);
  }

  lemma CompleteIsDistinct(lengths: seq<nat>)
    requires ValidTable(lengths)
    ensures Complete(lengths) ==> forall c: nat :: !Repeats(lengths, c)
    ensures Complete(lengths) ==> !TableRunsAway(lengths)
  {
    if Complete(lengths) {
      forall s, t | 0 <= s < t < |lengths|
        ensures AssignedCode(lengths, s) != AssignedCode(lengths, t)
      {
        if Precedes(lengths, s, t) {
          CodesDescend(lengths, s, t);
        } else {
          CodesDescend(lengths, t, s);
        }
      }
    }
  }

  /** Every table the block reader can pass, whose lengths are at most 20, is one the builder returns from. */
  lemma ShortCodesReturn(lengths: seq<nat>)
    requires ValidTable(lengths) && forall s | 0 <= s < |lengths| :: lengths[s] <= 30
    ensures !TableRunsAway(lengths)
  {
    forall c: nat
      ensures !(Repeats(lengths, c) && Assigned(lengths, Sibling(c)))
    {
      ShortSiblings(lengths, c);
    }
  }

  lemma ShortSiblings(lengths: seq<nat>, c: nat)
    requires ValidTable(lengths) && forall s | 0 <= s < |lengths| :: lengths[s] <= 30
    ensures !(Assigned(lengths, c) && Assigned(lengths, Sibling(c)))
    ensures Repeats(lengths, c) ==> Assigned(lengths, c)
  {
    forall s | 0 <= s < |lengths|
      ensures AssignedCode(lengths, s) % 4 == 0
    {
      ShortCode(lengths, s);
    }
  }

  lemma ShortCode(lengths: seq<nat>, s: nat)
    requires ValidTable(lengths) && s < |lengths| && forall t | 0 <= t < |lengths| :: lengths[t] <= 30
    ensures AssignedCode(lengths, s) % 4 == 0
  {
    hide Precedes;
    var sum := SumWidths(lengths, |lengths|, After(lengths, s));
    SumMultipleOfFour(lengths, |lengths|, After(lengths, s));
    assert sum == sum / U32_BOUND * U32_BOUND + sum % U32_BOUND;
  }

  lemma {:induction false} SumMultipleOfFour(lengths: seq<nat>, k: nat, chosen: set<nat>)
    requires ValidTable(lengths) && k <= |lengths|
    requires forall s | 0 <= s < |lengths| :: lengths[s] <= 30
    ensures SumWidths(lengths, k, chosen) % 4 == 0
  {
    if k > 0 {
      SumMultipleOfFour(lengths, k - 1, chosen);
      var n := 30 - lengths[k - 1];
      assert Pow2(n + 2) == 2 * Pow2(n + 1) == 4 * Pow2(n);
    }
  }

  const RUNAWAY: seq<nat> := [31, 31, 31, 1, 1, 1]

  lemma RunawayWidths()
    ensures ValidTable(RUNAWAY)
    ensures Width(RUNAWAY, 0) == Width(RUNAWAY, 1) == Width(RUNAWAY, 2) == 2
    ensures Width(RUNAWAY, 3) == Width(RUNAWAY, 4) == Width(RUNAWAY, 5) == 0x8000_0000
  {
    hide Pow2;
    HalfOfSpace();
  }

  lemma HalfOfSpace()
    ensures Pow2(31) == 0x8000_0000 && Pow2(1) == 2
  {
    Pow2Constants();
    assert Pow2(32) == 2 * Pow2(31) && Pow2(1) == 2 * Pow2(0);
  }

  lemma RunawayLong()
    ensures ValidTable(RUNAWAY)
    ensures AssignedCode(RUNAWAY, 0) == 4
    ensures SumWidths(RUNAWAY, 6, {2, 1, 0}) == 6 && AssignedCode(RUNAWAY, 5) == 6
  {
    hide Pow2, SumWidths;
    RunawayWidths();
    SumEmpty(RUNAWAY, 6);
    SumAdd(RUNAWAY, 6, {}, 2);
    assert {} + {2} == {2};
    SumAdd(RUNAWAY, 6, {2}, 1);
    assert {2} + {1} == {2, 1} == After(RUNAWAY, 0);
    SumAdd(RUNAWAY, 6, {2, 1}, 0);
    assert {2, 1} + {0} == {2, 1, 0} == After(RUNAWAY, 5);
  }

  lemma RunawayShort()
    ensures ValidTable(RUNAWAY)
    ensures AssignedCode(RUNAWAY, 3) == 6
  {
    hide Pow2, SumWidths;
    RunawayWidths();
    RunawayLong();
    SumAdd(RUNAWAY, 6, {2, 1, 0}, 5);
    assert {2, 1, 0} + {5} == {2, 1, 0, 5};
    SumAdd(RUNAWAY, 6, {2, 1, 0, 5}, 4);
    assert {2, 1, 0, 5} + {4} == After(RUNAWAY, 3);
  }

  lemma RunawayOthers()
    ensures ValidTable(RUNAWAY)
    ensures AssignedCode(RUNAWAY, 2) == 0 && AssignedCode(RUNAWAY, 1) == 2 && AssignedCode(RUNAWAY, 4) == 0x8000_0006
  {
    hide Pow2, SumWidths;
    RunawayWidths();
    RunawayLong();
    SumEmpty(RUNAWAY, 6);
    SumAdd(RUNAWAY, 6, {}, 2);
    assert {} == After(RUNAWAY, 2) && {} + {2} == After(RUNAWAY, 1);
    SumAdd(RUNAWAY, 6, {2, 1, 0}, 5);
    assert {2, 1, 0} + {5} == After(RUNAWAY, 4);
  }

  lemma RunawayDistinct(c: nat)
    requires ValidTable(RUNAWAY) && c < 6
    ensures !Repeats(RUNAWAY, c)
  {
    hide After, SumWidths, AssignedCode;
    RunawayLong();
    RunawayShort();
    RunawayOthers();
  }

  /** Length 31 is what it takes: this table, over-subscribed, sends the recursion past level 31. */
  lemma RunawayTable()
    ensures ValidTable(RUNAWAY) && TableRunsAway(RUNAWAY)
  {
    RunawayLong();
    RunawayShort();
    forall d: nat | 0 <= d < 6
      ensures !Repeats(RUNAWAY, d)
    {
      RunawayDistinct(d);
    }
    assert Repeats(RUNAWAY, 6);
    assert Sibling(6) == 4 && Assigned(RUNAWAY, 4);
  }

  /** Reads one symbol with a table from `New`: for a complete table the canonical codes come back as their symbols. */
  lemma TableDecodesCanonicalCode(table: Table, lengths: seq<nat>, codes: seq<Code>, s: nat, rest: seq<bool>)
    requires ValidTable(lengths) && Complete(lengths) && IsCodeTable(codes, lengths) && Holding(table, codes)
    requires s < |lengths|
    ensures DecodeTree(Build(codes, 0).tree, CanonicalBits(lengths, s) + rest) == Decoded(Some(s), lengths[s])
  {
    CompleteTableDecodes(codes, lengths, s, rest);
  }
}
