/** Code assignment of the Huffman table builder, and decoding of complete tables. */
module CanonicalCode {
  import opened Common
  import opened Bits
  import opened Permutations
  import opened HuffmanTree
  import opened CodeGroups

  const U32_BOUND: nat := 0x1_0000_0000

  /** What the block reader passes: one length per symbol of an alphabet of 2 to 258 symbols. */
  predicate ValidTable(lengths: seq<nat>) {
    2 <= |lengths| <= 258 && forall s | 0 <= s < |lengths| :: 1 <= lengths[s] <= 31
  }

  /** The share of the 32-bit code space that a code of the symbol's length takes. */
  function Width(lengths: seq<nat>, s: nat): nat
    requires ValidTable(lengths) && s < |lengths|
  {
    Pow2(32 - lengths[s])
  }

  /** The canonical order of symbols: shorter codes first, then smaller symbols. */
  predicate Precedes(lengths: seq<nat>, s: nat, t: nat)
    requires s < |lengths| && t < |lengths|
  {
    lengths[s] < lengths[t] || (lengths[s] == lengths[t] && s < t)
  }

  ghost function SumWidths(lengths: seq<nat>, k: nat, chosen: set<nat>): nat
    requires ValidTable(lengths) && k <= |lengths|
  {
    if k == 0 then 0
    else SumWidths(lengths, k - 1, chosen) + if k - 1 in chosen then Width(lengths, k - 1) else 0
  }

  ghost function Before(lengths: seq<nat>, s: nat): set<nat>
    requires s < |lengths|
  {
    set t | 0 <= t < |lengths| && Precedes(lengths, t, s)
  }

  ghost function After(lengths: seq<nat>, s: nat): set<nat>
    requires s < |lengths|
  {
    set t | 0 <= t < |lengths| && Precedes(lengths, s, t)
  }

  function TotalWidth(lengths: seq<nat>, k: nat): nat
    requires ValidTable(lengths) && k <= |lengths|
  {
    if k == 0 then 0 else TotalWidth(lengths, k - 1) + Width(lengths, k - 1)
  }

  /** The widths of all codes fill the code space exactly: the Kraft sum is one. */
  predicate Complete(lengths: seq<nat>)
    requires ValidTable(lengths)
  {
    TotalWidth(lengths, |lengths|) == U32_BOUND
  }

  /** The code the builder gives a symbol: the widths of the symbols after it, in 32-bit wrapping arithmetic. */
  ghost function AssignedCode(lengths: seq<nat>, s: nat): nat
    requires ValidTable(lengths) && s < |lengths|
  {
    SumWidths(lengths, |lengths|, After(lengths, s)) % U32_BOUND
  }

  /** Where the symbol's canonical code starts, left-aligned in 32 bits: the widths of the symbols before it. */
  ghost function CanonicalStart(lengths: seq<nat>, s: nat): nat
    requires ValidTable(lengths) && s < |lengths|
  {
    SumWidths(lengths, |lengths|, Before(lengths, s))
  }

  /** The bits of `start` that levels `level` to `last` test. */
  ghost function PathBits(start: nat, level: nat, last: nat): (bits: seq<bool>)
    ensures |bits| == if level <= last then last + 1 - level else 0
    decreases last + 1 - level
  {
    if level > last then [] else [BitSet(start, level)] + PathBits(start, level + 1, last)
  }

  /** The canonical code of a symbol: the first `lengths[s]` bits of its start, the highest first. */
  ghost function CanonicalBits(lengths: seq<nat>, s: nat): (bits: seq<bool>)
    requires ValidTable(lengths) && s < |lengths|
    ensures |bits| == lengths[s]
  {
    PathBits(CanonicalStart(lengths, s), 1, lengths[s])
  }

  // ---------------------------------------------------------------------
  // Sums
  // ---------------------------------------------------------------------

  lemma {:induction false} SumAdd(lengths: seq<nat>, k: nat, chosen: set<nat>, s: nat)
    requires ValidTable(lengths) && k <= |lengths| && s < |lengths| && s !in chosen
    ensures SumWidths(lengths, k, chosen + {s})
         == SumWidths(lengths, k, chosen) + if s < k then Width(lengths, s) else 0
  {
    if k > 0 {
      SumAdd(lengths, k - 1, chosen, s);
    }
  }

  lemma {:induction false} SumDisjoint(lengths: seq<nat>, k: nat, a: set<nat>, b: set<nat>)
    requires ValidTable(lengths) && k <= |lengths| && a !! b
    ensures SumWidths(lengths, k, a + b) == SumWidths(lengths, k, a) + SumWidths(lengths, k, b)
  {
    if k > 0 {
      SumDisjoint(lengths, k - 1, a, b);
    }
  }

  lemma {:induction false} SumAll(lengths: seq<nat>, k: nat, chosen: set<nat>)
    requires ValidTable(lengths) && k <= |lengths|
    requires forall t | 0 <= t < k :: t in chosen
    ensures SumWidths(lengths, k, chosen) == TotalWidth(lengths, k)
  {
    if k > 0 {
      SumAll(lengths, k - 1, chosen);
    }
  }

  lemma {:induction false} SumEven(lengths: seq<nat>, k: nat, chosen: set<nat>)
    requires ValidTable(lengths) && k <= |lengths|
    ensures SumWidths(lengths, k, chosen) % 2 == 0
  {
    if k > 0 {
      SumEven(lengths, k - 1, chosen);
      assert Width(lengths, k - 1) == 2 * Pow2(31 - lengths[k - 1]);
    }
  }

  lemma {:induction false} SumEmpty(lengths: seq<nat>, k: nat)
    requires ValidTable(lengths) && k <= |lengths|
    ensures SumWidths(lengths, k, {}) == 0
  {
    if k > 0 {
      SumEmpty(lengths, k - 1);
    }
  }

  /** In a complete table the assigned code, the symbol's width and its canonical start add up to the whole space. */
  lemma CodeAndStart(lengths: seq<nat>, s: nat)
    requires ValidTable(lengths) && Complete(lengths) && s < |lengths|
    ensures AssignedCode(lengths, s) == SumWidths(lengths, |lengths|, After(lengths, s))
    ensures AssignedCode(lengths, s) + Width(lengths, s) + CanonicalStart(lengths, s) == U32_BOUND
  {
    var n := |lengths|;
    var before, after := Before(lengths, s), After(lengths, s);
    SumAll(lengths, n, (after + {s}) + before);
    SumDisjoint(lengths, n, after + {s}, before);
    SumAdd(lengths, n, after, s);
  }

  /** In a complete table an earlier symbol has the larger code, by at least the later symbol's width. */
  lemma CodesDescend(lengths: seq<nat>, s: nat, t: nat)
    requires ValidTable(lengths) && Complete(lengths) && s < |lengths| && t < |lengths| && Precedes(lengths, s, t)
    ensures AssignedCode(lengths, t) + Width(lengths, t) <= AssignedCode(lengths, s)
  {
    var n := |lengths|;
    CodeAndStart(lengths, s);
    CodeAndStart(lengths, t);
    var covered := After(lengths, t) + {t};
    var rest := After(lengths, s) - covered;
    assert After(lengths, s) == covered + rest;
    SumAdd(lengths, n, After(lengths, t), t);
    SumDisjoint(lengths, n, covered, rest);
  }

  // ---------------------------------------------------------------------
  // The code table the builder works on
  // ---------------------------------------------------------------------

  ghost function ValuesOf(codes: seq<Code>): (values: seq<nat>)
    ensures |values| == |codes| && forall i | 0 <= i < |codes| :: values[i] == codes[i].value
  {
    seq(|codes|, i requires 0 <= i < |codes| => codes[i].value)
  }

  ghost predicate HasAssignedCodes(codes: seq<Code>, lengths: seq<nat>)
    requires ValidTable(lengths)
  {
    forall i | 0 <= i < |codes| ::
      codes[i].value < |lengths| && codes[i].code == AssignedCode(lengths, codes[i].value)
  }

  /** Every symbol once, with its assigned code, in code order; equal codes may come in any order. */
  ghost predicate IsCodeTable(codes: seq<Code>, lengths: seq<nat>)
    requires ValidTable(lengths)
  {
    && IsPermutation(ValuesOf(codes), |lengths|)
    && |codes| == |lengths|
    && HasAssignedCodes(codes, lengths)
    && SortedByCode(codes)
  }

  lemma CodeTableIsGroup(codes: seq<Code>, lengths: seq<nat>)
    requires ValidTable(lengths) && IsCodeTable(codes, lengths)
    ensures Group(codes, 1, 0)
  {
    Pow2Constants();
    forall i | 0 <= i < |codes|
      ensures Prefix(codes[i].code, 1) == 0 && codes[i].code % 2 == 0
    {
      var s := codes[i].value;
      var sum := SumWidths(lengths, |lengths|, After(lengths, s));
      SumEven(lengths, |lengths|, After(lengths, s));
      EvenModWord(sum);
      ShiftRightQuotient(codes[i].code, 32, 0);
    }
  }

  lemma EvenModWord(x: nat)
    requires x % 2 == 0
    ensures x % U32_BOUND % 2 == 0
  {
    assert x == x / U32_BOUND * U32_BOUND + x % U32_BOUND;
  }

  /** Exactly when the builder's recursion passes its last level, in terms of the codes alone. */
  ghost predicate RunsAway(codes: seq<Code>) {
    FirstRepeat(codes).Some? && HasCode(codes, Sibling(FirstRepeat(codes).value))
  }

  // ---------------------------------------------------------------------
  // A complete table tiles the code space
  // ---------------------------------------------------------------------

  /** Codes in order, each starting where the one before ends, from `lo` up to `hi`, longer codes first. */
  ghost predicate Tiled(codes: seq<Code>, lengths: seq<nat>, lo: nat, hi: nat)
    requires ValidTable(lengths)
  {
    && codes != []
    && (forall i | 0 <= i < |codes| :: codes[i].value < |lengths|)
    && codes[0].code == lo
    && (forall i | 0 <= i < |codes| :: EndOf(codes, lengths, i) == if i + 1 < |codes| then codes[i + 1].code else hi)
    && (forall i | 0 < i < |codes| :: lengths[codes[i].value] <= lengths[codes[i - 1].value])
  }

  ghost function EndOf(codes: seq<Code>, lengths: seq<nat>, i: nat): nat
    requires ValidTable(lengths) && i < |codes| && codes[i].value < |lengths|
  {
    codes[i].code + Width(lengths, codes[i].value)
  }

  lemma PermutationPosition(codes: seq<Code>, n: nat, s: nat) returns (i: nat)
    requires IsPermutation(ValuesOf(codes), n) && s < n
    ensures i < |codes| && codes[i].value == s
  {
    assert Iota(n)[s] == s;
    assert s in multiset(ValuesOf(codes));
    i :| 0 <= i < |codes| && ValuesOf(codes)[i] == s;
  }

  lemma TableOrder(codes: seq<Code>, lengths: seq<nat>, i: nat, j: nat)
    requires ValidTable(lengths) && Complete(lengths) && IsCodeTable(codes, lengths) && i < j < |codes|
    ensures Precedes(lengths, codes[j].value, codes[i].value)
  {
    PermutationDistinct(ValuesOf(codes), |lengths|, i, j);
    assert CodeLeq(codes, i, j);
    if Precedes(lengths, codes[i].value, codes[j].value) {
      CodesDescend(lengths, codes[i].value, codes[j].value);
    }
  }

  /** The symbols after the one at position `i` are those at earlier positions. */
  lemma AfterIsPrefix(codes: seq<Code>, lengths: seq<nat>, i: nat, s: nat)
    requires ValidTable(lengths) && Complete(lengths) && IsCodeTable(codes, lengths) && i < |codes| && s < |lengths|
    ensures s in After(lengths, codes[i].value) <==> exists j :: 0 <= j < i && codes[j].value == s
  {
    var j := PermutationPosition(codes, |lengths|, s);
    if j < i {
      TableOrder(codes, lengths, j, i);
    } else if i < j {
      TableOrder(codes, lengths, i, j);
    }
    if k :| 0 <= k < i && codes[k].value == s {
      TableOrder(codes, lengths, k, i);
    }
  }

  lemma CompleteEnds(codes: seq<Code>, lengths: seq<nat>, i: nat)
    requires ValidTable(lengths) && Complete(lengths) && IsCodeTable(codes, lengths) && i < |codes|
    ensures EndOf(codes, lengths, i) == if i + 1 < |codes| then codes[i + 1].code else U32_BOUND
    ensures i == 0 ==> codes[i].code == 0
    ensures i > 0 ==> lengths[codes[i].value] <= lengths[codes[i - 1].value]
  {
    var n, s := |lengths|, codes[i].value;
    CodeAndStart(lengths, s);
    if i > 0 {
      TableOrder(codes, lengths, i - 1, i);
    } else {
      forall t | 0 <= t < n ensures t !in After(lengths, s) {
        AfterIsPrefix(codes, lengths, 0, t);
      }
      assert After(lengths, s) == {};
      SumEmpty(lengths, n);
    }
    if i + 1 < |codes| {
      var next := codes[i + 1].value;
      CodeAndStart(lengths, next);
      forall t | 0 <= t < n ensures t in After(lengths, next) <==> t in After(lengths, s) + {s} {
        AfterIsPrefix(codes, lengths, i, t);
        AfterIsPrefix(codes, lengths, i + 1, t);
        if t in After(lengths, next) {
          var j :| 0 <= j < i + 1 && codes[j].value == t;
        }
      }
      assert After(lengths, next) == After(lengths, s) + {s};
      SumAdd(lengths, n, After(lengths, s), s);
    } else {
      forall t | 0 <= t < n ensures t !in Before(lengths, s) {
        var j := PermutationPosition(codes, n, t);
        if j < i {
          TableOrder(codes, lengths, j, i);
        }
      }
      assert Before(lengths, s) == {};
      SumEmpty(lengths, n);
    }
  }

  lemma CompleteTiles(codes: seq<Code>, lengths: seq<nat>)
    requires ValidTable(lengths) && Complete(lengths) && IsCodeTable(codes, lengths)
    ensures Tiled(codes, lengths, 0, U32_BOUND)
  {
    forall i | 0 <= i < |codes|
      ensures EndOf(codes, lengths, i) == if i + 1 < |codes| then codes[i + 1].code else U32_BOUND
      ensures i == 0 ==> codes[i].code == 0
      ensures i > 0 ==> lengths[codes[i].value] <= lengths[codes[i - 1].value]
    {
      CompleteEnds(codes, lengths, i);
    }
  }

  // ---------------------------------------------------------------------
  // Halving a tiled block
  // ---------------------------------------------------------------------

  ghost predicate Block(level: nat, prefix: nat, lo: nat, hi: nat)
    requires 1 <= level <= 33
  {
    lo == prefix * Pow2(33 - level) && hi == lo + Pow2(33 - level)
  }

  lemma {:induction false} TiledBounds(codes: seq<Code>, lengths: seq<nat>, lo: nat, hi: nat, i: nat)
    requires ValidTable(lengths) && Tiled(codes, lengths, lo, hi) && i < |codes|
    ensures codes[i].code < EndOf(codes, lengths, i) <= hi
    ensures i + 1 < |codes| ==> EndOf(codes, lengths, i) < hi
    decreases |codes| - i
  {
    if i + 1 < |codes| {
      TiledBounds(codes, lengths, lo, hi, i + 1);
      assert EndOf(codes, lengths, i) == codes[i + 1].code;
    }
  }

  lemma {:induction false} TiledFromLow(codes: seq<Code>, lengths: seq<nat>, lo: nat, hi: nat, i: nat)
    requires ValidTable(lengths) && Tiled(codes, lengths, lo, hi) && i < |codes|
    ensures lo <= codes[i].code && (i > 0 ==> lo < codes[i].code)
  {
    if i > 0 {
      TiledFromLow(codes, lengths, lo, hi, i - 1);
      assert EndOf(codes, lengths, i - 1) == codes[i].code;
    }
  }

  /** What is left of a block after a code's start is a multiple of the code's width: later codes are no longer. */
  lemma {:induction false} RestIsMultiple(codes: seq<Code>, lengths: seq<nat>, lo: nat, hi: nat, i: nat)
    requires ValidTable(lengths) && Tiled(codes, lengths, lo, hi) && i < |codes|
    ensures codes[i].code <= hi && IsMultiple(hi - codes[i].code, Width(lengths, codes[i].value))
    decreases |codes| - i
  {
    TiledBounds(codes, lengths, lo, hi, i);
    var w := Width(lengths, codes[i].value);
    assert EndOf(codes, lengths, i) == codes[i].code + w;
    Pow2Multiple(32 - lengths[codes[i].value], 32 - lengths[codes[i].value]);
    if i + 1 < |codes| {
      RestIsMultiple(codes, lengths, lo, hi, i + 1);
      Pow2Multiple(32 - lengths[codes[i].value], 32 - lengths[codes[i + 1].value]);
      MultipleTransitive(hi - codes[i + 1].code, Width(lengths, codes[i + 1].value), w);
      MultipleSum(hi - codes[i + 1].code, w, w);
    }
  }

  lemma {:induction false} FirstNotBelow(codes: seq<Code>, mid: nat) returns (k: nat)
    ensures k <= |codes|
    ensures k > 0 ==> codes[k - 1].code < mid
    ensures k < |codes| ==> mid <= codes[k].code
  {
    k := 0;
    while k < |codes| && codes[k].code < mid
      invariant k <= |codes| && (k > 0 ==> codes[k - 1].code < mid)
    {
      k := k + 1;
    }
  }

  lemma Pow2Injective(m: nat, n: nat)
    requires Pow2(m) == Pow2(n)
    ensures m == n
  {
    Pow2Strict(m, n);
    Pow2Strict(n, m);
  }

  lemma Pow2Strict(m: nat, n: nat)
    ensures m < n ==> Pow2(m) < Pow2(n)
  {
    if m < n {
      Pow2Monotone(m + 1, n);
    }
  }

  /** The widths are powers of two that do not shrink, so a code starts exactly at the middle of the block. */
  lemma CodeAtMiddle(codes: seq<Code>, lengths: seq<nat>, level: nat, prefix: nat, lo: nat, hi: nat) returns (k: nat)
    requires ValidTable(lengths) && 1 <= level <= 32 && Block(level, prefix, lo, hi)
    requires Tiled(codes, lengths, lo, hi) && |codes| >= 2
    ensures 0 < k < |codes| && codes[k].code == lo + Pow2(32 - level)
  {
    var h := Pow2(32 - level);
    assert hi == lo + 2 * h;
    k := FirstNotBelow(codes, lo + h);
    var last := codes[k - 1];
    var w := Width(lengths, last.value);
    TiledBounds(codes, lengths, lo, hi, k - 1);
    TiledFromLow(codes, lengths, lo, hi, k - 1);
    assert w < 2 * h by {
      if k == |codes| { TiledFromLow(codes, lengths, lo, hi, k - 1); }
    }
    assert 32 - lengths[last.value] <= 32 - level by {
      if 32 - lengths[last.value] > 32 - level {
        Pow2Monotone(33 - level, 32 - lengths[last.value]);
      }
    }
    Pow2Multiple(32 - lengths[last.value], 32 - level);
    RestIsMultiple(codes, lengths, lo, hi, k - 1);
    MultipleSum(h, hi - last.code, w);
    assert lo + h - last.code == (hi - last.code) - h;
    assert EndOf(codes, lengths, k - 1) == last.code + w;
    MultipleWithin(lo + h - last.code, w);
  }

  lemma SplitBlock(level: nat, prefix: nat, lo: nat, hi: nat)
    requires 1 <= level <= 32 && Block(level, prefix, lo, hi)
    ensures var mid := lo + Pow2(32 - level);
            Block(level + 1, 2 * prefix, lo, mid) && Block(level + 1, 2 * prefix + 1, mid, hi)
  {
    var h := Pow2(32 - level);
    assert Pow2(33 - level) == 2 * h;
    hide Pow2;
    DoubleFactor(prefix, h);
  }

  lemma BlockPrefix(x: nat, level: nat, prefix: nat, lo: nat, hi: nat)
    requires 1 <= level <= 33 && Block(level, prefix, lo, hi) && lo <= x < hi
    ensures Prefix(x, level) == prefix
  {
    ShiftRightQuotient(x, 33 - level, prefix);
  }

  /** Whether a level's bit is set tells the halves of a block apart, for any number inside the block. */
  lemma BitOfHalf(x: nat, level: nat, prefix: nat, lo: nat, hi: nat)
    requires 1 <= level <= 32 && Block(level, prefix, lo, hi) && lo <= x < hi
    ensures BitSet(x, level) <==> lo + Pow2(32 - level) <= x
  {
    SplitBlock(level, prefix, lo, hi);
    BlockPrefix(x, level, prefix, lo, hi);
    PrefixStep(x, level);
    var mid := lo + Pow2(32 - level);
    if mid <= x {
      BlockPrefix(x, level + 1, 2 * prefix + 1, mid, hi);
    } else {
      BlockPrefix(x, level + 1, 2 * prefix, lo, mid);
    }
  }

  lemma SplitTiles(codes: seq<Code>, lengths: seq<nat>, lo: nat, hi: nat, k: nat)
    requires ValidTable(lengths) && Tiled(codes, lengths, lo, hi) && 0 < k < |codes|
    ensures Tiled(codes[..k], lengths, lo, codes[k].code) && Tiled(codes[k..], lengths, codes[k].code, hi)
  {
    forall i | 0 <= i < k
      ensures EndOf(codes[..k], lengths, i) == if i + 1 < k then codes[..k][i + 1].code else codes[k].code
    {
      assert EndOf(codes[..k], lengths, i) == EndOf(codes, lengths, i);
    }
    forall i | 0 <= i < |codes| - k
      ensures EndOf(codes[k..], lengths, i) == if i + 1 < |codes| - k then codes[k..][i + 1].code else hi
    {
      assert EndOf(codes[k..], lengths, i) == EndOf(codes, lengths, k + i);
    }
    forall i | 0 < i < |codes| - k
      ensures lengths[codes[k..][i].value] <= lengths[codes[k..][i - 1].value]
    {
      assert lengths[codes[k + i].value] <= lengths[codes[k + i - 1].value];
    }
  }

  /** A level splits a tiled block exactly at the code in its middle. */
  lemma SplitAtMiddle(codes: seq<Code>, lengths: seq<nat>, level: nat, prefix: nat, lo: nat, hi: nat)
    requires ValidTable(lengths) && 1 <= level <= 32 && Block(level, prefix, lo, hi)
    requires Tiled(codes, lengths, lo, hi) && |codes| >= 2
    ensures var k := SplitIndex(codes, level);
            && 0 < k < |codes|
            && Tiled(codes[..k], lengths, lo, lo + Pow2(32 - level))
            && Tiled(codes[k..], lengths, lo + Pow2(32 - level), hi)
  {
    hide Pow2, Tiled, Block, Width, BitSet, ShiftRight;
    var m := CodeAtMiddle(codes, lengths, level, prefix, lo, hi);
    SplitTiles(codes, lengths, lo, hi, m);
    var k := SplitIndex(codes, level);
    TiledBounds(codes, lengths, lo, hi, m);
    BitOfHalf(codes[m].code, level, prefix, lo, hi);
    if k < m {
      TiledBounds(codes[..m], lengths, lo, codes[m].code, k);
      TiledFromLow(codes, lengths, lo, hi, k);
      BitOfHalf(codes[k].code, level, prefix, lo, hi);
    }
  }

  // ---------------------------------------------------------------------
  // Decoding a complete table
  // ---------------------------------------------------------------------

  /** The start, mirrored in the code space, of the symbol with this code. */
  ghost function Mirrored(code: Code, lengths: seq<nat>): int
    requires ValidTable(lengths) && code.value < |lengths|
  {
    U32_BOUND - code.code - Width(lengths, code.value)
  }

  ghost predicate DecodesTo(o: Outcome, bits: seq<bool>, rest: seq<bool>, s: nat) {
    o.Built? && DecodeTree(o.tree, bits + rest) == Decoded(Some(s), |bits|)
  }

  lemma SingleTile(codes: seq<Code>, lengths: seq<nat>, level: nat, prefix: nat, lo: nat, hi: nat)
    requires ValidTable(lengths) && 1 <= level <= 33 && Block(level, prefix, lo, hi)
    requires Tiled(codes, lengths, lo, hi) && |codes| == 1
    ensures lengths[codes[0].value] == level - 1
  {
    assert EndOf(codes, lengths, 0) == hi;
    Pow2Injective(32 - lengths[codes[0].value], 33 - level);
  }

  lemma ManyTiles(codes: seq<Code>, lengths: seq<nat>, level: nat, prefix: nat, lo: nat, hi: nat)
    requires ValidTable(lengths) && 1 <= level <= 33 && Block(level, prefix, lo, hi)
    requires Tiled(codes, lengths, lo, hi) && |codes| >= 2
    ensures level <= 31
    ensures forall i | 0 <= i < |codes| :: level <= lengths[codes[i].value]
  {
    forall i | 0 <= i < |codes|
      ensures level <= lengths[codes[i].value]
    {
      TiledBounds(codes, lengths, lo, hi, i);
      TiledFromLow(codes, lengths, lo, hi, i);
      var len := lengths[codes[i].value];
      assert Pow2(32 - len) < Pow2(33 - level);
      if len < level {
        Pow2Monotone(33 - level, 32 - len);
      }
    }
    assert lengths[codes[0].value] <= 31;
  }

  lemma BranchStep(one: Outcome, zero: Outcome, bit: bool, bits: seq<bool>, rest: seq<bool>, s: nat)
    requires one.Built? && zero.Built? && DecodesTo(if bit then one else zero, bits, rest, s)
    ensures DecodesTo(Built(Branch(one.tree, zero.tree)), [bit] + bits, rest, s)
  {
    assert (([bit] + bits) + rest)[1..] == bits + rest;
  }

  /** From `level` on, the tree of `codes` reads the rest of the canonical code of its `i`-th symbol. */
  ghost predicate SymbolDecodes(codes: seq<Code>, lengths: seq<nat>, level: nat, i: nat, rest: seq<bool>)
    requires ValidTable(lengths) && i < |codes| && codes[i].value < |lengths|
  {
    var s, start := codes[i].value, Mirrored(codes[i], lengths);
    start >= 0 && DecodesTo(BuildSide(codes, level), PathBits(start, level, lengths[s]), rest, s)
  }

  lemma SplitDecodes(
    codes: seq<Code>, left: seq<Code>, right: seq<Code>, lengths: seq<nat>, level: nat, i: nat, rest: seq<bool>)
    requires ValidTable(lengths) && level <= 31 && i < |codes| && codes == left + right
    requires left != [] && right != [] && |left| == SplitIndex(codes, level)
    requires codes[i].value < |lengths| && level <= lengths[codes[i].value]
    requires BuildSide(left, level + 1).Built? && BuildSide(right, level + 1).Built?
    requires if i < |left| then SymbolDecodes(left, lengths, level + 1, i, rest)
             else SymbolDecodes(right, lengths, level + 1, i - |left|, rest)
    requires Mirrored(codes[i], lengths) >= 0 && (BitSet(Mirrored(codes[i], lengths), level) <==> i < |left|)
    ensures SymbolDecodes(codes, lengths, level, i, rest)
  {
    var s, start := codes[i].value, Mirrored(codes[i], lengths);
    Split(codes, left, right, level);
    BranchStep(BuildSide(left, level + 1), BuildSide(right, level + 1), i < |left|,
               PathBits(start, level + 1, lengths[s]), rest, s);
  }

  /** A code in the lower half of a block has its mirrored start in the upper half. */
  lemma MirroredBit(
    codes: seq<Code>, lengths: seq<nat>, level: nat, mirror: nat, lo: nat, hi: nat, k: nat, i: nat)
    requires ValidTable(lengths) && 1 <= level <= 32 && lo < hi <= U32_BOUND && k <= |codes| && i < |codes|
    requires Block(level, mirror, U32_BOUND - hi, U32_BOUND - lo) && Tiled(codes, lengths, lo, hi)
    requires i < k ==> Tiled(codes[..k], lengths, lo, lo + Pow2(32 - level))
    requires i >= k ==> Tiled(codes[k..], lengths, lo + Pow2(32 - level), hi)
    ensures Mirrored(codes[i], lengths) >= 0 && (BitSet(Mirrored(codes[i], lengths), level) <==> i < k)
  {
    TiledBounds(codes, lengths, lo, hi, i);
    TiledFromLow(codes, lengths, lo, hi, i);
    SplitBlock(level, mirror, U32_BOUND - hi, U32_BOUND - lo);
    BitOfHalf(Mirrored(codes[i], lengths), level, mirror, U32_BOUND - hi, U32_BOUND - lo);
    assert U32_BOUND - lo == U32_BOUND - hi + 2 * Pow2(32 - level);
    if i < k {
      TiledBounds(codes[..k], lengths, lo, lo + Pow2(32 - level), i);
    } else {
      TiledFromLow(codes[k..], lengths, lo + Pow2(32 - level), hi, i - k);
    }
  }

  lemma SingleDecodes(
    codes: seq<Code>, lengths: seq<nat>, level: nat, prefix: nat, lo: nat, hi: nat, rest: seq<bool>)
    requires ValidTable(lengths) && 1 <= level <= 33 && hi <= U32_BOUND && Block(level, prefix, lo, hi)
    requires Tiled(codes, lengths, lo, hi) && |codes| == 1
    ensures SymbolDecodes(codes, lengths, level, 0, rest)
  {
    TiledBounds(codes, lengths, lo, hi, 0);
    SingleTile(codes, lengths, level, prefix, lo, hi);
    assert [] + rest == rest;
  }

  lemma BuiltWhenDecoding(codes: seq<Code>, lengths: seq<nat>, level: nat, i: nat, rest: seq<bool>)
    requires ValidTable(lengths) && i < |codes| && codes[i].value < |lengths|
    requires SymbolDecodes(codes, lengths, level, i, rest)
    ensures BuildSide(codes, level).Built?
  {
  }

  /** A tiled block of several codes splits into two tiled halves, and so does the mirrored block. */
  lemma TileHalves(
    codes: seq<Code>, lengths: seq<nat>, level: nat, prefix: nat, mirror: nat, lo: nat, hi: nat, i: nat)
    requires ValidTable(lengths) && 1 <= level <= 33 && lo < hi <= U32_BOUND
    requires Block(level, prefix, lo, hi) && Block(level, mirror, U32_BOUND - hi, U32_BOUND - lo)
    requires Tiled(codes, lengths, lo, hi) && i < |codes| && |codes| >= 2
    ensures level <= 31 && codes[i].value < |lengths| && level <= lengths[codes[i].value]
    ensures var k, mid := SplitIndex(codes, level), lo + Pow2(32 - level);
            && 0 < k < |codes| && lo < mid < hi
            && Block(level + 1, 2 * prefix, lo, mid) && Block(level + 1, 2 * prefix + 1, mid, hi)
            && Block(level + 1, 2 * mirror, U32_BOUND - hi, U32_BOUND - mid)
            && Block(level + 1, 2 * mirror + 1, U32_BOUND - mid, U32_BOUND - lo)
            && Tiled(codes[..k], lengths, lo, mid) && Tiled(codes[k..], lengths, mid, hi)
            && Mirrored(codes[i], lengths) >= 0 && (BitSet(Mirrored(codes[i], lengths), level) <==> i < k)
  {
    hide SplitIndex, Mirrored, BitSet, Tiled;
    TiledValues(codes, lengths, lo, hi);
    ManyTiles(codes, lengths, level, prefix, lo, hi);
    SplitAtMiddle(codes, lengths, level, prefix, lo, hi);
    SplitBlock(level, prefix, lo, hi);
    SplitBlock(level, mirror, U32_BOUND - hi, U32_BOUND - lo);
    MirroredBit(codes, lengths, level, mirror, lo, hi, SplitIndex(codes, level), i);
  }

  lemma TiledValues(codes: seq<Code>, lengths: seq<nat>, lo: nat, hi: nat)
    requires ValidTable(lengths) && Tiled(codes, lengths, lo, hi)
    ensures codes != [] && forall i | 0 <= i < |codes| :: codes[i].value < |lengths|
  {
  }

  /**
   * Inside a tiled block the tree leads from the remaining bits of each symbol's canonical code to that symbol.
   * `mirror` is the prefix of the mirrored block.
   */
  lemma {:induction false} TilesDecode(
    codes: seq<Code>, lengths: seq<nat>, level: nat, prefix: nat, mirror: nat, lo: nat, hi: nat, i: nat,
    rest: seq<bool>)
    requires ValidTable(lengths) && 1 <= level <= 33 && lo < hi <= U32_BOUND
    requires Block(level, prefix, lo, hi) && Block(level, mirror, U32_BOUND - hi, U32_BOUND - lo)
    requires Tiled(codes, lengths, lo, hi) && i < |codes|
    ensures codes[i].value < |lengths| && SymbolDecodes(codes, lengths, level, i, rest)
    decreases 33 - level
  {
    hide SymbolDecodes, ValidTable, Tiled, Block, Mirrored, SplitIndex, BitSet, Pow2;
    TiledValues(codes, lengths, lo, hi);
    if |codes| == 1 {
      SingleDecodes(codes, lengths, level, prefix, lo, hi, rest);
    } else {
      TileHalves(codes, lengths, level, prefix, mirror, lo, hi, i);
      var k := SplitIndex(codes, level);
      var mid := lo + Pow2(32 - level);
      TilesDecode(codes[..k], lengths, level + 1, 2 * prefix, 2 * mirror + 1, lo, mid, if i < k then i else 0, rest);
      TilesDecode(
        codes[k..], lengths, level + 1, 2 * prefix + 1, 2 * mirror, mid, hi, if i < k then 0 else i - k, rest);
      BuiltWhenDecoding(codes[..k], lengths, level + 1, if i < k then i else 0, rest);
      BuiltWhenDecoding(codes[k..], lengths, level + 1, if i < k then 0 else i - k, rest);
      assert codes == codes[..k] + codes[k..];
      SplitDecodes(codes, codes[..k], codes[k..], lengths, level, i, rest);
    }
  }

  /**
   * A complete table builds, and decoding a symbol's canonical code, whatever follows it, gives back the symbol
   * after exactly as many bits as the symbol's length.
   */
  lemma CompleteTableDecodes(codes: seq<Code>, lengths: seq<nat>, s: nat, rest: seq<bool>)
    requires ValidTable(lengths) && Complete(lengths) && IsCodeTable(codes, lengths) && s < |lengths|
    ensures DecodesTo(Build(codes, 0), CanonicalBits(lengths, s), rest, s)
  {
    var i := PermutationPosition(codes, |lengths|, s);
    CompleteSymbolDecodes(codes, lengths, i, rest);
    MirroredIsStart(codes, lengths, i);
    LevelZero(codes, lengths);
  }

  lemma MirroredIsStart(codes: seq<Code>, lengths: seq<nat>, i: nat)
    requires ValidTable(lengths) && Complete(lengths) && IsCodeTable(codes, lengths) && i < |codes|
    ensures codes[i].value < |lengths| && Mirrored(codes[i], lengths) == CanonicalStart(lengths, codes[i].value)
  {
    CodeAndStart(lengths, codes[i].value);
  }

  lemma CompleteSymbolDecodes(codes: seq<Code>, lengths: seq<nat>, i: nat, rest: seq<bool>)
    requires ValidTable(lengths) && Complete(lengths) && IsCodeTable(codes, lengths) && i < |codes|
    ensures SymbolDecodes(codes, lengths, 1, i, rest)
  {
    CompleteTiles(codes, lengths);
    WordBlock();
    TilesDecode(codes, lengths, 1, 0, 0, 0, U32_BOUND, i, rest);
  }

  lemma WordBlock()
    ensures Block(1, 0, 0, U32_BOUND)
  {
    Pow2Constants();
  }

  lemma LevelZero(codes: seq<Code>, lengths: seq<nat>)
    requires ValidTable(lengths) && IsCodeTable(codes, lengths)
    ensures BuildSide(codes, 1) == Build(codes, 0)
  {
    CodeTableIsGroup(codes, lengths);
    if SplitIndex(codes, 0) < |codes| {
      EvenBitZero(codes[SplitIndex(codes, 0)].code);
    }
    Unsplit(codes, 0);
  }
}
