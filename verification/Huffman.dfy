/**
 * Canonical Huffman trees of the bzip2 decoder. `HuffmanTree` holds the source's operations and the tree they build;
 * `CanonicalCode` shows which tables build, and that a complete table decodes its canonical code.
 */
module HuffmanTree {
  import opened Common
  import opened Bits

  /**
   * `PastLastLevel` stands for the recursion that does not come back: what ends it is the stack or the level's 32
   * bits.
   */
  datatype HuffmanError = EmptyTree | EqualSymbols | PastLastLevel

  /** A left-aligned 32-bit code and the symbol it stands for. */
  datatype Code = Code(code: nat, value: nat)

  datatype NodeState = Next(node: nat) | Done(value: nat)

  /** The states reached on a one bit and on a zero bit (slots 1 and 0 of the source's pair). */
  datatype Node = Node(one: NodeState, zero: NodeState)

  // ---------------------------------------------------------------------
  // The tree a call builds
  // ---------------------------------------------------------------------

  datatype Tree = Leaf(value: nat) | Branch(one: Tree, zero: Tree)

  function Size(t: Tree): nat {
    match t
    case Leaf(_) => 0
    case Branch(one, zero) => 1 + Size(one) + Size(zero)
  }

  /** The bit that `1u32.rotate_right(level)` selects: bit 0 at level 0, then bit 31 downwards. */
  function BitIndex(level: nat): nat { (32 - level % 32) % 32 }

  predicate BitSet(code: nat, level: nat) {
    ShiftRight(code, BitIndex(level)) % 2 == 1
  }

  function SplitIndex(codes: seq<Code>, level: nat): (k: nat)
    ensures k <= |codes|
    ensures forall i | 0 <= i < k :: !BitSet(codes[i].code, level)
    ensures k < |codes| ==> BitSet(codes[k].code, level)
  {
    if codes == [] || BitSet(codes[0].code, level) then 0 else 1 + SplitIndex(codes[1..], level)
  }

  /** `Runaway`: the source's recursion passes level 31 and repeats itself from there. */
  datatype Outcome = Built(tree: Tree) | Failed(error: HuffmanError) | Runaway

  function Build(codes: seq<Code>, level: nat): Outcome
    decreases 32 - level, 0
  {
    if level >= 32 then Runaway
    else
      var k := SplitIndex(codes, level);
      if k == 0 || k == |codes| then
        if |codes| < 2 then Failed(EmptyTree)
        else if level == 31 then Failed(EqualSymbols)
        else Build(codes, level + 1)
      else
        var one := BuildSide(codes[..k], level + 1);
        if !one.Built? then one
        else
          var zero := BuildSide(codes[k..], level + 1);
          if !zero.Built? then zero else Built(Branch(one.tree, zero.tree))
  }

  /** One side of a split: a single code becomes a leaf. */
  function BuildSide(codes: seq<Code>, level: nat): Outcome
    decreases 32 - level, 1
  {
    if |codes| == 1 then Built(Leaf(codes[0].value)) else Build(codes, level)
  }

  /**
   * What `Runaway` stands for: at level 32 or above, a group of two or more equal codes is neither split nor
   * rejected, so the call makes the same call again one level further on, until the stack or the 32-bit level gives
   * out.
   */
  lemma RunawayRepeats(codes: seq<Code>, level: nat)
    requires level >= 32 && |codes| >= 2
    requires forall i | 0 <= i < |codes| :: codes[i].code == codes[0].code
    ensures var k := SplitIndex(codes, level);
            (k == 0 || k == |codes|) && !(|codes| < 2) && level != 31
  {
    var k := SplitIndex(codes, level);
    if k < |codes| {
      assert codes[k].code == codes[0].code;
    }
  }

  lemma {:induction false} BuiltSize(codes: seq<Code>, level: nat)
    ensures Build(codes, level).Built? ==>
              Build(codes, level).tree.Branch? && Size(Build(codes, level).tree) == |codes| - 1
    decreases 32 - level, 0
  {
    if level < 32 {
      var k := SplitIndex(codes, level);
      if k == 0 || k == |codes| {
        BuiltSize(codes, level + 1);
      } else {
        SideSize(codes[..k], level + 1);
        SideSize(codes[k..], level + 1);
      }
    }
  }

  lemma {:induction false} SideSize(codes: seq<Code>, level: nat)
    requires codes != []
    ensures BuildSide(codes, level).Built? ==> Size(BuildSide(codes, level).tree) == |codes| - 1
    decreases 32 - level, 1
  {
    if |codes| > 1 {
      BuiltSize(codes, level);
    }
  }

  // ---------------------------------------------------------------------
  // Node tables
  // ---------------------------------------------------------------------

  /** The nodes from `at` hold `t` in preorder, the one-branch first; every link goes to a larger index. */
  predicate Represents(nodes: seq<Node>, at: nat, t: Tree)
    requires t.Branch?
    decreases t, 0
  {
    && at + Size(t) <= |nodes|
    && Holds(nodes, nodes[at].one, at + 1, t.one)
    && Holds(nodes, nodes[at].zero, at + 1 + Size(t.one), t.zero)
  }

  predicate Holds(nodes: seq<Node>, state: NodeState, at: nat, t: Tree)
    decreases t, 1
  {
    match t
    case Leaf(v) => state == Done(v)
    case Branch(_, _) => state == Next(at) && Represents(nodes, at, t)
  }

  predicate SameFrom(nodes: seq<Node>, nodes': seq<Node>, at: nat, n: nat) {
    at + n <= |nodes| == |nodes'| && forall i | at <= i < at + n :: nodes'[i] == nodes[i]
  }

  lemma {:induction false} RepresentsFrame(nodes: seq<Node>, nodes': seq<Node>, at: nat, t: Tree)
    requires t.Branch? && Represents(nodes, at, t) && SameFrom(nodes, nodes', at, Size(t))
    ensures Represents(nodes', at, t)
    decreases t, 0
  {
    HoldsFrame(nodes, nodes', nodes[at].one, at + 1, t.one);
    HoldsFrame(nodes, nodes', nodes[at].zero, at + 1 + Size(t.one), t.zero);
  }

  lemma {:induction false} HoldsFrame(nodes: seq<Node>, nodes': seq<Node>, state: NodeState, at: nat, t: Tree)
    requires Holds(nodes, state, at, t) && SameFrom(nodes, nodes', at, Size(t))
    ensures Holds(nodes', state, at, t)
    decreases t, 1
  {
    if t.Branch? {
      RepresentsFrame(nodes, nodes', at, t);
    }
  }

  // ---------------------------------------------------------------------
  // Building
  // ---------------------------------------------------------------------

  method FirstRightIndex(codes: seq<Code>, level: nat) returns (k: nat)
    ensures k == SplitIndex(codes, level)
  {
    k := 0;
    while k < |codes| && !BitSet(codes[k].code, level)
      invariant k <= |codes| && SplitIndex(codes, level) == k + SplitIndex(codes[k..], level)
    {
      k := k + 1;
    }
  }

  ghost predicate Returned(r: Result<NodeState, HuffmanError>, next: nat, next': nat, o: Outcome, nodes: seq<Node>) {
    match o
    case Built(t) => r.Ok? && next' == next + Size(t) && Holds(nodes, r.value, next, t)
    case Failed(e) => r == Err(e)
    case Runaway => r == Err(PastLastLevel)
  }

  /** The state for one side of a split, building its subtree from index `next` when it has several codes. */
  method BuildState(nodes: array<Node>, next: nat, codes: seq<Code>, level: nat)
    returns (r: Result<NodeState, HuffmanError>, next': nat)
    requires codes != []
    requires next + |codes| <= nodes.Length + 1
    modifies nodes
    ensures forall i | 0 <= i < next && i < nodes.Length :: nodes[i] == old(nodes[i])
    ensures Returned(r, next, next', BuildSide(codes, level), nodes[..])
    decreases 32 - level, 1
  {
    if |codes| == 1 {
      return Ok(Done(codes[0].value)), next;
    }
    var val;
    val, next' := BuildHuffmanNode(nodes, next, codes, level);
    r := if val.Ok? then Ok(Next(val.value)) else Err(val.error);
  }

  lemma JoinSides(nodes: seq<Node>, at: nat, one: Tree, zero: Tree)
    requires at + 1 + Size(one) + Size(zero) <= |nodes|
    requires Holds(nodes, nodes[at].one, at + 1, one)
    requires Holds(nodes, nodes[at].zero, at + 1 + Size(one), zero)
    ensures Represents(nodes, at, Branch(one, zero))
  {
  }

  /** Takes the node at `next` for a split and builds both sides behind it. */
  method BuildBranch(nodes: array<Node>, next: nat, left: seq<Code>, right: seq<Code>, level: nat)
    returns (r: Result<nat, HuffmanError>, next': nat)
    requires left != [] && right != []
    requires next + |left| + |right| <= nodes.Length + 1
    modifies nodes
    ensures forall i | 0 <= i < next :: nodes[i] == old(nodes[i])
    ensures match BuildSide(left, level)
            case Failed(e) => r == Err(e)
            case Runaway => r == Err(PastLastLevel)
            case Built(one) =>
              match BuildSide(right, level)
              case Failed(e) => r == Err(e)
              case Runaway => r == Err(PastLastLevel)
              case Built(zero) =>
                && r == Ok(next)
                && next' == next + 1 + Size(one) + Size(zero)
                && Represents(nodes[..], next, Branch(one, zero))
    decreases 32 - level, 2
  {
    SideSize(left, level);
    SideSize(right, level);
    var nodeIndex := next;
    var one;
    one, next' := BuildState(nodes, next + 1, left, level);
    if one.Err? {
      return Err(one.error), next';
    }
    ghost var ones := nodes[..];
    nodes[nodeIndex] := nodes[nodeIndex].(one := one.value);
    var zero;
    zero, next' := BuildState(nodes, next', right, level);
    if zero.Err? {
      return Err(zero.error), next';
    }
    ghost var zeros := nodes[..];
    nodes[nodeIndex] := nodes[nodeIndex].(zero := zero.value);
    ghost var oneTree, zeroTree := BuildSide(left, level).tree, BuildSide(right, level).tree;
    HoldsFrame(ones, nodes[..], one.value, next + 1, oneTree);
    HoldsFrame(zeros, nodes[..], zero.value, next + 1 + Size(oneTree), zeroTree);
    JoinSides(nodes[..], next, oneTree, zeroTree);
    r := Ok(nodeIndex);
  }

  /**
   * Fills `nodes` from index `next` with the tree of `codes`. Never writes below `next`, never runs past the table
   * (the source's bound assertion holds), and uses exactly one node less than there are codes. Level 32 is where the
   * model gives up a recursion that repeats itself.
   */
  method BuildHuffmanNode(nodes: array<Node>, next: nat, codes: seq<Code>, level: nat)
    returns (r: Result<nat, HuffmanError>, next': nat)
    requires next + |codes| <= nodes.Length + 1
    modifies nodes
    ensures forall i | 0 <= i < next && i < nodes.Length :: nodes[i] == old(nodes[i])
    ensures match Build(codes, level)
            case Built(t) => r == Ok(next) && next' == next + Size(t) && t.Branch? && Represents(nodes[..], next, t)
            case Failed(e) => r == Err(e)
            case Runaway => r == Err(PastLastLevel)
    decreases 32 - level, 0
  {
    if level >= 32 {
      return Err(PastLastLevel), next;
    }
    next' := next;
    var k := FirstRightIndex(codes, level);
    var left, right := codes[..k], codes[k..];
    if left == [] || right == [] {
      if |codes| < 2 {
        return Err(EmptyTree), next';
      }
      if level == 31 {
        return Err(EqualSymbols), next';
      }
      var side := if left == [] then right else left;
      assert side == codes && Build(codes, level) == Build(codes, level + 1);
      r, next' := BuildHuffmanNode(nodes, next, side, level + 1);
    } else {
      r, next' := BuildBranch(nodes, next, left, right, level + 1);
    }
  }

  // ---------------------------------------------------------------------
  // Decoding
  // ---------------------------------------------------------------------

  datatype Decoded = Decoded(value: Option<nat>, used: nat)

  /** Reads one symbol: one bit per branch, until a leaf or the end of the bits. */
  function DecodeTree(t: Tree, bits: seq<bool>): (d: Decoded)
    ensures d.used <= Size(t) && d.used <= |bits|
    ensures d.value.None? ==> d.used == |bits|
  {
    match t
    case Leaf(v) => Decoded(Some(v), 0)
    case Branch(one, zero) =>
      if bits == [] then Decoded(None, 0)
      else
        var d := DecodeTree(if bits[0] then one else zero, bits[1..]);
        d.(used := 1 + d.used)
  }

  /** Decodes one symbol from a node table; stops after at most one bit per node. */
  method Decode(nodes: seq<Node>, bits: seq<bool>, ghost t: Tree) returns (value: Option<nat>, used: nat)
    requires t.Branch? && Represents(nodes, 0, t)
    ensures Decoded(value, used) == DecodeTree(t, bits)
  {
    var node := 0;
    used := 0;
    ghost var here := t;
    while used < |bits|
      invariant used <= |bits| && here.Branch? && Represents(nodes, node, here)
      invariant var d := DecodeTree(here, bits[used..]);
                DecodeTree(t, bits) == d.(used := used + d.used)
    {
      var bit := bits[used];
      var state := if bit then nodes[node].one else nodes[node].zero;
      ghost var child := if bit then here.one else here.zero;
      assert bits[used..][1..] == bits[used + 1..];
      used := used + 1;
      match state
      case Next(n) =>
        node := n;
        here := child;
      case Done(v) =>
        return Some(v), used;
    }
    return None, used;
  }
}

/** Which groups of codes build, which are rejected, and which send the source's recursion past level 31. */
module CodeGroups {
  import opened Common
  import opened Bits
  import opened HuffmanTree

  /** The bits of a code above those that `level` and later levels test. */
  function Prefix(code: nat, level: nat): nat
    requires level <= 33
  {
    ShiftRight(code, 33 - level)
  }

  predicate CodeLeq(codes: seq<Code>, i: nat, j: nat)
    requires i < |codes| && j < |codes|
  {
    codes[i].code <= codes[j].code
  }

  predicate SortedByCode(codes: seq<Code>) {
    forall i, j | 0 <= i < j < |codes| :: CodeLeq(codes, i, j)
  }

  /** Codes that agree above `level` and have bit 0 clear. */
  predicate Agree(codes: seq<Code>, level: nat, prefix: nat)
    requires level <= 33
  {
    forall i | 0 <= i < |codes| :: Prefix(codes[i].code, level) == prefix && codes[i].code % 2 == 0
  }

  predicate Group(codes: seq<Code>, level: nat, prefix: nat) {
    1 <= level <= 32 && Agree(codes, level, prefix) && SortedByCode(codes)
  }

  lemma SortedSlice(codes: seq<Code>, lo: nat, hi: nat)
    requires SortedByCode(codes) && lo <= hi <= |codes|
    ensures SortedByCode(codes[lo..hi])
  {
    forall i, j | 0 <= i < j < hi - lo
      ensures CodeLeq(codes[lo..hi], i, j)
    {
      assert CodeLeq(codes, lo + i, lo + j);
    }
  }

  lemma PrefixStep(code: nat, level: nat)
    requires 1 <= level <= 32
    ensures Prefix(code, level + 1) == 2 * Prefix(code, level) + if BitSet(code, level) then 1 else 0
  {
    assert BitIndex(level) == 32 - level;
  }

  lemma SplitGroup(codes: seq<Code>, level: nat, prefix: nat)
    requires level < 32 && Group(codes, level, prefix)
    ensures var k := SplitIndex(codes, level);
            && Group(codes[..k], level + 1, 2 * prefix)
            && Group(codes[k..], level + 1, 2 * prefix + 1)
            && (0 < k < |codes| ==> codes[k - 1].code != codes[k].code)
  {
    var k := SplitIndex(codes, level);
    forall i | 0 <= i < |codes|
      ensures Prefix(codes[i].code, level + 1) == 2 * prefix + if i < k then 0 else 1
    {
      PrefixStep(codes[i].code, level);
      if k < i {
        PrefixStep(codes[k].code, level);
        assert CodeLeq(codes, k, i);
        ShiftRightMonotone(codes[k].code, codes[i].code, 32 - level);
      }
    }
    SortedSlice(codes, 0, k);
    SortedSlice(codes, k, |codes|);
    assert codes[0..k] == codes[..k] && codes[k..|codes|] == codes[k..];
  }

  lemma UnsplitGroup(codes: seq<Code>, level: nat, prefix: nat) returns (half: nat)
    requires level < 32 && Group(codes, level, prefix)
    requires SplitIndex(codes, level) == 0 || SplitIndex(codes, level) == |codes|
    ensures Group(codes, level + 1, half)
  {
    SplitGroup(codes, level, prefix);
    var k := SplitIndex(codes, level);
    if k == 0 {
      assert codes[k..] == codes;
      half := 2 * prefix + 1;
    } else {
      assert codes[..k] == codes;
      half := 2 * prefix;
    }
  }

  // ---------------------------------------------------------------------
  // Repeated codes
  // ---------------------------------------------------------------------

  /** The smallest code that occurs twice, in a list sorted by code. */
  function FirstRepeat(codes: seq<Code>): Option<nat> {
    if |codes| < 2 then None
    else if codes[0].code == codes[1].code then Some(codes[0].code)
    else FirstRepeat(codes[1..])
  }

  /** The code that differs in bit 1 only. */
  function Sibling(code: nat): nat {
    if code % 4 < 2 then code + 2 else code - 2
  }

  predicate HasCode(codes: seq<Code>, code: nat) {
    exists i :: 0 <= i < |codes| && codes[i].code == code
  }

  lemma {:induction false} FirstRepeatAppend(left: seq<Code>, right: seq<Code>)
    requires left != [] && right != [] && left[|left| - 1].code != right[0].code
    ensures FirstRepeat(left + right) == if FirstRepeat(left).Some? then FirstRepeat(left) else FirstRepeat(right)
  {
    if |left| == 1 {
      assert (left + right)[1..] == right;
    } else {
      assert (left + right)[1..] == left[1..] + right;
      FirstRepeatAppend(left[1..], right);
    }
  }

  lemma {:induction false} FirstRepeatFound(codes: seq<Code>)
    ensures FirstRepeat(codes).Some? ==> |codes| >= 2 && HasCode(codes, FirstRepeat(codes).value)
  {
    if |codes| >= 2 {
      if codes[0].code != codes[1].code {
        FirstRepeatFound(codes[1..]);
        if FirstRepeat(codes).Some? {
          var i :| 0 <= i < |codes[1..]| && codes[1..][i].code == FirstRepeat(codes).value;
          assert codes[i + 1].code == FirstRepeat(codes).value;
        }
      }
    }
  }

  /** What the codes alone say about the outcome of building. */
  ghost predicate Expected(o: Outcome, codes: seq<Code>) {
    match FirstRepeat(codes)
    case None => o.Built?
    case Some(c) => if HasCode(codes, Sibling(c)) then o.Runaway? else o == Failed(EqualSymbols)
  }

  lemma ShiftRightTwo(x: nat)
    ensures ShiftRight(x, 2) == x / 4
  {
    assert ShiftRight(x, 1) == x / 2;
  }

  lemma {:induction false} SiblingPrefix(code: nat, n: nat)
    requires code % 2 == 0 && n >= 2
    ensures ShiftRight(Sibling(code), n) == ShiftRight(code, n)
  {
    if n == 2 {
      ShiftRightTwo(code);
      ShiftRightTwo(Sibling(code));
    } else {
      SiblingPrefix(code, n - 1);
    }
  }

  lemma HasCodeAppend(left: seq<Code>, right: seq<Code>, c: nat)
    ensures HasCode(left + right, c) <==> HasCode(left, c) || HasCode(right, c)
  {
    forall i | 0 <= i < |left|
      ensures (left + right)[i] == left[i]
    {
    }
    forall i | 0 <= i < |right|
      ensures (left + right)[|left| + i] == right[i]
    {
    }
  }

  /** A group that a level does not split is rejected at level 31 and passed on below it. */
  lemma Unsplit(codes: seq<Code>, level: nat)
    requires |codes| >= 2 && level <= 31 && (SplitIndex(codes, level) == 0 || SplitIndex(codes, level) == |codes|)
    ensures Build(codes, level) == if level == 31 then Failed(EqualSymbols) else Build(codes, level + 1)
  {
  }

  /** A group that a level splits builds its sides in order. */
  lemma Split(codes: seq<Code>, left: seq<Code>, right: seq<Code>, level: nat)
    requires left != [] && right != [] && level <= 31 && codes == left + right && |left| == SplitIndex(codes, level)
    ensures Build(codes, level) ==
            var one, zero := BuildSide(left, level + 1), BuildSide(right, level + 1);
            if !one.Built? then one else if !zero.Built? then zero else Built(Branch(one.tree, zero.tree))
  {
    hide BitSet;
    assert codes[..|left|] == left && codes[|left|..] == right;
  }

  lemma EvenSameHalf(a: nat, b: nat)
    requires a % 2 == 0 && b % 2 == 0 && ShiftRight(a, 1) == ShiftRight(b, 1)
    ensures a == b
  {
    assert ShiftRight(a, 1) == a / 2 && ShiftRight(b, 1) == b / 2;
  }

  /** A group of two or more even codes at level 32 is a repeated code. */
  lemma Level32Repeats(codes: seq<Code>, prefix: nat)
    requires |codes| >= 2 && Group(codes, 32, prefix)
    ensures FirstRepeat(codes) == Some(codes[0].code)
  {
    EvenSameHalf(codes[0].code, codes[1].code);
  }

  lemma SiblingOf(a: nat, b: nat)
    requires a % 2 == 0 && b % 2 == 0 && ShiftRight(a, 1) % 2 == 0 && ShiftRight(b, 1) == ShiftRight(a, 1) + 1
    ensures Sibling(a) == b && Sibling(b) == a
  {
    assert ShiftRight(a, 1) == a / 2 && ShiftRight(b, 1) == b / 2;
  }

  lemma LastSplit(codes: seq<Code>, left: seq<Code>, right: seq<Code>, prefix: nat)
    requires left != [] && right != [] && codes == left + right && |left| == SplitIndex(codes, 31)
    requires Group(left, 32, 2 * prefix) && Group(right, 32, 2 * prefix + 1)
    ensures Expected(Build(codes, 31), codes)
  {
    var a, b := left[0].code, right[0].code;
    assert codes[0].code == a && codes[|left|].code == b;
    assert HasCode(codes, a) && HasCode(codes, b);
    SiblingOf(a, b);
    EvenSameHalf(left[|left| - 1].code, a);
    FirstRepeatAppend(left, right);
    Split(codes, left, right, 31);
    if |left| >= 2 {
      Level32Repeats(left, 2 * prefix);
    } else if |right| >= 2 {
      Level32Repeats(right, 2 * prefix + 1);
    }
  }

  lemma OnlyCode(codes: seq<Code>, prefix: nat)
    requires codes != [] && Group(codes, 32, prefix)
    ensures !HasCode(codes, Sibling(codes[0].code))
  {
    forall i | 0 <= i < |codes|
      ensures codes[i].code == codes[0].code
    {
      EvenSameHalf(codes[i].code, codes[0].code);
    }
  }

  lemma LastUnsplit(codes: seq<Code>, half: nat)
    requires |codes| >= 2 && Group(codes, 32, half)
    requires SplitIndex(codes, 31) == 0 || SplitIndex(codes, 31) == |codes|
    ensures Expected(Build(codes, 31), codes)
  {
    Unsplit(codes, 31);
    Level32Repeats(codes, half);
    OnlyCode(codes, half);
  }

  /** At level 31 a group holds at most two codes, siblings of each other. */
  lemma LastLevel(codes: seq<Code>, prefix: nat)
    requires |codes| >= 2 && Group(codes, 31, prefix)
    ensures Expected(Build(codes, 31), codes)
  {
    hide Agree, Build, SplitIndex, Group, ShiftRight, SortedByCode;
    var k := SplitIndex(codes, 31);
    if k == 0 || k == |codes| {
      var half := UnsplitGroup(codes, 31, prefix);
      LastUnsplit(codes, half);
    } else {
      SplitGroup(codes, 31, prefix);
      assert codes == codes[..k] + codes[k..];
      LastSplit(codes, codes[..k], codes[k..], prefix);
    }
  }

  /** A repeat on one side of a split decides the whole group as it decides that side. */
  lemma SideDecides(codes: seq<Code>, side: seq<Code>, other: seq<Code>, level: nat, p: nat, q: nat)
    requires level <= 31 && p != q && Group(side, level, p) && Group(other, level, q)
    requires forall c :: HasCode(codes, c) <==> HasCode(side, c) || HasCode(other, c)
    requires FirstRepeat(side).Some? && FirstRepeat(codes) == FirstRepeat(side)
    ensures forall o :: Expected(o, side) <==> Expected(o, codes)
  {
    var c := FirstRepeat(side).value;
    FirstRepeatFound(side);
    SiblingPrefix(c, 33 - level);
    assert !HasCode(other, Sibling(c));
  }

  lemma {:induction false} SideOutcome(codes: seq<Code>, level: nat, prefix: nat)
    requires codes != [] && level <= 31 && Group(codes, level, prefix)
    ensures Expected(BuildSide(codes, level), codes)
    decreases 32 - level, 1
  {
    if |codes| > 1 {
      GroupOutcome(codes, level, prefix);
    }
  }

  lemma SplitOutcome(codes: seq<Code>, left: seq<Code>, right: seq<Code>, level: nat, prefix: nat)
    requires level < 31 && left != [] && right != [] && codes == left + right && |left| == SplitIndex(codes, level)
    requires Group(left, level + 1, 2 * prefix) && Group(right, level + 1, 2 * prefix + 1)
    requires left[|left| - 1].code != right[0].code
    requires Expected(BuildSide(left, level + 1), left) && Expected(BuildSide(right, level + 1), right)
    ensures Expected(Build(codes, level), codes)
  {
    Split(codes, left, right, level);
    FirstRepeatAppend(left, right);
    forall c ensures HasCode(codes, c) <==> HasCode(left, c) || HasCode(right, c) {
      HasCodeAppend(left, right, c);
    }
    if FirstRepeat(left).Some? {
      SideDecides(codes, left, right, level + 1, 2 * prefix, 2 * prefix + 1);
    } else if FirstRepeat(right).Some? {
      SideDecides(codes, right, left, level + 1, 2 * prefix + 1, 2 * prefix);
    }
  }

  /**
   * For every sorted group of two or more even codes: distinct codes build a tree; otherwise the smallest repeated
   * code decides, and the recursion runs away if and only if that code's sibling is in the group too.
   */
  lemma {:induction false} GroupOutcome(codes: seq<Code>, level: nat, prefix: nat)
    requires |codes| >= 2 && level <= 31 && Group(codes, level, prefix)
    ensures Expected(Build(codes, level), codes)
    decreases 32 - level, 0
  {
    hide Expected, Build, Group, SplitIndex;
    if level == 31 {
      LastLevel(codes, prefix);
      return;
    }
    var k := SplitIndex(codes, level);
    if k == 0 || k == |codes| {
      var half := UnsplitGroup(codes, level, prefix);
      Unsplit(codes, level);
      GroupOutcome(codes, level + 1, half);
    } else {
      SplitGroup(codes, level, prefix);
      var left, right := codes[..k], codes[k..];
      SideOutcome(left, level + 1, 2 * prefix);
      SideOutcome(right, level + 1, 2 * prefix + 1);
      assert codes == left + right;
      SplitOutcome(codes, left, right, level, prefix);
    }
  }

  lemma EvenBitZero(code: nat)
    requires code % 2 == 0
    ensures !BitSet(code, 0)
  {
  }

  /** Level 0 tests bit 0, which is clear in every code, so the whole table is one group at level 1. */
  lemma TableOutcome(codes: seq<Code>)
    requires |codes| >= 2 && Group(codes, 1, 0)
    ensures Expected(Build(codes, 0), codes)
  {
    if SplitIndex(codes, 0) < |codes| {
      EvenBitZero(codes[SplitIndex(codes, 0)].code);
    }
    GroupOutcome(codes, 1, 0);
  }
}
