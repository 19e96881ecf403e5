/**
 * Inverse Burrows-Wheeler transform. `LinkTable` builds the link table in place by a stable counting sort;
 * `BlockTransform` shows that walking the table undoes the forward transform.
 */
module LinkTable {
  import opened Common
  import opened Bits
  import opened Permutations

  // ---------------------------------------------------------------------
  // What the table must be
  // ---------------------------------------------------------------------

  /** The low eight bits of a table word hold a byte of the transformed block, the bits above hold a link. */
  function Link(words: seq<nat>, k: nat): nat
    requires k < |words|
  {
    words[k] / 256
  }

  ghost predicate LinksInRange(words: seq<nat>) {
    forall k | 0 <= k < |words| :: Link(words, k) < |words|
  }

  ghost predicate BytesAre(words: seq<nat>, col: seq<byte>) {
    |words| == |col| && forall k | 0 <= k < |words| :: words[k] % 256 == col[k]
  }

  /**
   * Slot `k` comes before slot `l` because its entry has the smaller byte, or the same byte and the smaller position.
   */
  ghost predicate StablyBefore(words: seq<nat>, col: seq<byte>, k: nat, l: nat)
    requires |words| == |col| && LinksInRange(words) && k < |words| && l < |words|
  {
    var a, b := Link(words, k), Link(words, l);
    col[a] < col[b] || (col[a] == col[b] && a < b)
  }

  ghost function LinksOf(words: seq<nat>): (links: seq<nat>)
    ensures |links| == |words|
  {
    seq(|words|, k requires 0 <= k < |words| => Link(words, k))
  }

  /** Bytes unchanged, and the links are the permutation that sorts the bytes stably. */
  ghost predicate IsLinkTable(words: seq<nat>, col: seq<byte>) {
    && BytesAre(words, col)
    && LinksInRange(words)
    && IsPermutation(LinksOf(words), |words|)
    && forall k, l | 0 <= k < l < |words| :: StablyBefore(words, col, k, l)
  }

  // ---------------------------------------------------------------------
  // Slots of the stable counting sort
  // ---------------------------------------------------------------------

  function Count(col: seq<byte>, b: int): (c: nat)
    ensures c <= |col|
  {
    if col == [] then 0
    else Count(col[..|col| - 1], b) + (if col[|col| - 1] == b then 1 else 0)
  }

  /** How many entries of `col` are below `b`: the first slot of bucket `b`. */
  function Start(col: seq<byte>, b: nat): nat {
    if b == 0 then 0 else Start(col, b - 1) + Count(col, b - 1)
  }

  lemma {:induction false} CountPrefix(col: seq<byte>, b: int, i: nat, j: nat)
    requires i <= j <= |col|
    ensures Count(col[..i], b) <= Count(col[..j], b)
    ensures i < j && col[i] == b ==> Count(col[..i], b) < Count(col[..j], b)
    decreases j - i
  {
    if i < j {
      assert col[..j][..j - 1] == col[..j - 1];
      CountPrefix(col, b, i, j - 1);
      if i == j - 1 {
        assert col[..j][j - 1] == col[i];
      }
    }
  }

  lemma {:induction false} StartMonotone(col: seq<byte>, a: nat, b: nat)
    requires a <= b
    ensures Start(col, a) <= Start(col, b)
    ensures a < b ==> Start(col, a) + Count(col, a) <= Start(col, b)
  {
    if a < b {
      StartMonotone(col, a, b - 1);
    }
  }

  lemma {:induction false} StartSnoc(col: seq<byte>, b: nat)
    requires col != []
    ensures Start(col, b) == Start(col[..|col| - 1], b) + (if col[|col| - 1] < b then 1 else 0)
  {
    if b > 0 {
      StartSnoc(col, b - 1);
    }
  }

  lemma {:induction false} StartTotal(col: seq<byte>)
    ensures Start(col, 256) == |col|
  {
    if col == [] {
      StartEmpty(256);
    } else {
      StartSnoc(col, 256);
      StartTotal(col[..|col| - 1]);
    }
  }

  lemma {:induction false} StartEmpty(b: nat)
    ensures Start([], b) == 0
  {
    if b > 0 {
      StartEmpty(b - 1);
    }
  }

  /** Where the stable sort of `col` puts entry `j`. */
  function Slot(col: seq<byte>, j: nat): nat
    requires j < |col|
  {
    Start(col, col[j]) + Count(col[..j], col[j])
  }

  lemma SlotBounds(col: seq<byte>, j: nat)
    requires j < |col|
    ensures Start(col, col[j]) <= Slot(col, j) < Start(col, col[j]) + Count(col, col[j])
    ensures Slot(col, j) < |col|
  {
    CountPrefix(col, col[j], j, |col|);
    assert col[..|col|] == col;
    StartMonotone(col, col[j], 256);
    StartTotal(col);
  }

  /** Slots follow byte value first and position second. */
  lemma SlotOrder(col: seq<byte>, i: nat, j: nat)
    requires i < |col| && j < |col|
    requires col[i] < col[j] || (col[i] == col[j] && i < j)
    ensures Slot(col, i) < Slot(col, j)
  {
    SlotBounds(col, i);
    SlotBounds(col, j);
    if col[i] < col[j] {
      StartMonotone(col, col[i], col[j]);
    } else {
      CountPrefix(col, col[i], i, j);
    }
  }

  lemma {:induction false} NthOccurrence(col: seq<byte>, b: byte, m: nat) returns (j: nat)
    requires m < Count(col, b)
    ensures j < |col| && col[j] == b && Count(col[..j], b) == m
  {
    var last := |col| - 1;
    if col[last] == b && Count(col[..last], b) == m {
      j := last;
    } else {
      j := NthOccurrence(col[..last], b, m);
      assert col[..last][..j] == col[..j];
    }
  }

  lemma {:induction false} BucketOf(col: seq<byte>, k: nat, bound: nat) returns (b: nat)
    requires k < Start(col, bound)
    ensures b < bound && Start(col, b) <= k < Start(col, b) + Count(col, b)
  {
    if k < Start(col, bound - 1) {
      b := BucketOf(col, k, bound - 1);
    } else {
      b := bound - 1;
    }
  }

  lemma SlotInjective(col: seq<byte>, i: nat, j: nat)
    requires i < |col| && j < |col| && Slot(col, i) == Slot(col, j)
    ensures i == j
  {
    if i != j {
      if col[i] < col[j] || (col[i] == col[j] && i < j) {
        SlotOrder(col, i, j);
      } else {
        SlotOrder(col, j, i);
      }
    }
  }

  lemma SlotOnto(col: seq<byte>, k: nat) returns (j: nat)
    requires k < |col|
    ensures j < |col| && Slot(col, j) == k
  {
    StartTotal(col);
    var b := BucketOf(col, k, 256);
    j := NthOccurrence(col, b, k - Start(col, b));
  }

  // ---------------------------------------------------------------------
  // The table, built in place
  // ---------------------------------------------------------------------

  ghost predicate IsHistogram(c: seq<nat>, col: seq<byte>) {
    |c| == 256 && forall b | 0 <= b < 256 :: c[b] == Count(col, b)
  }

  /** Turns a copy of the per-byte counts into first-slot positions, in place. */
  method FirstSlots(counts: seq<nat>, ghost col: seq<byte>) returns (c: array<nat>)
    requires IsHistogram(counts, col)
    ensures fresh(c) && CursorsAfter(c[..], col, 0)
  {
    c := new nat[256](i requires 0 <= i < 256 => counts[i]);
    var sum := 0;
    for i := 0 to c.Length
      invariant sum == Start(col, i)
      invariant forall b | 0 <= b < i :: c[b] == Start(col, b)
      invariant forall b | i <= b < 256 :: c[b] == Count(col, b)
    {
      var count := c[i];
      c[i] := sum;
      sum := sum + count;
    }
  }

  /** After `i` entries every bucket's cursor has moved past the entries placed in it. */
  ghost predicate CursorsAfter(c: seq<nat>, col: seq<byte>, i: nat)
    requires i <= |col|
  {
    |c| == 256 && forall b | 0 <= b < 256 :: c[b] == Start(col, b) + Count(col[..i], b)
  }

  lemma CursorStep(c: seq<nat>, col: seq<byte>, i: nat)
    requires i < |col| && CursorsAfter(c, col, i)
    ensures c[col[i]] == Slot(col, i) < |col|
    ensures CursorsAfter(c[col[i] := c[col[i]] + 1], col, i + 1)
  {
    SlotBounds(col, i);
    assert col[..i + 1][..i] == col[..i];
  }

  ghost predicate Placed(words: seq<nat>, col: seq<byte>, j: nat)
    requires |words| == |col| && j < |col|
  {
    Slot(col, j) < |words| && words[Slot(col, j)] == col[Slot(col, j)] + 256 * j
  }

  ghost predicate Unplaced(words: seq<nat>, col: seq<byte>, j: nat)
    requires |words| == |col| && j < |col|
  {
    Slot(col, j) < |words| && words[Slot(col, j)] == col[Slot(col, j)]
  }

  /** After `i` entries: the slots of those entries are linked, the others still hold a bare byte. */
  ghost predicate PlacedUpTo(words: seq<nat>, col: seq<byte>, i: nat) {
    && BytesAre(words, col)
    && (forall j | 0 <= j < |col| && j < i :: Placed(words, col, j))
    && (forall j | i <= j < |col| :: Unplaced(words, col, j))
  }

  lemma OrLink(b: byte, i: nat)
    ensures BitOr(b, ShiftLeft(i, 8)) == b + 256 * i
  {
    ShiftLeftConstants(1);
    ShiftLeftConstants(i);
    BitOrDisjoint(b, i, 8);
  }

  lemma PlaceStep(words: seq<nat>, col: seq<byte>, i: nat)
    requires i < |col| && PlacedUpTo(words, col, i)
    ensures Slot(col, i) < |words|
    ensures PlacedUpTo(words[Slot(col, i) := BitOr(words[Slot(col, i)], ShiftLeft(i, 8))], col, i + 1)
  {
    hide Slot, BitOr, ShiftLeft;
    assert Unplaced(words, col, i);
    OrLink(words[Slot(col, i)], i);
    var slot := Slot(col, i);
    var words' := words[slot := col[slot] + 256 * i];
    forall j | 0 <= j < |col| && j < i + 1
      ensures Placed(words', col, j)
    {
      if j < i {
        assert Placed(words, col, j);
        if Slot(col, j) == slot { SlotInjective(col, i, j); }
      }
    }
    forall j | i + 1 <= j < |col|
      ensures Unplaced(words', col, j)
    {
      assert Unplaced(words, col, j);
      if Slot(col, j) == slot { SlotInjective(col, i, j); }
    }
  }

  lemma UnplacedAtFirst(col: seq<byte>)
    ensures PlacedUpTo(col, col, 0)
  {
    forall j | 0 <= j < |col|
      ensures Unplaced(col, col, j)
    {
      SlotBounds(col, j);
    }
  }

  lemma LinkOfPlaced(words: seq<nat>, col: seq<byte>, k: nat) returns (j: nat)
    requires PlacedUpTo(words, col, |col|) && k < |col|
    ensures j < |col| && Slot(col, j) == k && Link(words, k) == j
  {
    j := SlotOnto(col, k);
    assert Placed(words, col, j);
  }

  /** Once every entry is placed, the table is the one wanted. */
  lemma PlacedIsLinkTable(words: seq<nat>, col: seq<byte>)
    requires PlacedUpTo(words, col, |col|)
    ensures IsLinkTable(words, col)
  {
    forall k | 0 <= k < |words|
      ensures Link(words, k) < |words|
    {
      var _ := LinkOfPlaced(words, col, k);
    }
    forall k, l | 0 <= k < l < |words|
      ensures StablyBefore(words, col, k, l)
    {
      var a := LinkOfPlaced(words, col, k);
      var b := LinkOfPlaced(words, col, l);
      if col[b] < col[a] || (col[b] == col[a] && b < a) {
        SlotOrder(col, b, a);
      }
    }
    var links := LinksOf(words);
    forall i, j | 0 <= i < j < |links|
      ensures links[i] != links[j]
    {
      assert StablyBefore(words, col, i, j);
    }
    forall x | 0 <= x < |links|
      ensures x in links
    {
      assert Placed(words, col, x);
      assert links[Slot(col, x)] == x;
    }
    DistinctIsPermutation(links);
  }

  lemma LinkTableFits(words: seq<nat>, col: seq<byte>)
    requires IsLinkTable(words, col) && |words| <= 0x100_0000
    ensures forall k | 0 <= k < |words| :: words[k] < 0x1_0000_0000
  {
    forall k | 0 <= k < |words|
      ensures words[k] < 0x1_0000_0000
    {
      assert Link(words, k) < |words|;
    }
  }

  /**
   * Builds the links in the high 24 bits of `tt`, whose words hold the transformed block's bytes.
   * `counts` is the block's histogram; the source passes it by value, so the caller's copy is untouched.
   */
  method InverseBwt(tt: array<nat>, origPtr: nat, counts: seq<nat>) returns (start: nat)
    requires tt.Length <= 0x100_0000 && origPtr < tt.Length
    requires forall k | 0 <= k < tt.Length :: tt[k] < 256
    requires IsHistogram(counts, tt[..])
    modifies tt
    ensures IsLinkTable(tt[..], old(tt[..]))
    ensures start == Link(tt[..], origPtr)
    ensures forall k | 0 <= k < tt.Length :: tt[k] < 0x1_0000_0000
  {
    ghost var col: seq<byte> := tt[..];
    var c := FirstSlots(counts, col);
    UnplacedAtFirst(col);
    for i := 0 to tt.Length
      invariant CursorsAfter(c[..], col, i)
      invariant PlacedUpTo(tt[..], col, i)
    {
      ghost var words, cursors := tt[..], c[..];
      CursorStep(cursors, col, i);
      PlaceStep(words, col, i);
      var b := tt[i] % 256;
      assert b == words[i] % 256 == col[i];
      var slot := c[b];
      assert slot == cursors[b] == Slot(col, i);
      tt[slot] := BitOr(tt[slot], ShiftLeft(i, 8));
      c[b] := slot + 1;
      assert tt[..] == words[slot := BitOr(words[slot], ShiftLeft(i, 8))];
      assert c[..] == cursors[b := slot + 1];
    }
    PlacedIsLinkTable(tt[..], col);
    LinkTableFits(tt[..], col);
    start := tt[origPtr] / 256;
  }
}

module BlockTransform {
  import opened ByteOrder
  import opened Common
  import opened LinkTable
  import opened Permutations

  // ---------------------------------------------------------------------
  // Lexicographic order on byte strings
  // ---------------------------------------------------------------------

  ghost predicate LexSorted(rows: seq<seq<byte>>) {
    forall i, j | 0 <= i < j < |rows| :: LexLeq(rows[i], rows[j])
  }

  lemma SameFirst(a: seq<seq<byte>>, b: seq<seq<byte>>)
    requires LexSorted(a) && LexSorted(b) && multiset(a) == multiset(b) && a != []
    ensures b != [] && a[0] == b[0]
  {
    assert a[0] in multiset(b) && |multiset(b)| == |b|;
    assert b[0] in multiset(a);
    var k :| 0 <= k < |b| && b[k] == a[0];
    var l :| 0 <= l < |a| && a[l] == b[0];
    if k > 0 && l > 0 {
      LexAntisymmetric(a[0], b[0]);
    }
  }

  /** A multiset of strings has only one sorted listing. */
  lemma {:induction false} SortedUnique(a: seq<seq<byte>>, b: seq<seq<byte>>)
    requires LexSorted(a) && LexSorted(b) && multiset(a) == multiset(b)
    ensures a == b
  {
    if a == [] {
      assert |multiset(b)| == 0;
    } else {
      SameFirst(a, b);
      SplitMultiset(a);
      SplitMultiset(b);
      MultisetCancel(multiset(a[1..]), multiset(b[1..]), a[0]);
      SortedUnique(a[1..], b[1..]);
    }
  }

  // ---------------------------------------------------------------------
  // The forward transform, as a specification
  // ---------------------------------------------------------------------

  ghost function Rotation(block: seq<byte>, r: nat): (row: seq<byte>)
    requires r <= |block|
    ensures |row| == |block|
  {
    block[r..] + block[..r]
  }

  ghost function Pred(r: nat, n: nat): nat
    requires r < n
  {
    if r == 0 then n - 1 else r - 1
  }

  ghost predicate StartsInRange(block: seq<byte>, order: seq<nat>) {
    forall i | 0 <= i < |order| :: order[i] < |block|
  }

  ghost predicate RowLeq(block: seq<byte>, order: seq<nat>, i: nat, j: nat)
    requires StartsInRange(block, order) && i < |order| && j < |order|
  {
    LexLeq(Rotation(block, order[i]), Rotation(block, order[j]))
  }

  ghost predicate RowsSorted(block: seq<byte>, order: seq<nat>)
    requires StartsInRange(block, order)
  {
    forall i, j | 0 <= i < j < |order| :: RowLeq(block, order, i, j)
  }

  /** `order` lists the starts of the block's rotations in sorted order; equal rotations may come in any order. */
  ghost predicate SortsRotations(block: seq<byte>, order: seq<nat>) {
    && |order| == |block|
    && IsPermutation(order, |block|)
    && StartsInRange(block, order)
    && RowsSorted(block, order)
  }

  /** The transformed block: the last byte of every sorted rotation. */
  ghost function LastColumn(block: seq<byte>, order: seq<nat>): (col: seq<byte>)
    requires StartsInRange(block, order)
    ensures |col| == |order|
  {
    seq(|order|, i requires 0 <= i < |order| => block[Pred(order[i], |block|)])
  }

  lemma InsertRotation(block: seq<byte>, order: seq<nat>, r: nat, at: nat)
    requires StartsInRange(block, order) && RowsSorted(block, order) && r < |block| && at <= |order|
    requires forall i | 0 <= i < at :: LexLeq(Rotation(block, order[i]), Rotation(block, r))
    requires at < |order| ==> LexLeq(Rotation(block, r), Rotation(block, order[at]))
    ensures var order' := order[..at] + [r] + order[at..];
            StartsInRange(block, order') && RowsSorted(block, order')
  {
    var order' := order[..at] + [r] + order[at..];
    var source := (i: int) => if i < at then i else i - 1;
    forall i, j | 0 <= i < j < |order'|
      ensures RowLeq(block, order', i, j)
    {
      if i == at {
        assert order'[j] == order[j - 1];
        if j - 1 > at {
          assert RowLeq(block, order, at, j - 1);
          LexTransitive(Rotation(block, r), Rotation(block, order[at]), Rotation(block, order[j - 1]));
        }
      } else if j != at {
        assert order'[i] == order[source(i)] && order'[j] == order[source(j)];
        assert RowLeq(block, order, source(i), source(j));
      }
    }
  }

  lemma FindPlace(block: seq<byte>, order: seq<nat>, r: nat) returns (at: nat)
    requires StartsInRange(block, order) && r < |block|
    ensures at <= |order|
    ensures forall i | 0 <= i < at :: LexLeq(Rotation(block, order[i]), Rotation(block, r))
    ensures at < |order| ==> LexLeq(Rotation(block, r), Rotation(block, order[at]))
  {
    at := 0;
    while at < |order| && LexLeq(Rotation(block, order[at]), Rotation(block, r))
      invariant 0 <= at <= |order|
      invariant forall i | 0 <= i < at :: LexLeq(Rotation(block, order[i]), Rotation(block, r))
    {
      at := at + 1;
    }
    if at < |order| {
      LexTotal(Rotation(block, order[at]), Rotation(block, r));
    }
  }

  /** Every block has a sorted rotation order. */
  lemma {:induction false} SortedRotationsExist(block: seq<byte>, k: nat) returns (order: seq<nat>)
    requires k <= |block|
    ensures |order| == k && IsPermutation(order, k)
    ensures StartsInRange(block, order) && RowsSorted(block, order)
  {
    if k == 0 {
      order := [];
    } else {
      var rest := SortedRotationsExist(block, k - 1);
      var at := FindPlace(block, rest, k - 1);
      InsertRotation(block, rest, k - 1, at);
      order := rest[..at] + [k - 1] + rest[at..];
      InsertKeepsPermutation(rest, at);
    }
  }

  // ---------------------------------------------------------------------
  // Walking the table recovers the block
  // ---------------------------------------------------------------------

  /** `m` steps of the block reader: emit the low byte of the word at `p`, then follow its link. */
  ghost function Walk(words: seq<nat>, p: nat, m: nat): (out: seq<byte>)
    requires LinksInRange(words) && p < |words|
    ensures |out| == m
    decreases m
  {
    if m == 0 then [] else [words[p] % 256] + Walk(words, Link(words, p), m - 1)
  }

  lemma RotationBack(block: seq<byte>, r: nat)
    requires r < |block|
    ensures Rotation(block, Pred(r, |block|))
         == [block[Pred(r, |block|)]] + Rotation(block, r)[..|block| - 1]
    ensures Rotation(block, r)[|block| - 1] == block[Pred(r, |block|)]
  {
  }

  ghost function Rows(block: seq<byte>, starts: seq<nat>): (rows: seq<seq<byte>>)
    requires StartsInRange(block, starts)
    ensures |rows| == |starts|
  {
    seq(|starts|, i requires 0 <= i < |starts| => Rotation(block, starts[i]))
  }

  /** `words` is the link table of the transform of `block` by `order`. */
  ghost predicate Transformed(block: seq<byte>, order: seq<nat>, words: seq<nat>) {
    SortsRotations(block, order) && IsLinkTable(words, LastColumn(block, order))
  }

  /** The starts of the rows that the links lead to, each moved back by one byte. */
  ghost function LinkedStarts(block: seq<byte>, order: seq<nat>, words: seq<nat>): (starts: seq<nat>)
    requires Transformed(block, order, words)
    ensures |starts| == |block| && StartsInRange(block, starts)
  {
    seq(|block|, k requires 0 <= k < |block| => Pred(order[Link(words, k)], |block|))
  }

  lemma {:induction false} PredPermutes(n: nat)
    requires n > 0
    ensures IsPermutation(MapSeq((r: nat) => if r < n then Pred(r, n) else 0, Iota(n)), n)
  {
    var back := (r: nat) => if r < n then Pred(r, n) else 0;
    assert MapSeq(back, Iota(n)) == [n - 1] + Iota(n - 1);
    assert Iota(n) == Iota(n - 1) + [n - 1];
  }

  lemma LinkedStartsPermute(block: seq<byte>, order: seq<nat>, words: seq<nat>)
    requires Transformed(block, order, words) && block != []
    ensures IsPermutation(LinkedStarts(block, order, words), |block|)
  {
    var n := |block|;
    var back := (r: nat) => if r < n then Pred(r, n) else 0;
    var at := (i: nat) => if i < n then back(order[i]) else 0;
    assert LinkedStarts(block, order, words) == MapSeq(at, LinksOf(words));
    MapPreservesMultiset(at, LinksOf(words), Iota(n));
    assert MapSeq(at, Iota(n)) == MapSeq(back, order);
    MapPreservesMultiset(back, order, Iota(n));
    PredPermutes(n);
  }

  lemma LinkedRowLeq(block: seq<byte>, order: seq<nat>, words: seq<nat>, k: nat, l: nat)
    requires Transformed(block, order, words) && k < l < |block|
    ensures var starts := LinkedStarts(block, order, words);
            LexLeq(Rotation(block, starts[k]), Rotation(block, starts[l]))
  {
    var n := |block|;
    var col := LastColumn(block, order);
    assert StablyBefore(words, col, k, l);
    var i, j := Link(words, k), Link(words, l);
    RotationBack(block, order[i]);
    RotationBack(block, order[j]);
    if col[i] == col[j] {
      assert RowLeq(block, order, i, j);
      var x, y := Rotation(block, order[i]), Rotation(block, order[j]);
      LexTake(x, y, n - 1);
      assert ([col[i]] + x[..n - 1])[1..] == x[..n - 1];
      assert ([col[j]] + y[..n - 1])[1..] == y[..n - 1];
    }
  }

  lemma SameStartsSameRows(block: seq<byte>, a: seq<nat>, b: seq<nat>)
    requires StartsInRange(block, a) && StartsInRange(block, b) && multiset(a) == multiset(b)
    ensures multiset(Rows(block, a)) == multiset(Rows(block, b))
  {
    var row := (r: nat) => if r < |block| then Rotation(block, r) else [];
    MapPreservesMultiset(row, a, b);
    assert Rows(block, a) == MapSeq(row, a) && Rows(block, b) == MapSeq(row, b);
  }

  lemma RowsAreSorted(block: seq<byte>, order: seq<nat>)
    requires SortsRotations(block, order)
    ensures LexSorted(Rows(block, order))
  {
    forall i, j | 0 <= i < j < |order|
      ensures LexLeq(Rows(block, order)[i], Rows(block, order)[j])
    {
      assert RowLeq(block, order, i, j);
    }
  }

  /** Rotating every row of the sorted matrix right by one and sorting again gives the matrix back. */
  lemma LinkedRowIsPredecessor(block: seq<byte>, order: seq<nat>, words: seq<nat>, k: nat)
    requires Transformed(block, order, words) && k < |block|
    ensures Rotation(block, Pred(order[Link(words, k)], |block|)) == Rotation(block, order[k])
  {
    var starts := LinkedStarts(block, order, words);
    LinkedStartsPermute(block, order, words);
    SameStartsSameRows(block, starts, order);
    RowsAreSorted(block, order);
    forall i, j | 0 <= i < j < |starts|
      ensures LexLeq(Rows(block, starts)[i], Rows(block, starts)[j])
    {
      LinkedRowLeq(block, order, words, i, j);
    }
    SortedUnique(Rows(block, starts), Rows(block, order));
    assert Rows(block, starts)[k] == Rows(block, order)[k];
  }

  lemma RotationForward(block: seq<byte>, r: nat)
    requires r < |block|
    ensures Rotation(block, r + 1) == Rotation(block, r)[1..] + [Rotation(block, r)[0]]
    ensures Rotation(block, r + 1)[|block| - 1] == block[r]
  {
  }

  /** Following a link rotates the row left by one; the byte emitted on the way is the row's last. */
  lemma LinkRotatesLeft(block: seq<byte>, order: seq<nat>, words: seq<nat>, k: nat, r: nat)
    requires Transformed(block, order, words) && k < |block| && r < |block|
    requires Rotation(block, order[k]) == Rotation(block, r)
    ensures var j := Link(words, k);
            Rotation(block, order[j]) == Rotation(block, r + 1) && words[j] % 256 == block[r]
  {
    var j := Link(words, k);
    LinkedRowIsPredecessor(block, order, words, k);
    RotationBack(block, order[j]);
    RotationForward(block, r);
    var row := Rotation(block, order[j]);
    assert row == row[..|block| - 1] + [row[|block| - 1]];
  }

  lemma {:induction false} WalkFrom(block: seq<byte>, order: seq<nat>, words: seq<nat>, p: nat, i: nat)
    requires Transformed(block, order, words) && p < |block| && i <= |block|
    requires Rotation(block, order[p]) == Rotation(block, i)
    ensures Walk(words, Link(words, p), |block| - i) == block[i..]
    decreases |block| - i
  {
    if i < |block| {
      LinkRotatesLeft(block, order, words, p, i);
      WalkFrom(block, order, words, Link(words, p), i + 1);
      assert block[i..] == [block[i]] + block[i + 1..];
    }
  }

  /**
   * The inverse transform is correct: for every block, every sorted order of its rotations and every row that
   * spells the block itself, walking the table from the linked start emits exactly the block.
   */
  lemma WalkRecoversBlock(block: seq<byte>, order: seq<nat>, words: seq<nat>, origPtr: nat)
    requires Transformed(block, order, words) && origPtr < |block|
    requires Rotation(block, order[origPtr]) == block
    ensures Walk(words, Link(words, origPtr), |block|) == block
  {
    assert Rotation(block, 0) == block;
    WalkFrom(block, order, words, origPtr, 0);
    assert block[0..] == block;
  }
}
