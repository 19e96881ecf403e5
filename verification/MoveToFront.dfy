/** The move-to-front table of the bzip2 decoder. */
module MoveToFront {
  import opened Common
  import opened Permutations

  /** The table after the symbol at `n` has been moved to the front. */
  function Moved(table: seq<byte>, n: nat): (moved: seq<byte>)
    requires n < |table|
    ensures |moved| == |table|
  {
    [table[n]] + table[..n] + table[n + 1..]
  }

  lemma MovedKeepsSymbols(table: seq<byte>, n: nat)
    requires n < |table|
    ensures multiset(Moved(table, n)) == multiset(table)
  {
    assert table == table[..n] + [table[n]] + table[n + 1..];
  }

  /** Every byte occurs in the table exactly once. */
  ghost predicate IsTable(table: seq<byte>) {
    IsPermutation(table, 256)
  }

  class MoveToFrontDecoder {
    const symbols: array<byte>

    predicate Valid() {
      symbols.Length == 256
    }

    /** The table of all bytes in order. */
    constructor ()
      ensures Valid() && fresh(symbols) && symbols[..] == Iota(256) && IsTable(symbols[..])
    {
      symbols := new byte[256](i requires 0 <= i < 256 => i);
      new;
      assert symbols[..] == Iota(256);
    }

    constructor FromSymbols(table: seq<byte>)
      requires |table| == 256
      ensures Valid() && fresh(symbols) && symbols[..] == table
    {
      symbols := new byte[256](i requires 0 <= i < 256 => table[i]);
      new;
      assert symbols[..] == table;
    }

    /** Returns the symbol at `n` and moves it to the front. The table keeps its symbols. */
    method Decode(n: byte) returns (b: byte)
      requires Valid()
      modifies symbols
      ensures b == old(symbols[n]) && symbols[..] == Moved(old(symbols[..]), n)
      ensures IsTable(old(symbols[..])) ==> IsTable(symbols[..])
    {
      MovedKeepsSymbols(symbols[..], n);
      b := symbols[n];
      CopyWithin(symbols, n);
      symbols[0] := b;
      ShiftedIsMoved(old(symbols[..]), symbols[..], n);
    }

    function First(): (b: byte)
      requires Valid()
      reads symbols
    {
      symbols[0]
    }
  }

  lemma ShiftedIsMoved(before: seq<byte>, after: seq<byte>, n: nat)
    requires n < |before| == |after| && after[0] == before[n]
    requires after[1..n + 1] == before[..n] && after[n + 1..] == before[n + 1..]
    ensures after == Moved(before, n)
  {
    assert after == [after[0]] + after[1..n + 1] + after[n + 1..];
  }

  /** Moves the first `n` elements one place back, over element `n`. */
  method CopyWithin(a: array<byte>, n: nat)
    requires n < a.Length
    modifies a
    ensures a[0] == old(a[0]) && a[1..n + 1] == old(a[..n]) && a[n + 1..] == old(a[n + 1..])
  {
    var k := n;
    while k > 0
      invariant 0 <= k <= n
      invariant a[..k + 1] == old(a[..k + 1]) && a[k + 1..n + 1] == old(a[k..n]) && a[n + 1..] == old(a[n + 1..])
    {
      a[k] := a[k - 1];
      k := k - 1;
    }
  }

  // ---------------------------------------------------------------------
  // Encoding
  // ---------------------------------------------------------------------

  /** Where a symbol stands first in the table. */
  function Find(table: seq<byte>, b: byte): (n: nat)
    requires b in table
    ensures n < |table| && table[n] == b
  {
    if table[0] == b then 0 else Find(table[1..], b) + 1
  }

  /** Every byte of a text is in the table. */
  predicate Covers(table: seq<byte>, bytes: seq<byte>) {
    forall b | b in bytes :: b in table
  }

  lemma MovedCovers(table: seq<byte>, n: nat, bytes: seq<byte>)
    requires n < |table| && Covers(table, bytes)
    ensures Covers(Moved(table, n), bytes)
  {
    MovedKeepsSymbols(table, n);
    forall b | b in table
      ensures b in Moved(table, n)
    {
      assert b in multiset(Moved(table, n));
    }
  }

  /** The table of all bytes covers everything. */
  lemma TableCovers(table: seq<byte>, bytes: seq<byte>)
    requires IsTable(table)
    ensures |table| == 256 && Covers(table, bytes)
  {
    assert |multiset(table)| == |multiset(Iota(256))|;
    forall b | b in bytes
      ensures b in table
    {
      assert Iota(256)[b] == b;
      assert b in multiset(Iota(256));
    }
  }

  /** The positions that a move-to-front encoder writes for `bytes`. */
  ghost function EncodeFrom(table: seq<byte>, bytes: seq<byte>): (positions: seq<nat>)
    requires Covers(table, bytes)
    ensures |positions| == |bytes| && forall i | 0 <= i < |positions| :: positions[i] < |table|
    decreases |bytes|
  {
    if bytes == [] then []
    else
      var n := Find(table, bytes[0]);
      MovedCovers(table, n, bytes);
      [n] + EncodeFrom(Moved(table, n), bytes[1..])
  }

  /** The bytes that decoding a list of positions gives. */
  ghost function DecodeFrom(table: seq<byte>, positions: seq<nat>): (bytes: seq<byte>)
    requires forall i | 0 <= i < |positions| :: positions[i] < |table|
    ensures |bytes| == |positions|
    decreases |positions|
  {
    if positions == [] then [] else [table[positions[0]]] + DecodeFrom(Moved(table, positions[0]), positions[1..])
  }

  /** What the positions from number `i` on decode to. */
  ghost function DecodeRest(table: seq<byte>, positions: seq<byte>, i: nat): seq<byte>
    requires |table| == 256 && i <= |positions|
  {
    DecodeFrom(table, positions[i..])
  }

  lemma DecodeOne(table: seq<byte>, positions: seq<byte>, i: nat, before: seq<byte>)
    requires |table| == 256 && i < |positions|
    ensures var b := table[positions[i]];
            before + DecodeRest(table, positions, i)
            == (before + [b]) + DecodeRest(Moved(table, positions[i]), positions, i + 1)
  {
    hide Moved;
    assert positions[i..][0] == positions[i] && positions[i..][1..] == positions[i + 1..];
    var rest := DecodeFrom(Moved(table, positions[i]), positions[i + 1..]);
    assert before + ([table[positions[i]]] + rest) == (before + [table[positions[i]]]) + rest;
  }

  lemma DecodeEnds(table: seq<byte>, positions: seq<byte>)
    requires |table| == 256
    ensures DecodeRest(table, positions, 0) == DecodeFrom(table, positions)
    ensures DecodeRest(table, positions, |positions|) == []
  {
    assert positions[0..] == positions;
  }

  method DecodeAll(decoder: MoveToFrontDecoder, positions: seq<byte>) returns (bytes: seq<byte>)
    requires decoder.Valid()
    modifies decoder.symbols
    ensures bytes == DecodeFrom(old(decoder.symbols[..]), positions)
    ensures IsTable(old(decoder.symbols[..])) ==> IsTable(decoder.symbols[..])
  {
    hide IsTable, Moved, DecodeRest;
    bytes := [];
    ghost var start := decoder.symbols[..];
    DecodeEnds(start, positions);
    for i := 0 to |positions|
      invariant IsTable(start) ==> IsTable(decoder.symbols[..])
      invariant DecodeRest(start, positions, 0) == bytes + DecodeRest(decoder.symbols[..], positions, i)
    {
      DecodeOne(decoder.symbols[..], positions, i, bytes);
      var b := decoder.Decode(positions[i]);
      bytes := bytes + [b];
    }
    DecodeEnds(decoder.symbols[..], positions);
  }

  /** Decoding undoes encoding, from any state of any table that covers the text. */
  lemma {:induction false} DecodeUndoesEncode(table: seq<byte>, bytes: seq<byte>)
    requires Covers(table, bytes)
    ensures DecodeFrom(table, EncodeFrom(table, bytes)) == bytes
    decreases |bytes|
  {
    if bytes != [] {
      var n := Find(table, bytes[0]);
      MovedCovers(table, n, bytes);
      DecodeUndoesEncode(Moved(table, n), bytes[1..]);
      assert EncodeFrom(table, bytes)[1..] == EncodeFrom(Moved(table, n), bytes[1..]);
    }
  }

  /**
   * Encoding undoes decoding: with all bytes in the table, every list of positions is the encoding of what it decodes
   * to.
   */
  lemma {:induction false} EncodeUndoesDecode(table: seq<byte>, positions: seq<nat>)
    requires IsTable(table) && forall i | 0 <= i < |positions| :: positions[i] < |table|
    ensures Covers(table, DecodeFrom(table, positions)) && EncodeFrom(table, DecodeFrom(table, positions)) == positions
    decreases |positions|
  {
    TableCovers(table, DecodeFrom(table, positions));
    if positions != [] {
      var n := positions[0];
      MovedKeepsSymbols(table, n);
      EncodeUndoesDecode(Moved(table, n), positions[1..]);
      var bytes := DecodeFrom(table, positions);
      assert bytes[1..] == DecodeFrom(Moved(table, n), positions[1..]);
      FindUnique(table, n);
    }
  }

  lemma FindUnique(table: seq<byte>, n: nat)
    requires IsTable(table) && n < |table|
    ensures Find(table, table[n]) == n
  {
    var k := Find(table, table[n]);
    if k < n {
      PermutationDistinct(table, 256, k, n);
    } else if n < k {
      PermutationDistinct(table, 256, n, k);
    }
  }
}
