/** Turning the decoded symbols of a bzip2 block into bytes: runs of the front symbol, and positions in the table. */
module SymbolStage {
  import opened Common
  import opened LinkTable
  import opened MoveToFront

  const MAX_REPEAT: nat := 2_097_152

  datatype SymbolError = Truncated | RepeatTooLarge | RepeatsPastEnd | DataExceedsBlock

  // ---------------------------------------------------------------------
  // Runs as numbers
  // ---------------------------------------------------------------------

  /** The digits of a run length, lowest first: digit 0 counts one and digit 1 counts two of its power of two. */
  function RunDigits(n: nat): seq<nat> {
    if n == 0 then [] else [(n - 1) % 2] + RunDigits((n - 1) / 2)
  }

  /** The value of run digits. */
  function RunValue(digits: seq<nat>): nat {
    if digits == [] then 0 else digits[0] + 1 + 2 * RunValue(digits[1..])
  }

  lemma {:induction false} RunRoundTrip(n: nat)
    ensures RunValue(RunDigits(n)) == n && forall i | 0 <= i < |RunDigits(n)| :: RunDigits(n)[i] < 2
  {
    if n > 0 {
      RunRoundTrip((n - 1) / 2);
      assert RunDigits(n)[1..] == RunDigits((n - 1) / 2);
    }
  }

  // ---------------------------------------------------------------------
  // Symbols and positions
  // ---------------------------------------------------------------------

  /**
   * The positions that symbols stand for, up to the symbol `end`. Symbols 0 and 1 are digits of a run of the front
   * symbol, of which `repeat` is what the digits so far come to and `power` the power of two of the next one.
   */
  function Positions(symbols: seq<nat>, end: nat, repeat: nat, power: nat): Option<seq<nat>> {
    if symbols == [] then None
    else
      var v := symbols[0];
      if v < 2 then
        var p := if repeat == 0 then 1 else power;
        Positions(symbols[1..], end, repeat + p * (v + 1), 2 * p)
      else if v == end then Some(Zeros(repeat))
      else
        match Positions(symbols[1..], end, 0, power)
        case None => None
        case Some(rest) => Some(Zeros(repeat) + [v - 1] + rest)
  }

  /** The length of the run of zeros at the front. */
  function Leading(positions: seq<nat>): (n: nat)
    ensures n <= |positions| && positions[..n] == Zeros(n)
    ensures n < |positions| ==> positions[n] != 0
  {
    if positions == [] || positions[0] != 0 then 0
    else
      var n := Leading(positions[1..]);
      assert positions[..n + 1] == [0] + positions[1..][..n];
      n + 1
  }

  /** The symbols that an encoder writes for positions. */
  function Symbols(positions: seq<nat>, end: nat): seq<nat>
    decreases |positions|
  {
    var n := Leading(positions);
    RunDigits(n) + if n == |positions| then [end] else [positions[n] + 1] + Symbols(positions[n + 1..], end)
  }

  lemma RunSum(repeat: nat, power: nat, v: nat, tail: nat)
    ensures repeat + power * (v + 1) + 2 * power * tail == repeat + power * (v + 1 + 2 * tail)
  {
  }

  /** Reading the digits of a run adds its length. `p` is the power of two behind them. */
  lemma {:induction false} RunRead(digits: seq<nat>, rest: seq<nat>, end: nat, repeat: nat, power: nat) returns (p: nat)
    requires forall i | 0 <= i < |digits| :: digits[i] < 2
    requires power > 0 && (repeat == 0 ==> power == 1)
    ensures Positions(digits + rest, end, repeat, power) == Positions(rest, end, repeat + power * RunValue(digits), p)
  {
    if digits == [] {
      assert digits + rest == rest;
      p := power;
    } else {
      var v := digits[0];
      assert (digits + rest)[1..] == digits[1..] + rest;
      p := RunRead(digits[1..], rest, end, repeat + power * (v + 1), 2 * power);
      RunSum(repeat, power, v, RunValue(digits[1..]));
    }
  }

  /** What runs are read does not depend on a power that no digit has set. */
  lemma {:induction false} PowerUnset(symbols: seq<nat>, end: nat, p: nat, q: nat)
    ensures Positions(symbols, end, 0, p) == Positions(symbols, end, 0, q)
  {
    if symbols != [] && symbols[0] >= 2 && symbols[0] != end {
      PowerUnset(symbols[1..], end, p, q);
    }
  }

  lemma PositionRead(position: nat, rest: seq<nat>, end: nat, repeat: nat, power: nat)
    requires 0 < position && position + 1 < end
    ensures Positions([position + 1] + rest, end, repeat, power) ==
            match Positions(rest, end, 0, power)
            case None => None
            case Some(more) => Some(Zeros(repeat) + [position] + more)
  {
    assert ([position + 1] + rest)[1..] == rest;
  }

  /** Reading symbols undoes writing them. */
  lemma {:induction false} PositionsOfSymbols(positions: seq<nat>, end: nat)
    requires end >= 2 && forall i | 0 <= i < |positions| :: positions[i] + 1 < end
    ensures Positions(Symbols(positions, end), end, 0, 1) == Some(positions)
    decreases |positions|
  {
    hide Positions, RunDigits, RunValue, Leading;
    var n := Leading(positions);
    RunRoundTrip(n);
    if n == |positions| {
      var p := RunRead(RunDigits(n), [end], end, 0, 1);
      EndRead(end, n, p);
      assert positions[..n] == positions;
    } else {
      var rest := Symbols(positions[n + 1..], end);
      var p := RunRead(RunDigits(n), [positions[n] + 1] + rest, end, 0, 1);
      PositionRead(positions[n], rest, end, n, p);
      PowerUnset(rest, end, p, 1);
      PositionsOfSymbols(positions[n + 1..], end);
      assert positions == positions[..n] + [positions[n]] + positions[n + 1..];
    }
  }

  lemma EndRead(end: nat, repeat: nat, power: nat)
    requires end >= 2
    ensures Positions([end], end, repeat, power) == Some(Zeros(repeat))
  {
  }

  // ---------------------------------------------------------------------
  // Decoding a block's symbols
  // ---------------------------------------------------------------------

  predicate InAlphabet(symbols: seq<nat>, end: nat) {
    forall i | 0 <= i < |symbols| :: symbols[i] <= end
  }

  lemma {:induction false} PositionsInRange(symbols: seq<nat>, end: nat, repeat: nat, power: nat)
    requires InAlphabet(symbols, end) && 2 <= end <= 257
    ensures var ps := Positions(symbols, end, repeat, power);
            ps.Some? ==> |ps.value| >= repeat && forall i | 0 <= i < |ps.value| :: ps.value[i] < 256
  {
    if symbols != [] {
      var v := symbols[0];
      if v < 2 {
        var p := if repeat == 0 then 1 else power;
        PositionsInRange(symbols[1..], end, repeat + p * (v + 1), 2 * p);
      } else if v != end {
        PositionsInRange(symbols[1..], end, 0, power);
      }
    }
  }

  lemma {:induction false} DecodeAppend(table: seq<byte>, a: seq<nat>, b: seq<nat>)
    requires forall i | 0 <= i < |a| :: a[i] < |table|
    requires forall i | 0 <= i < |b| :: b[i] < |table|
    ensures |TableAfter(table, a)| == |table|
    ensures DecodeFrom(table, a + b) == DecodeFrom(table, a) + DecodeFrom(TableAfter(table, a), b)
    decreases |a|
  {
    if a == [] {
      assert a + b == b;
    } else {
      assert (a + b)[1..] == a[1..] + b;
      DecodeAppend(Moved(table, a[0]), a[1..], b);
    }
  }

  /** The table after a list of positions. */
  ghost function TableAfter(table: seq<byte>, positions: seq<nat>): (after: seq<byte>)
    requires forall i | 0 <= i < |positions| :: positions[i] < |table|
    ensures |after| == |table|
    decreases |positions|
  {
    if positions == [] then table else TableAfter(Moved(table, positions[0]), positions[1..])
  }

  /** A run of zeros repeats the front symbol and leaves the table alone. */
  lemma {:induction false} DecodeRun(table: seq<byte>, n: nat)
    requires table != []
    ensures DecodeFrom(table, Zeros(n)) == Repeat(table[0], n) && TableAfter(table, Zeros(n)) == table
  {
    if n > 0 {
      assert Zeros(n)[1..] == Zeros(n - 1);
      assert Moved(table, 0) == table;
      DecodeRun(table, n - 1);
    }
  }

  /** A run and then a position, in front of more positions. */
  lemma DecodeStep(table: seq<byte>, n: nat, position: nat, more: seq<nat>)
    requires position < |table| && forall i | 0 <= i < |more| :: more[i] < |table|
    ensures DecodeFrom(table, Zeros(n) + [position] + more)
         == Repeat(table[0], n) + [table[position]] + DecodeFrom(Moved(table, position), more)
  {
    assert Zeros(n) + [position] + more == Zeros(n) + ([position] + more);
    DecodeAppend(table, Zeros(n), [position] + more);
    DecodeRun(table, n);
    assert ([position] + more)[1..] == more;
  }

  lemma {:induction false} CountMore(a: seq<byte>, x: byte, n: nat, b: byte)
    ensures Count(a + Repeat(x, n), b) == Count(a, b) + if b == x then n else 0
  {
    if n == 0 {
      assert a + Repeat(x, 0) == a;
    } else {
      CountMore(a, x, n - 1, b);
      assert a + Repeat(x, n) == a + Repeat(x, n - 1) + [x];
      assert (a + Repeat(x, n - 1) + [x])[..|a| + n - 1] == a + Repeat(x, n - 1);
    }
  }

  lemma HistogramMore(counts: seq<nat>, col: seq<byte>, x: byte, n: nat)
    requires IsHistogram(counts, col)
    ensures IsHistogram(counts[x := counts[x] + n], col + Repeat(x, n))
  {
    forall b: byte
      ensures Count(col + Repeat(x, n), b) == Count(col, b) + if b == x then n else 0
    {
      CountMore(col, x, n, b);
    }
  }

  predicate PositionsFit(positions: seq<nat>, table: seq<byte>) {
    forall i | 0 <= i < |positions| :: positions[i] < |table|
  }

  /** `tt` holds what has been decoded, and `rest` decodes with the present table to what is missing. */
  ghost predicate Upto(whole: Option<seq<byte>>, tt: seq<byte>, table: seq<byte>, rest: Option<seq<nat>>) {
    if whole.None? then rest.None?
    else rest.Some? && PositionsFit(rest.value, table) && whole.value == tt + DecodeFrom(table, rest.value)
  }

  /** What a block's symbols decode to. */
  ghost function Decoded(symbols: seq<nat>, end: nat, table: seq<byte>): (r: Option<seq<byte>>)
    requires InAlphabet(symbols, end) && 2 <= end <= 257 && |table| == 256
  {
    PositionsInRange(symbols, end, 0, 1);
    var positions := Positions(symbols, end, 0, 1);
    if positions.None? then None else Some(DecodeFrom(table, positions.value))
  }

  lemma UptoStart(symbols: seq<nat>, end: nat, table: seq<byte>)
    requires InAlphabet(symbols, end) && 2 <= end <= 257 && |table| == 256
    ensures Upto(Decoded(symbols, end, table), [], table, Positions(symbols, end, 0, 1))
  {
    PositionsInRange(symbols, end, 0, 1);
    var positions := Positions(symbols, end, 0, 1);
    assert positions.Some? ==> [] + DecodeFrom(table, positions.value) == DecodeFrom(table, positions.value);
  }

  /** A position behind a run: the run is written out, then the symbol at the position, which moves to the front. */
  lemma UptoPosition(
    whole: Option<seq<byte>>, tt: seq<byte>, table: seq<byte>, symbols: seq<nat>, end: nat, repeat: nat, power: nat)
    requires symbols != [] && 2 <= symbols[0] < end <= 257 && InAlphabet(symbols, end) && |table| == 256
    requires Upto(whole, tt, table, Positions(symbols, end, repeat, power))
    ensures var n := symbols[0] - 1;
            Upto(whole, tt + Repeat(table[0], repeat) + [table[n]], Moved(table, n),
              Positions(symbols[1..], end, 0, power))
  {
    var n := symbols[0] - 1;
    var rest := Positions(symbols[1..], end, 0, power);
    PositionsInRange(symbols[1..], end, 0, power);
    if rest.Some? {
      DecodeStep(table, repeat, n, rest.value);
      var tail := DecodeFrom(Moved(table, n), rest.value);
      assert tt + (Repeat(table[0], repeat) + [table[n]] + tail) == tt + Repeat(table[0], repeat) + [table[n]] + tail;
    }
  }

  lemma UptoEnd(
    whole: Option<seq<byte>>, tt: seq<byte>, table: seq<byte>, symbols: seq<nat>, end: nat, repeat: nat, power: nat)
    requires symbols != [] && symbols[0] == end >= 2 && |table| == 256
    requires Upto(whole, tt, table, Positions(symbols, end, repeat, power))
    ensures whole == Some(tt + Repeat(table[0], repeat))
  {
    DecodeRun(table, repeat);
  }

  /** A block is at least as long as what has been decoded and the run that is pending. */
  lemma UptoLength(
    whole: Option<seq<byte>>, tt: seq<byte>, table: seq<byte>, symbols: seq<nat>, end: nat, repeat: nat, power: nat)
    requires InAlphabet(symbols, end) && 2 <= end <= 257 && |table| == 256
    requires Upto(whole, tt, table, Positions(symbols, end, repeat, power))
    ensures whole.Some? ==> |whole.value| >= |tt| + repeat
    ensures symbols != [] && 2 <= symbols[0] < end && whole.Some? ==> |whole.value| > |tt| + repeat
  {
    PositionsInRange(symbols, end, repeat, power);
  }

  /**
   * Decodes the symbols of a block, up to the end symbol. It succeeds exactly when there is an end symbol and the
   * block is within its size, and also counts the bytes for the inverse transform.
   */
  method DecodeSymbols(symbols: seq<nat>, decoder: MoveToFrontDecoder, end: nat, maxBlock: nat)
    returns (r: Result<(seq<byte>, seq<nat>), SymbolError>)
    requires InAlphabet(symbols, end) && 2 <= end <= 257 && maxBlock <= MAX_REPEAT && decoder.Valid()
    modifies decoder.symbols
    ensures var whole := Decoded(symbols, end, old(decoder.symbols[..]));
            && (r.Ok? <==> whole.Some? && |whole.value| <= maxBlock)
            && (r.Ok? ==> r.value.0 == whole.value && IsHistogram(r.value.1, r.value.0))
  {
    hide Positions, Upto, IsHistogram, Moved, InAlphabet;
    ghost var whole := Decoded(symbols, end, decoder.symbols[..]);
    var tt: seq<byte>, counts: seq<nat> := [], seq(256, _ => 0);
    var repeat: nat, power: nat := 0, 0;
    NothingCounted(counts);
    UptoStart(symbols, end, decoder.symbols[..]);
    PowerUnset(symbols, end, 1, 0);
    assert symbols[0..] == symbols;
    for i := 0 to |symbols|
      invariant Upto(whole, tt, decoder.symbols[..], Positions(symbols[i..], end, repeat, power))
      invariant IsHistogram(counts, tt) && |counts| == 256 && |tt| <= maxBlock
    {
      ghost var rest := symbols[i..];
      AlphabetRest(symbols, end, i);
      UptoLength(whole, tt, decoder.symbols[..], rest, end, repeat, power);
      var v := symbols[i];
      assert rest[0] == v && rest[1..] == symbols[i + 1..];
      if v < 2 {
        RunDigit(rest, end, repeat, power);
        if repeat == 0 {
          power := 1;
        }
        repeat := repeat + power * (v + 1);
        power := 2 * power;
        if repeat > MAX_REPEAT {
          UptoLength(whole, tt, decoder.symbols[..], rest[1..], end, repeat, power);
          return Err(RepeatTooLarge);
        }
        continue;
      }
      ghost var before, table := tt, decoder.symbols[..];
      if repeat > 0 {
        if repeat > maxBlock - |tt| {
          return Err(RepeatsPastEnd);
        }
        var b := decoder.First();
        HistogramMore(counts, tt, b, repeat);
        counts := counts[b := counts[b] + repeat];
        tt := tt + Repeat(b, repeat);
      } else {
        assert tt + Repeat(table[0], 0) == tt;
      }
      ghost var run := repeat;
      repeat := 0;
      if v == end {
        UptoEnd(whole, before, table, rest, end, run, power);
        return Ok((tt, counts));
      }
      UptoPosition(whole, before, table, rest, end, run, power);
      var b := decoder.Decode(v - 1);
      if |tt| >= maxBlock {
        return Err(DataExceedsBlock);
      }
      HistogramMore(counts, tt, b, 1);
      assert Repeat(b, 1) == [b];
      counts := counts[b := counts[b] + 1];
      tt := tt + [b];
    }
    NoEnd(end, repeat, power);
    assert symbols[|symbols|..] == [];
    UptoMissing(whole, tt, decoder.symbols[..], Positions([], end, repeat, power));
    r := Err(Truncated);
  }

  lemma NothingCounted(counts: seq<nat>)
    requires |counts| == 256 && forall b | 0 <= b < 256 :: counts[b] == 0
    ensures IsHistogram(counts, [])
  {
  }

  lemma AlphabetRest(symbols: seq<nat>, end: nat, i: nat)
    requires InAlphabet(symbols, end) && i < |symbols|
    ensures InAlphabet(symbols[i..], end) && InAlphabet(symbols[i..][1..], end) && symbols[i] <= end
  {
  }

  lemma RunDigit(symbols: seq<nat>, end: nat, repeat: nat, power: nat)
    requires symbols != [] && symbols[0] < 2
    ensures var p := if repeat == 0 then 1 else power;
            Positions(symbols, end, repeat, power) == Positions(symbols[1..], end, repeat + p * (symbols[0] + 1), 2 * p)
  {
  }

  lemma NoEnd(end: nat, repeat: nat, power: nat)
    ensures Positions([], end, repeat, power).None?
  {
  }

  lemma UptoMissing(whole: Option<seq<byte>>, tt: seq<byte>, table: seq<byte>, rest: Option<seq<nat>>)
    requires Upto(whole, tt, table, rest) && rest.None?
    ensures whole.None?
  {
  }

  /**
   * Decoding undoes what an encoder does to a block: moving to the front, writing runs as digits and other positions as
   * symbols, and ending with the end symbol. The table holds the bytes in use first.
   */
  lemma SymbolRoundTrip(data: seq<byte>, used: seq<byte>, table: seq<byte>)
    requires 0 < |used| <= 256 && |table| == 256 && used <= table && Covers(used, data)
    ensures Covers(table, data)
    ensures var symbols := Symbols(EncodeFrom(table, data), |used| + 1);
            InAlphabet(symbols, |used| + 1) && Decoded(symbols, |used| + 1, table) == Some(data)
  {
    hide EncodeFrom, DecodeFrom, Positions, Symbols, Covers, InAlphabet;
    PrefixCovers(used, table, data);
    PositionsBelow(table, data, |used|);
    var positions := EncodeFrom(table, data);
    PositionsOfSymbols(positions, |used| + 1);
    SymbolsInAlphabet(positions, |used| + 1);
    DecodeUndoesEncode(table, data);
  }

  lemma PrefixCovers(used: seq<byte>, table: seq<byte>, data: seq<byte>)
    requires used <= table && Covers(used, data)
    ensures Covers(table, data) && Covers(table[..|used|], data)
  {
    assert table[..|used|] == used;
  }

  lemma {:induction false} FindBelow(table: seq<byte>, b: byte, k: nat)
    requires k <= |table| && b in table[..k]
    ensures b in table && Find(table, b) < k
  {
    if table[0] != b {
      assert table[1..][..k - 1] == table[..k][1..];
      assert table[..k] == [table[0]] + table[..k][1..];
      FindBelow(table[1..], b, k - 1);
    }
  }

  /** Moving one of the first `k` symbols to the front keeps them the first `k`. */
  lemma MovedBelow(table: seq<byte>, n: nat, k: nat, data: seq<byte>)
    requires n < k <= |table| && Covers(table[..k], data)
    ensures Covers(Moved(table, n)[..k], data)
  {
    var moved := Moved(table, n)[..k];
    assert moved == Moved(table[..k], n);
    MovedCovers(table[..k], n, data);
  }

  /** Only the symbols in use get positions. */
  lemma {:induction false} PositionsBelow(table: seq<byte>, data: seq<byte>, k: nat)
    requires k <= |table| && Covers(table[..k], data) && Covers(table, data)
    ensures forall i | 0 <= i < |data| :: EncodeFrom(table, data)[i] < k
    decreases |data|
  {
    if data != [] {
      FindBelow(table, data[0], k);
      var n := Find(table, data[0]);
      MovedBelow(table, n, k, data);
      MovedCovers(table, n, data);
      PositionsBelow(Moved(table, n), data[1..], k);
    }
  }

  lemma {:induction false} SymbolsInAlphabet(positions: seq<nat>, end: nat)
    requires end >= 2 && forall i | 0 <= i < |positions| :: positions[i] + 1 < end
    ensures InAlphabet(Symbols(positions, end), end)
    decreases |positions|
  {
    var n := Leading(positions);
    RunRoundTrip(n);
    if n < |positions| {
      SymbolsInAlphabet(positions[n + 1..], end);
    }
  }
}
