/** Handing out a bzip2 block: following its links and undoing the run-length coding below the sorting. */
module BlockReading {
  import opened BlockTransform
  import opened Common
  import opened LinkTable

  // ---------------------------------------------------------------------
  // Runs
  // ---------------------------------------------------------------------

  /**
   * What run-length coded bytes stand for. `last` is the byte before, or -1 behind a run, and `count` how often it
   * has just been repeated: a byte behind three repetitions is a number of further ones. The source leaves `last`
   * alone when that number is zero.
   */
  function Expand(bytes: seq<byte>, last: int, count: nat): seq<byte>
    requires -1 <= last < 256 && count <= 3 && (count > 0 ==> last >= 0)
  {
    if bytes == [] then []
    else
      var b := bytes[0];
      if count == 3 then Repeat(last, b) + Expand(bytes[1..], if b > 0 then -1 else last, 0)
      else [b] + Expand(bytes[1..], b, if last == b then count + 1 else 0)
  }

  /** How many equal bytes a text starts with, at most as many as one run can hold. */
  function RunLength(bytes: seq<byte>, n: nat): (length: nat)
    requires bytes != [] && n < |bytes| && n < 259
    ensures n < length <= |bytes| && length <= 259
    decreases 259 - n
  {
    if n + 1 == 259 || n + 1 == |bytes| || bytes[n + 1] != bytes[0] then n + 1 else RunLength(bytes, n + 1)
  }

  lemma {:induction false} RunIsMaximal(bytes: seq<byte>, n: nat)
    requires bytes != [] && n < |bytes| && n < 259 && forall k | 0 <= k <= n :: bytes[k] == bytes[0]
    ensures var length := RunLength(bytes, n);
            && bytes[..length] == Repeat(bytes[0], length)
            && (length < 259 && length < |bytes| ==> bytes[length] != bytes[0])
    decreases 259 - n
  {
    var length := RunLength(bytes, n);
    if length > n + 1 {
      RunIsMaximal(bytes, n + 1);
    }
  }

  /** A run of four or more bytes is written as four and the number of the others. */
  function EncodeRun(b: byte, n: nat): seq<byte>
    requires 0 < n <= 259
  {
    if n < 4 then Repeat(b, n) else Repeat(b, 4) + [n - 4]
  }

  /** The run-length coding of a block before it is sorted. */
  function Encode(bytes: seq<byte>): seq<byte> {
    if bytes == [] then []
    else
      var n := RunLength(bytes, 0);
      EncodeRun(bytes[0], n) + Encode(bytes[n..])
  }

  lemma RepeatMore(b: byte, n: nat, rest: seq<byte>)
    ensures Repeat(b, n + 1) + rest == [b] + (Repeat(b, n) + rest)
  {
  }

  /** `n` equal bytes that do not complete a run of four stand for themselves. */
  lemma {:induction false} ExpandShort(b: byte, n: nat, rest: seq<byte>, last: int, count: nat)
    requires -1 <= last < 256 && count <= 3 && (count > 0 ==> last >= 0)
    requires if last == b then count + n <= 3 else count < 3 && 0 < n <= 4
    ensures Expand(Repeat(b, n) + rest, last, count)
         == Repeat(b, n) + Expand(rest, if n == 0 then last else b, if last == b then count + n else n - 1)
    decreases n
  {
    if n == 0 {
      assert Repeat(b, 0) + rest == rest;
      assert [] + Expand(rest, last, count) == Expand(rest, last, count);
    } else {
      var after := Repeat(b, n - 1) + rest;
      RepeatMore(b, n - 1, rest);
      assert ([b] + after)[1..] == after;
      ExpandShort(b, n - 1, rest, b, if last == b then count + 1 else 0);
      RepeatMore(b, n - 1, Expand(rest, b, if last == b then count + n else n - 1));
    }
  }

  /** A whole run, followed by another byte or by the end, is read back. */
  lemma ExpandRun(b: byte, n: nat, rest: seq<byte>, last: int, count: nat)
    requires -1 <= last < 256 && count < 3 && (count > 0 ==> last >= 0) && last != b && 0 < n <= 259
    ensures Expand(EncodeRun(b, n) + rest, last, count)
         == Repeat(b, n) + Expand(rest, if n > 4 then -1 else b, if n < 4 then n - 1 else 0)
  {
    if n < 4 {
      ExpandShort(b, n, rest, last, count);
    } else {
      var tail := [n - 4] + rest;
      assert EncodeRun(b, n) + rest == Repeat(b, 4) + tail;
      ExpandShort(b, 4, tail, last, count);
      assert tail[1..] == rest;
      var more := Expand(rest, if n > 4 then -1 else b, 0);
      assert Expand(tail, b, 3) == Repeat(b, n - 4) + more;
      assert Repeat(b, 4) + (Repeat(b, n - 4) + more) == Repeat(b, n) + more;
    }
  }

  lemma ExpandNothing(last: int, count: nat)
    requires -1 <= last < 256 && count <= 3 && (count > 0 ==> last >= 0)
    ensures Expand([], last, count) == []
  {
  }

  lemma SplitAt(bytes: seq<byte>, n: nat)
    requires n <= |bytes|
    ensures bytes == bytes[..n] + bytes[n..]
  {
  }

  /** The first run of a text. */
  lemma FirstRun(bytes: seq<byte>)
    requires bytes != []
    ensures var n := RunLength(bytes, 0);
            bytes == Repeat(bytes[0], n) + bytes[n..] && (n <= 4 && n < |bytes| ==> bytes[n] != bytes[0])
  {
    hide RunLength, Repeat;
    RunIsMaximal(bytes, 0);
    SplitAt(bytes, RunLength(bytes, 0));
  }

  lemma EncodeStarts(bytes: seq<byte>)
    requires bytes != []
    ensures var n := RunLength(bytes, 0);
            Encode(bytes) == EncodeRun(bytes[0], n) + Encode(bytes[n..])
  {
    hide RunLength, EncodeRun;
  }

  /** Expanding undoes run-length coding. */
  lemma {:induction false} ExpandUndoesEncode(bytes: seq<byte>, last: int, count: nat)
    requires -1 <= last < 256 && count < 3 && (count > 0 ==> last >= 0)
    requires bytes != [] ==> bytes[0] != last
    ensures Expand(Encode(bytes), last, count) == bytes
    decreases |bytes|
  {
    if bytes == [] {
      ExpandNothing(last, count);
    } else {
      hide Expand, EncodeRun, RunLength, Encode, Repeat;
      var b, n := bytes[0], RunLength(bytes, 0);
      FirstRun(bytes);
      EncodeStarts(bytes);
      ExpandRun(b, n, Encode(bytes[n..]), last, count);
      ExpandUndoesEncode(bytes[n..], if n > 4 then -1 else b, if n < 4 then n - 1 else 0);
    }
  }

  // ---------------------------------------------------------------------
  // Runs of four
  // ---------------------------------------------------------------------

  /** The format closes a run behind its number, whatever the number is. */
  function ExpandByFormat(bytes: seq<byte>, last: int, count: nat): seq<byte>
    requires -1 <= last < 256 && count <= 3 && (count > 0 ==> last >= 0)
  {
    if bytes == [] then []
    else
      var b := bytes[0];
      if count == 3 then Repeat(last, b) + ExpandByFormat(bytes[1..], -1, 0)
      else [b] + ExpandByFormat(bytes[1..], b, if last == b then count + 1 else 0)
  }

  /**
   * The first run of exactly four that is followed by three more of its bytes and then another one: the byte of the
   * run and the one that the reader takes for a number.
   */
  function FirstBreak(bytes: seq<byte>, last: int, count: nat): Option<(byte, byte)>
    requires -1 <= last < 256 && count <= 3 && (count > 0 ==> last >= 0)
  {
    if bytes == [] then None
    else
      var b := bytes[0];
      if count < 3 then FirstBreak(bytes[1..], b, if last == b then count + 1 else 0)
      else if b == 0 && |bytes| > 4 && bytes[1] == bytes[2] == bytes[3] == last then Some((last, bytes[4]))
      else FirstBreak(bytes[1..], -1, 0)
  }

  /** The byte before only matters if three more of it come, and then another byte. */
  lemma ForgetLast(bytes: seq<byte>, last: int)
    requires -1 <= last < 256 && !(|bytes| > 3 && bytes[0] == bytes[1] == bytes[2] == last)
    ensures Expand(bytes, last, 0) == Expand(bytes, -1, 0)
  {
    if |bytes| > 1 && bytes[0] == last == bytes[1] {
      var two := bytes[1..][1..];
      assert |two| == 1 ==> two[1..] == [];
      assert bytes[1..][0] == last && (two != [] ==> two[0] == bytes[2]);
      assert Expand(bytes, last, 0) == [last] + ([last] + Expand(two, last, 2));
      assert Expand(bytes, -1, 0) == [last] + ([last] + Expand(two, last, 1));
    }
  }

  /**
   * Three more bytes of a run and then `n`: the reader repeats the byte `n` times, the format goes on with `n`
   * itself.
   */
  lemma BreakShows(b: byte, n: byte, rest: seq<byte>)
    requires n != b && n != 0
    ensures var bytes := [b, b, b, n] + rest;
            Expand(bytes, b, 0) != ExpandByFormat(bytes, -1, 0)
  {
    var late: seq<byte> := [n] + rest;
    var bytes: seq<byte> := [b, b, b, n] + rest;
    assert bytes == Repeat(b, 3) + late;
    ExpandShort(b, 3, late, b, 0);
    FormatShort(b, 3, late, -1, 0);
    assert Expand(bytes, b, 0)[3] == b;
    assert ExpandByFormat(bytes, -1, 0)[3] == n;
  }

  /**
   * The reader expands as the format does if no run breaks. If one does, the outputs differ, whatever follows, unless
   * the byte taken for a number is zero or the byte of the run.
   */
  lemma {:induction false} ExpandAsFormat(bytes: seq<byte>, last: int, count: nat)
    requires -1 <= last < 256 && count <= 3 && (count > 0 ==> last >= 0)
    ensures match FirstBreak(bytes, last, count)
            case None => Expand(bytes, last, count) == ExpandByFormat(bytes, last, count)
            case Some((b, n)) => n != 0 && n != b ==> Expand(bytes, last, count) != ExpandByFormat(bytes, last, count)
  {
    if bytes != [] {
      var b, rest := bytes[0], bytes[1..];
      if count < 3 {
        ExpandAsFormat(rest, b, if last == b then count + 1 else 0);
        SameFront([b], Expand(rest, b, if last == b then count + 1 else 0),
          ExpandByFormat(rest, b, if last == b then count + 1 else 0));
      } else if b == 0 && |bytes| > 4 && bytes[1] == bytes[2] == bytes[3] == last {
        assert rest == [last, last, last, bytes[4]] + bytes[5..];
        if bytes[4] != 0 && bytes[4] != last {
          BreakShows(last, bytes[4], bytes[5..]);
          SameFront([], Expand(rest, last, 0), ExpandByFormat(rest, -1, 0));
          assert Repeat(last, 0) == [];
        }
      } else {
        ExpandAsFormat(rest, -1, 0);
        if b == 0 {
          ForgetLast(rest, last);
        }
        SameFront(Repeat(last, b), Expand(rest, -1, 0), ExpandByFormat(rest, -1, 0));
      }
    }
  }

  lemma SameFront(front: seq<byte>, a: seq<byte>, b: seq<byte>)
    ensures front + a == front + b <==> a == b
  {
    assert (front + a)[|front|..] == a && (front + b)[|front|..] == b;
  }

  /** Nothing that an encoder writes breaks. */
  lemma {:induction false} EncodedNeverBreaks(bytes: seq<byte>, last: int, count: nat)
    requires -1 <= last < 256 && count < 3 && (count > 0 ==> last >= 0)
    requires bytes != [] ==> bytes[0] != last
    ensures FirstBreak(Encode(bytes), last, count) == None
    ensures ExpandByFormat(Encode(bytes), last, count) == bytes
    decreases |bytes|
  {
    ExpandUndoesEncode(bytes, last, count);
    ExpandAsFormat(Encode(bytes), last, count);
    if bytes != [] {
      hide Expand, ExpandByFormat, EncodeRun, RunLength, Encode, Repeat, FirstBreak;
      var b, n := bytes[0], RunLength(bytes, 0);
      var more := Encode(bytes[n..]);
      FirstRun(bytes);
      EncodeStarts(bytes);
      EncodeFirst(bytes[n..]);
      EncodedNeverBreaks(bytes[n..], if n >= 4 then -1 else b, if n < 4 then n - 1 else 0);
      RunNeverBreaks(b, n, more, last, count);
    }
  }

  lemma EncodeFirst(bytes: seq<byte>)
    ensures bytes != [] ==> Encode(bytes) != [] && Encode(bytes)[0] == bytes[0]
  {
  }

  lemma RunNeverBreaks(b: byte, n: nat, rest: seq<byte>, last: int, count: nat)
    requires -1 <= last < 256 && count < 3 && (count > 0 ==> last >= 0) && last != b && 0 < n <= 259
    requires n == 4 && rest != [] ==> rest[0] != b
    ensures FirstBreak(EncodeRun(b, n) + rest, last, count)
         == FirstBreak(rest, if n >= 4 then -1 else b, if n < 4 then n - 1 else 0)
  {
    if n < 4 {
      ShortNeverBreaks(b, n, rest, last, count);
    } else {
      var tail := [n - 4] + rest;
      assert EncodeRun(b, n) + rest == Repeat(b, 4) + tail;
      ShortNeverBreaks(b, 4, tail, last, count);
      assert tail[1..] == rest;
    }
  }

  lemma {:induction false} ShortNeverBreaks(b: byte, n: nat, rest: seq<byte>, last: int, count: nat)
    requires -1 <= last < 256 && count <= 3 && (count > 0 ==> last >= 0)
    requires if last == b then count + n <= 3 else count < 3 && 0 < n <= 4
    ensures FirstBreak(Repeat(b, n) + rest, last, count)
         == FirstBreak(rest, if n == 0 then last else b, if last == b then count + n else n - 1)
    decreases n
  {
    if n == 0 {
      assert Repeat(b, 0) + rest == rest;
    } else {
      var after := Repeat(b, n - 1) + rest;
      RepeatMore(b, n - 1, rest);
      assert ([b] + after)[1..] == after;
      ShortNeverBreaks(b, n - 1, rest, b, if last == b then count + 1 else 0);
    }
  }

  lemma RepeatJoin(b: byte, m: nat, n: nat, rest: seq<byte>)
    ensures Repeat(b, m) + (Repeat(b, n) + rest) == Repeat(b, m + n) + rest
  {
  }

  /** A run of exactly four, three more of its bytes, and another one. */
  function Breaking(b: byte, n: byte, rest: seq<byte>): seq<byte> {
    Repeat(b, 4) + ([0] + (Repeat(b, 3) + ([n] + rest)))
  }

  lemma BreakingIs(b: byte, n: byte, rest: seq<byte>)
    ensures Breaking(b, n, rest) == [b, b, b, b, 0, b, b, b, n] + rest
  {
  }

  lemma BreakFound(b: byte, n: byte, rest: seq<byte>)
    ensures FirstBreak(Breaking(b, n, rest), -1, 0) == Some((b, n))
  {
    var tail := [0] + (Repeat(b, 3) + ([n] + rest));
    ShortNeverBreaks(b, 4, tail, -1, 0);
    assert tail[1] == tail[2] == tail[3] == b && tail[4] == n;
  }

  lemma ReaderAround(b: byte, n: byte, rest: seq<byte>)
    ensures Expand(Breaking(b, n, rest), -1, 0) == Repeat(b, 7) + Expand([n] + rest, b, 3)
  {
    var late := [n] + rest;
    var tail := Repeat(b, 3) + late;
    assert ([0] + tail)[1..] == tail && Repeat(b, 0) == [];
    assert Expand([0] + tail, b, 3) == Expand(tail, b, 0);
    hide Expand;
    ExpandShort(b, 4, [0] + tail, -1, 0);
    ExpandShort(b, 3, late, b, 0);
    RepeatJoin(b, 4, 3, Expand(late, b, 3));
  }

  lemma FormatAround(b: byte, n: byte, rest: seq<byte>)
    ensures ExpandByFormat(Breaking(b, n, rest), -1, 0) == Repeat(b, 7) + ExpandByFormat([n] + rest, b, 2)
  {
    var late := [n] + rest;
    var tail := Repeat(b, 3) + late;
    assert ([0] + tail)[1..] == tail && Repeat(b, 0) == [];
    assert ExpandByFormat([0] + tail, b, 3) == ExpandByFormat(tail, -1, 0);
    hide ExpandByFormat;
    FormatShort(b, 4, [0] + tail, -1, 0);
    FormatShort(b, 3, late, -1, 0);
    RepeatJoin(b, 4, 3, ExpandByFormat(late, b, 2));
  }

  /** What both make of a break. */
  lemma AroundBreak(b: byte, n: byte, rest: seq<byte>)
    ensures var bytes := [b, b, b, b, 0, b, b, b, n] + rest;
            && FirstBreak(bytes, -1, 0) == Some((b, n))
            && Expand(bytes, -1, 0) == Repeat(b, 7) + Expand([n] + rest, b, 3)
            && ExpandByFormat(bytes, -1, 0) == Repeat(b, 7) + ExpandByFormat([n] + rest, b, 2)
  {
    hide Expand, ExpandByFormat, FirstBreak, Breaking, Repeat;
    BreakingIs(b, n, rest);
    BreakFound(b, n, rest);
    ReaderAround(b, n, rest);
    FormatAround(b, n, rest);
  }

  /** Behind a run of exactly four, the reader takes the fourth equal byte for a number, one too early. */
  lemma FourThenSame(b: byte, n: byte)
    ensures FirstBreak([b, b, b, b, 0, b, b, b, n], -1, 0) == Some((b, n))
    ensures Expand([b, b, b, b, 0, b, b, b, n], -1, 0) == Repeat(b, 7 + n)
    ensures ExpandByFormat([b, b, b, b, 0, b, b, b, n], -1, 0) == Repeat(b, 7) + [n]
  {
    var bytes: seq<byte> := [b, b, b, b, 0, b, b, b, n];
    var late: seq<byte> := [n];
    assert bytes + [] == bytes && late + [] == late && late[1..] == [];
    AroundBreak(b, n, []);
    assert Expand(late, b, 3) == Repeat(b, n) + [];
    assert Repeat(b, 7) + (Repeat(b, n) + []) == Repeat(b, 7 + n);
    assert ExpandByFormat(late, b, 2) == [n] + [];
  }

  /** With zero or the run's byte taken for a number, it depends on the value or on what follows: both can happen. */
  lemma BreakCoincides() returns (differing: seq<byte>, same: seq<byte>)
    ensures FirstBreak(differing, -1, 0) == Some((2, 2)) && Expand(differing, -1, 0) != ExpandByFormat(differing, -1, 0)
    ensures FirstBreak(same, -1, 0) == Some((1, 1)) && Expand(same, -1, 0) == ExpandByFormat(same, -1, 0)
  {
    differing, same := [2, 2, 2, 2, 0, 2, 2, 2, 2], [1, 1, 1, 1, 0, 1, 1, 1, 1];
    FourThenSame(2, 2);
    FourThenSame(1, 1);
    assert |Repeat(2, 9)| == 9 && |Repeat(2, 7) + [2]| == 8;
    assert Repeat(1, 8) == Repeat(1, 7) + [1];
  }

  lemma BreakAtZeroCoincides() returns (differing: seq<byte>, same: seq<byte>)
    ensures FirstBreak(differing, -1, 0) == Some((1, 0)) && Expand(differing, -1, 0) != ExpandByFormat(differing, -1, 0)
    ensures FirstBreak(same, -1, 0) == Some((1, 0)) && Expand(same, -1, 0) == ExpandByFormat(same, -1, 0)
  {
    hide Expand, ExpandByFormat, FirstBreak;
    differing := [1, 1, 1, 1, 0, 1, 1, 1, 0];
    same := differing + Repeat(0, 4);
    FourThenSame(1, 0);
    assert |Repeat(1, 7)| == 7 && |Repeat(1, 7) + [0]| == 8;
    AroundBreak(1, 0, Repeat(0, 4));
    ReaderOnZeros();
    FormatOnZeros();
  }

  lemma ReaderOnZeros()
    ensures Expand([0] + Repeat(0, 4), 1, 3) == Repeat(0, 4)
  {
    assert ([0] + Repeat(0, 4))[1..] == Repeat(0, 4) == Repeat(0, 4) + [] && Repeat(1, 0) == [];
    ExpandShort(0, 4, [], 1, 0);
  }

  lemma FormatOnZeros()
    ensures ExpandByFormat([0] + Repeat(0, 4), 1, 2) == Repeat(0, 4)
  {
    var zero: seq<byte> := [0];
    assert (zero + Repeat(0, 4))[1..] == Repeat(0, 4) == Repeat(0, 3) + zero;
    assert zero[1..] == [] && Repeat(0, 0) == [];
    FormatShort(0, 3, zero, 0, 0);
    assert ExpandByFormat(zero, 0, 3) == [];
    assert [0] + (Repeat(0, 3) + []) == Repeat(0, 4);
  }

  lemma {:induction false} FormatShort(b: byte, n: nat, rest: seq<byte>, last: int, count: nat)
    requires -1 <= last < 256 && count <= 3 && (count > 0 ==> last >= 0)
    requires if last == b then count + n <= 3 else count < 3 && 0 < n <= 4
    ensures ExpandByFormat(Repeat(b, n) + rest, last, count)
         == Repeat(b, n) + ExpandByFormat(rest, if n == 0 then last else b, if last == b then count + n else n - 1)
    decreases n
  {
    if n == 0 {
      assert Repeat(b, 0) + rest == rest;
      assert [] + ExpandByFormat(rest, last, count) == ExpandByFormat(rest, last, count);
    } else {
      var after := Repeat(b, n - 1) + rest;
      RepeatMore(b, n - 1, rest);
      assert ([b] + after)[1..] == after;
      FormatShort(b, n - 1, rest, b, if last == b then count + 1 else 0);
      RepeatMore(b, n - 1, ExpandByFormat(rest, b, if last == b then count + n else n - 1));
    }
  }

  // ---------------------------------------------------------------------
  // Handing out the block
  // ---------------------------------------------------------------------

  /** Where the reader stands. */
  ghost predicate Standing(words: seq<nat>, position: nat, used: nat, last: int, count: nat, repeats: nat) {
    && LinksInRange(words) && position < |words| && used <= |words|
    && -1 <= last < 256 && count <= 3 && repeats < 256
    && (count > 0 ==> last >= 0) && (repeats > 0 ==> last >= 0 && count == 0)
  }

  /** Everything that is still to be handed out from there. */
  ghost function PendingFrom(words: seq<nat>, position: nat, used: nat, last: int, count: nat, repeats: nat): seq<byte>
    requires Standing(words, position, used, last, count, repeats)
  {
    var rest := Walk(words, position, |words| - used);
    if repeats > 0 then Repeat(last, repeats) + Expand(rest, -1, 0) else Expand(rest, last, count)
  }

  lemma RepeatOnce(words: seq<nat>, position: nat, used: nat, last: int, repeats: nat)
    requires Standing(words, position, used, last, 0, repeats) && repeats > 0
    ensures var after := if repeats == 1 then -1 else last;
            && Standing(words, position, used, after, 0, repeats - 1)
            && PendingFrom(words, position, used, last, 0, repeats)
            == [last] + PendingFrom(words, position, used, after, 0, repeats - 1)
  {
    hide Walk, Expand;
    RepeatMore(last, repeats - 1, Expand(Walk(words, position, |words| - used), -1, 0));
    assert Repeat(last, 0) == [];
  }

  lemma WalkOnce(words: seq<nat>, position: nat, used: nat, last: int, count: nat)
    requires Standing(words, position, used, last, count, 0) && used < |words|
    ensures var b, next, before := words[position] % 256, Link(words, position),
            PendingFrom(words, position, used, last, count, 0);
            if count == 3 then
              Standing(words, next, used + 1, last, 0, b) && before == PendingFrom(words, next, used + 1, last, 0, b)
            else
              && Standing(words, next, used + 1, b, if last == b then count + 1 else 0, 0)
              && before == [b] + PendingFrom(words, next, used + 1, b, if last == b then count + 1 else 0, 0)
  {
    var rest := Walk(words, position, |words| - used);
    assert rest[1..] == Walk(words, Link(words, position), |words| - used - 1);
    if count == 3 {
      assert Repeat(last, 0) + Expand(rest[1..], last, 0) == Expand(rest[1..], last, 0);
    }
  }

  lemma NothingPending(words: seq<nat>, position: nat, last: int, count: nat)
    requires Standing(words, position, |words|, last, count, 0)
    ensures PendingFrom(words, position, |words|, last, count, 0) == []
  {
  }

  /** The part of the block decoder that hands out bytes, in pieces of any size. */
  class BlockReader {
    const words: seq<nat>
    var used: nat
    var position: nat
    var lastByte: int
    var byteRepeats: nat
    var repeats: nat

    ghost predicate Valid()
      reads this
    {
      Standing(words, position, used, lastByte, byteRepeats, repeats)
    }

    /** Starts at the position that the inverse transform returned. */
    constructor (words: seq<nat>, start: nat)
      requires LinksInRange(words) && start < |words|
      ensures Valid() && this.words == words && Pending() == Expand(Walk(words, start, |words|), -1, 0)
    {
      this.words, used, position, lastByte, byteRepeats, repeats := words, 0, start, -1, 0, 0;
    }

    /** Everything that is still to be handed out. */
    ghost function Pending(): seq<byte>
      requires Valid()
      reads this
    {
      PendingFrom(words, position, used, lastByte, byteRepeats, repeats)
    }

    /** Hands out up to `capacity` bytes. Fewer are handed out only at the end of the block. */
    method ReadFromBlock(capacity: nat) returns (out: seq<byte>, finished: bool)
      requires Valid()
      modifies this
      ensures Valid() && out + Pending() == old(Pending()) && |out| <= capacity
      ensures |out| < capacity ==> Pending() == []
      ensures finished <==> capacity > 0 && out == []
    {
      hide PendingFrom;
      out := [];
      assert out + Pending() == Pending();
      while (repeats > 0 || used < |words|) && |out| < capacity
        invariant Valid() && out + Pending() == old(Pending()) && |out| <= capacity
        decreases |words| - used, repeats
      {
        if repeats > 0 {
          RepeatOnce(words, position, used, lastByte, repeats);
          AppendOne(out, lastByte, old(Pending()), Pending());
          out := out + [lastByte];
          repeats := repeats - 1;
          if repeats == 0 {
            lastByte := -1;
          }
          continue;
        }
        WalkOnce(words, position, used, lastByte, byteRepeats);
        var word := words[position];
        var b := word % 256;
        position := word / 256;
        used := used + 1;
        if byteRepeats == 3 {
          repeats, byteRepeats := b, 0;
          continue;
        }
        byteRepeats := if lastByte == b then byteRepeats + 1 else 0;
        lastByte := b;
        AppendOne(out, b, old(Pending()), [b] + Pending());
        out := out + [b];
      }
      if repeats == 0 && used == |words| {
        NothingPending(words, position, lastByte, byteRepeats);
      }
      finished := capacity > 0 && out == [];
    }
  }

  lemma AppendOne(out: seq<byte>, b: byte, all: seq<byte>, pending: seq<byte>)
    requires all == out + pending && pending != [] && pending[0] == b
    ensures all == out + [b] + pending[1..]
  {
  }

  lemma OnePart(parts: seq<seq<byte>>, part: seq<byte>, rest: seq<byte>)
    ensures Concat(parts) + (part + rest) == Concat(parts + [part]) + rest
    ensures Concat(parts) + part == Concat(parts + [part])
  {
    assert (parts + [part])[..|parts|] == parts;
    assert Concat(parts) + (part + rest) == Concat(parts) + part + rest;
  }

  /**
   * However the block is read, what is read is a prefix of the same bytes, and all of them once a read finds nothing.
   */
  method ReadInPieces(reader: BlockReader, capacities: seq<nat>) returns (parts: seq<seq<byte>>, finished: bool)
    requires reader.Valid()
    modifies reader
    ensures reader.Valid() && Concat(parts) + reader.Pending() == old(reader.Pending())
    ensures finished ==> Concat(parts) == old(reader.Pending())
  {
    hide Standing, PendingFrom;
    parts, finished := [], false;
    assert Concat(parts) + reader.Pending() == reader.Pending();
    for i := 0 to |capacities|
      invariant reader.Valid() && Concat(parts) + reader.Pending() == old(reader.Pending())
      invariant !finished
    {
      var out, done;
      out, done := reader.ReadFromBlock(capacities[i]);
      OnePart(parts, out, reader.Pending());
      parts := parts + [out];
      if done {
        finished := true;
        return;
      }
    }
  }

  /**
   * The whole decoder behind the symbols: run-length coding, sorting the rotations and linking them loses nothing.
   * What is handed out for a coded block is the block, whether or not rotations of its coding are equal.
   */
  lemma BlockRoundTrip(data: seq<byte>, order: seq<nat>, words: seq<nat>, origPtr: nat)
    requires Transformed(Encode(data), order, words) && origPtr < |Encode(data)|
    requires Rotation(Encode(data), order[origPtr]) == Encode(data)
    ensures |words| == |Encode(data)|
    ensures Expand(Walk(words, Link(words, origPtr), |words|), -1, 0) == data
  {
    hide Expand, Encode, Walk;
    WalkRecoversBlock(Encode(data), order, words, origPtr);
    ExpandUndoesEncode(data, -1, 0);
  }
}
