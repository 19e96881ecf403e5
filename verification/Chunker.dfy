/** Reading a source through a small buffer, byte by byte or in blocks, without losing what an error comes with. */
module SourceReaders {
  import opened Common

  datatype Status = Continue | Eof | Error(message: seq<byte>)

  /** What the inner reader answers to one call: bytes together with a status. */
  datatype Delivery = Delivery(bytes: seq<byte>, status: Status)

  /** One read: `count` is the number of bytes, or larger than the buffer when the inner reader misbehaves. */
  datatype ReadOutcome = ReadOutcome(count: nat, bytes: seq<byte>, status: Status)

  /** What a status adds to those worth reporting. */
  function News(status: Status): seq<Status> { if status == Continue then [] else [status] }

  /** An inner reader that answers as scripted, and then with the end of input for ever. */
  class ScriptedReader {
    const script: seq<Delivery>
    var calls: nat
    /** All bytes delivered so far. */
    ghost var delivered: seq<byte>
    /** What was reported with them: errors and ends, in order. */
    ghost var reported: seq<Status>
    /** How much had been delivered when an answer ended. */
    ghost var ends: set<nat>

    /** An end is reported behind the script, or by it. */
    ghost predicate Valid()
      reads this
    {
      calls <= |script|
        && |delivered| in ends && (forall e | e in ends :: e <= |delivered|)
        && (Eof in reported ==> calls == |script| || exists k :: 0 <= k < calls && script[k].status == Eof)
    }

    /** The last answer was neither bytes nor a reason for having none. */
    ghost predicate Stalled()
      reads this
    {
      0 < calls <= |script| && script[calls - 1] == Delivery([], Continue)
    }

    /** The last answer did not fit into a buffer of the given capacity. */
    ghost predicate Oversized(capacity: nat)
      reads this
    {
      0 < calls <= |script| && |script[calls - 1].bytes| > capacity
    }

    constructor (script: seq<Delivery>)
      ensures Valid() && this.script == script && calls == 0 && delivered == [] && reported == [] && ends == {0}
    {
      this.script, calls, delivered, reported, ends := script, 0, [], [], {0};
    }

    /** No later call delivers anything. */
    ghost predicate Dry()
      reads this
    {
      forall k | calls <= k < |script| :: script[k].bytes == []
    }

    /** Fills a buffer of the given capacity. A delivery that does not fit is answered by its size and lost. */
    method ReadSource(capacity: nat) returns (r: ReadOutcome)
      requires Valid() && capacity > 0
      modifies this
      ensures Valid() && calls == if old(calls) < |script| then old(calls) + 1 else old(calls)
      ensures if r.count <= capacity then |r.bytes| == r.count && delivered == old(delivered) + r.bytes
              else r.bytes == [] && delivered == old(delivered)
      ensures ends == old(ends) + {|delivered|}
      ensures reported == old(reported) + if r.count <= capacity then News(r.status) else []
      ensures old(calls) == |script| ==> r == ReadOutcome(0, [], Eof)
      ensures old(calls) < |script| ==>
                r.count == |script[old(calls)].bytes| && r.status == script[old(calls)].status
      ensures old(Dry()) ==> Dry() && r.count == 0 && delivered == old(delivered)
    {
      if calls >= |script| {
        assert delivered + [] == delivered && ends + {|delivered|} == ends;
        reported := reported + [Eof];
        return ReadOutcome(0, [], Eof);
      }
      var next := script[calls];
      calls := calls + 1;
      if |next.bytes| > capacity {
        assert reported + [] == reported && ends + {|delivered|} == ends;
        return ReadOutcome(|next.bytes|, [], next.status);
      }
      delivered := delivered + next.bytes;
      ends := ends + {|delivered|};
      reported := reported + News(next.status);
      r := ReadOutcome(|next.bytes|, next.bytes, next.status);
    }
  }

  /** Nothing is delivered once the end of input has been reported. */
  ghost predicate Honest(script: seq<Delivery>) {
    forall i, j | 0 <= i < j < |script| && script[i].status == Eof :: script[j].bytes == []
  }

  /** Once an honest reader has reported the end, no later call delivers anything. */
  lemma EndIsDry(reader: ScriptedReader)
    requires reader.Valid() && Honest(reader.script) && Eof in reader.reported
    ensures reader.Dry()
  {
  }

  const BUFFERED_READER_CAPACITY: nat := 4_096

  /** Answers end where they ended before, or behind everything that had been handed out. */
  ghost predicate Grows(before: set<nat>, after: set<nat>, taken: nat) {
    before <= after && forall e | e in after && e !in before :: e >= taken
  }

  /** A read hands out all that is buffered of one answer, or as much as was asked for. */
  ghost predicate OneRead(start: nat, count: nat, capacity: nat, ends: set<nat>) {
    && 0 < count <= capacity && (count < capacity ==> start + count in ends)
    && forall e | e in ends :: !(start < e < start + count)
  }

  lemma OneReadStill(start: nat, count: nat, capacity: nat, before: set<nat>, after: set<nat>, taken: nat)
    requires OneRead(start, count, capacity, before) && Grows(before, after, taken) && start + count <= taken
    ensures OneRead(start, count, capacity, after)
  {
  }

  datatype ByteOutcome = Byte(b: byte) | NoByte(status: Status) | Overreported

  class BufferedSourceReader {
    const inner: ScriptedReader
    var buffered: seq<byte>
    var pending: Option<Status>
    var overreported: Option<nat>
    /** The bytes handed out so far. */
    ghost var taken: seq<byte>
    /** The errors and ends handed out so far. */
    ghost var told: seq<Status>

    /**
     * What is buffered is from one answer of the inner reader. Nothing is lost or reordered: what was delivered is
     * what was handed out and then what is buffered, and what was reported is what was told and then what is pending.
     */
    ghost predicate Conserves()
      reads this, inner
    {
      && inner.Valid() && inner.delivered == taken + buffered
      && (forall e | e in inner.ends :: e <= |taken| || e == |inner.delivered|)
      && inner.reported == told + (if pending.Some? then [pending.value] else [])
      && pending != Some(Continue)
    }

    /** A delivery that was too large is reported in the call that asked for it, so none is ever left over. */
    ghost predicate Valid()
      reads this, inner
    {
      Conserves() && overreported.None?
    }

    constructor (inner: ScriptedReader)
      requires inner.Valid() && inner.delivered == [] && inner.reported == []
      ensures Valid() && this.inner == inner && buffered == [] && taken == [] && told == []
    {
      this.inner, buffered, pending, overreported, taken, told := inner, [], None, None, [], [];
    }

    /** Nothing is buffered, and nothing more will be delivered. */
    ghost predicate Dry()
      reads this, inner
    {
      buffered == [] && inner.Dry()
    }

    /** Asks the inner reader once, keeping its bytes and its status for later. */
    method Fill()
      requires Valid() && buffered == [] && pending == None
      modifies this, inner
      ensures Conserves() && taken == old(taken) && told == old(told) && inner.calls >= old(inner.calls)
      ensures Grows(old(inner.ends), inner.ends, |taken|)
      ensures buffered != [] || overreported.Some? ==> inner.calls > old(inner.calls)
      ensures overreported.Some? ==>
                && buffered == [] && pending == None && overreported.value > BUFFERED_READER_CAPACITY
                && inner.Oversized(BUFFERED_READER_CAPACITY)
      ensures overreported.None? && buffered == [] && pending == None ==>
                inner.calls > old(inner.calls) && inner.Stalled()
      ensures old(Dry()) ==> Dry() && overreported.None?
    {
      assert told + [] == told;
      var outcome := inner.ReadSource(BUFFERED_READER_CAPACITY);
      if outcome.count > BUFFERED_READER_CAPACITY {
        overreported := Some(outcome.count);
        return;
      }
      buffered := outcome.bytes;
      if outcome.status != Continue {
        pending := Some(outcome.status);
      }
    }

    /** Takes up to `capacity` bytes from the buffer. */
    method Drain(capacity: nat) returns (bytes: seq<byte>)
      requires Valid() && capacity > 0
      modifies this
      ensures Valid() && taken == old(taken) + bytes && old(buffered) == bytes + buffered
      ensures |bytes| == if |old(buffered)| < capacity then |old(buffered)| else capacity
      ensures pending == old(pending) && told == old(told)
    {
      var count := if |buffered| < capacity then |buffered| else capacity;
      bytes := buffered[..count];
      buffered := buffered[count..];
      taken := taken + bytes;
    }

    /** Either the inner reader was called, or the buffer has become smaller. */
    twostate predicate Advanced()
      reads this, inner
    {
      inner.calls > old(inner.calls) || (inner.calls == old(inner.calls) && |buffered| < |old(buffered)|)
    }

    /** Reads into a buffer of the given capacity. A count of zero means that nothing is buffered. */
    method Read(capacity: nat) returns (r: ReadOutcome)
      requires Valid() && capacity > 0
      modifies this, inner
      ensures Valid()
      ensures if r.count <= capacity then |r.bytes| == r.count && taken == old(taken) + r.bytes
              else r.bytes == [] && taken == old(taken)
      ensures told == old(told) + if r.count <= capacity then News(r.status) else []
      ensures Grows(old(inner.ends), inner.ends, |old(taken)|)
      ensures 0 < r.count <= capacity ==> OneRead(|old(taken)|, r.count, capacity, inner.ends)
      ensures inner.calls >= old(inner.calls)
      ensures r.count == 0 || r.status != Continue ==> buffered == []
      ensures r.count == 0 && r.status == Continue ==> inner.Stalled()
      ensures r.count > capacity ==> inner.Oversized(capacity)
      ensures r.count > 0 ==> Advanced()
      ensures old(Dry()) ==> Dry() && r.count == 0
    {
      assert taken + [] == taken && told + [] == told;
      if overreported.Some? {
        assert false;
      }
      if buffered != [] {
        var bytes := Drain(capacity);
        return ReadOutcome(|bytes|, bytes, Continue);
      }
      if pending.Some? {
        r := ReadOutcome(0, [], pending.value);
        told, pending := told + [pending.value], None;
        return;
      }
      if capacity >= BUFFERED_READER_CAPACITY {
        r := inner.ReadSource(capacity);
        taken := taken + r.bytes;
        told := told + if r.count <= capacity then News(r.status) else [];
        return;
      }
      Fill();
      if overreported.Some? {
        r := ReadOutcome(overreported.value, [], Continue);
        overreported := None;
        return;
      }
      if buffered == [] {
        r := ReadOutcome(0, [], if pending.Some? then pending.value else Continue);
        told, pending := told + News(r.status), None;
        return;
      }
      var bytes := Drain(capacity);
      r := ReadOutcome(|bytes|, bytes, Continue);
    }

    /** Reads one byte. */
    method ReadByte() returns (r: ByteOutcome)
      requires Valid()
      modifies this, inner
      ensures Valid()
      ensures if r.Byte? then taken == old(taken) + [r.b] else taken == old(taken)
      ensures told == old(told) + if r.NoByte? then News(r.status) else []
      ensures Grows(old(inner.ends), inner.ends, |old(taken)|)
      ensures r.Byte? ==> Advanced()
      ensures inner.calls >= old(inner.calls) && (r.Overreported? ==> inner.calls > old(inner.calls))
      ensures r.NoByte? ==> buffered == [] && (r.status == Continue ==> inner.Stalled())
      ensures r.Overreported? ==> inner.Oversized(BUFFERED_READER_CAPACITY)
      ensures old(Dry()) ==> Dry() && r.NoByte?
    {
      assert taken + [] == taken && told + [] == told;
      if overreported.Some? {
        assert false;
      }
      if buffered == [] {
        if pending.Some? {
          r := NoByte(pending.value);
          told, pending := told + [pending.value], None;
          return;
        }
        Fill();
      }
      if overreported.Some? {
        overreported := None;
        return Overreported;
      }
      if buffered != [] {
        r := Byte(buffered[0]);
        taken := taken + [buffered[0]];
        buffered := buffered[1..];
        return;
      }
      r := NoByte(if pending.Some? then pending.value else Continue);
      told, pending := told + News(r.status), None;
    }
  }
}

/** Cutting a file into fragments that end, where possible, behind an empty line. */
module FileChunks {
  import opened Common
  import opened SourceReaders

  const LF: byte := 0x0a

  predicate IsBoundaryWhitespace(b: byte) {
    b == 0x20 || b == 0x09 || b == LF || b == 0x0d
  }

  function Ones(b: byte): nat { if b == LF then 1 else 0 }

  /** The line feeds in the whitespace that a text ends with. */
  function TrailingNewlines(bytes: seq<byte>): nat {
    if bytes == [] || !IsBoundaryWhitespace(bytes[|bytes| - 1]) then 0
    else TrailingNewlines(bytes[..|bytes| - 1]) + Ones(bytes[|bytes| - 1])
  }

  /** A text can be cut here: it ends with whitespace that holds an empty line. */
  predicate SafeSuffix(bytes: seq<byte>) {
    TrailingNewlines(bytes) >= 2
  }

  ghost predicate BlankFrom(bytes: seq<byte>, i: nat) {
    forall k | i <= k < |bytes| :: bytes[k] in {0x20, 0x09, 0x0a, 0x0d}
  }

  /**
   * A suffix is safe exactly if two line feeds stand at the end with nothing but whitespace from the first of them
   * on.
   */
  lemma {:induction false} SafeSuffixMeans(bytes: seq<byte>)
    ensures TrailingNewlines(bytes) >= 1 <==> exists i :: 0 <= i < |bytes| && bytes[i] == 0x0a && BlankFrom(bytes, i)
    ensures SafeSuffix(bytes)
       <==> exists i, j :: 0 <= i < j < |bytes| && bytes[i] == 0x0a && bytes[j] == 0x0a && BlankFrom(bytes, i)
  {
    if bytes != [] {
      var n := |bytes| - 1;
      SafeSuffixMeans(bytes[..n]);
      forall i | 0 <= i <= n
        ensures BlankFrom(bytes, i) <==> BlankFrom(bytes[..n], i) && IsBoundaryWhitespace(bytes[n])
      {
      }
      hide BlankFrom;
      assert forall i | 0 <= i < n :: bytes[..n][i] == bytes[i];
      BlankBehind(bytes[..n]);
    }
  }

  lemma BlankBehind(bytes: seq<byte>)
    ensures BlankFrom(bytes, |bytes|)
  {
  }

  function CountLf(bytes: seq<byte>): nat {
    if bytes == [] then 0 else CountLf(bytes[..|bytes| - 1]) + Ones(bytes[|bytes| - 1])
  }

  lemma {:induction false} CountLfAppend(a: seq<byte>, b: seq<byte>)
    ensures CountLf(a + b) == CountLf(a) + CountLf(b)
  {
    if b == [] {
      assert a + b == a;
    } else {
      CountLfAppend(a, b[..|b| - 1]);
      assert (a + b)[..|a + b| - 1] == a + b[..|b| - 1];
    }
  }

  /** Lines are counted by their line feeds, however often they stand in a text. */
  lemma {:induction false} CountLfIs(bytes: seq<byte>)
    ensures CountLf(bytes) == multiset(bytes)[0x0a]
  {
    if bytes != [] {
      CountLfIs(bytes[..|bytes| - 1]);
      assert bytes == bytes[..|bytes| - 1] + [bytes[|bytes| - 1]];
    }
  }

  method CountLines(bytes: seq<byte>) returns (count: nat)
    ensures count == CountLf(bytes)
  {
    count := 0;
    assert bytes[..0] == [];
    for i := 0 to |bytes|
      invariant count == CountLf(bytes[..i])
    {
      assert bytes[..i + 1][..i] == bytes[..i];
      if bytes[i] == LF {
        count := count + 1;
      }
    }
    assert bytes[..|bytes|] == bytes;
  }

  method SuffixIsSafe(bytes: seq<byte>) returns (safe: bool)
    ensures safe == SafeSuffix(bytes)
  {
    if bytes == [] || !IsBoundaryWhitespace(bytes[|bytes| - 1]) {
      return false;
    }
    var newlines: nat := 0;
    assert bytes[..|bytes|] == bytes;
    for i := |bytes| downto 0
      invariant newlines < 2 && TrailingNewlines(bytes) == TrailingNewlines(bytes[..i]) + newlines
    {
      assert bytes[..i + 1][..i] == bytes[..i];
      if bytes[i] == LF {
        newlines := newlines + 1;
        if newlines >= 2 {
          return true;
        }
      } else if !IsBoundaryWhitespace(bytes[i]) {
        return false;
      }
    }
    safe := false;
  }

  // ---------------------------------------------------------------------
  // Reading on to a boundary
  // ---------------------------------------------------------------------

  /** The line feeds at `start` or behind it, in the whitespace that a text ends with. */
  function NewlinesFrom(bytes: seq<byte>, start: nat): nat {
    if |bytes| <= start || !IsBoundaryWhitespace(bytes[|bytes| - 1]) then 0
    else NewlinesFrom(bytes[..|bytes| - 1], start) + Ones(bytes[|bytes| - 1])
  }

  /**
   * Reading on from `nominal` bytes stops here: they are safe to cut themselves, or two line feeds have been counted
   * behind the last byte but one of them.
   */
  predicate Stops(bytes: seq<byte>, nominal: nat)
    requires 0 < nominal <= |bytes|
  {
    SafeSuffix(bytes[..nominal]) || NewlinesFrom(bytes, nominal - 1) >= 2
  }

  /** Where a fragment was cut. */
  datatype Cut = AtSafeSuffix | AtCeiling | AtEnd

  datatype Issue =
    | CancelledInBoundary
    | BoundaryFailed(message: seq<byte>)
    | NoProgress
    | TooManyBytes
    | ReadFailed(message: seq<byte>)

  /** Reading on did not stop before the end of `bytes`. */
  ghost predicate ReadOn(bytes: seq<byte>, nominal: nat)
    requires 0 < nominal
  {
    forall n | nominal <= n < |bytes| :: !Stops(bytes[..n], nominal)
  }

  /**
   * What a successful boundary read promises of a fragment that started with `nominal` bytes: it stops as early as it
   * can, and only there, at the ceiling, or behind an end that has been reported. `told` is what has been reported by
   * then.
   */
  ghost predicate WellCut(bytes: seq<byte>, nominal: nat, maximum: nat, cut: Cut, told: seq<Status>) {
    && 0 < nominal <= |bytes| <= nominal + maximum && ReadOn(bytes, nominal)
    && (cut == AtSafeSuffix <==> Stops(bytes, nominal))
    && (cut == AtSafeSuffix ==> SafeSuffix(bytes))
    && (cut == AtCeiling ==> |bytes| == nominal + maximum)
    && (cut == AtEnd ==> LastTold(told, Eof))
  }

  /** The line feeds up to the last byte but one have been counted, and the text did not stop before its end. */
  ghost predicate Counting(bytes: seq<byte>, nominal: nat, newlines: nat) {
    && 0 < nominal <= |bytes| && ReadOn(bytes, nominal) && !SafeSuffix(bytes[..nominal])
    && newlines == NewlinesFrom(bytes[..|bytes| - 1], nominal - 1)
  }

  /** How many have been counted once the last byte is looked at. */
  function CountLast(newlines: nat, last: byte): nat {
    if last == LF then newlines + 1 else if IsBoundaryWhitespace(last) then newlines else 0
  }

  lemma StartsReading(original: seq<byte>)
    requires original != []
    ensures ReadOn(original, |original|) && (SafeSuffix(original) ==> Stops(original, |original|))
    ensures !SafeSuffix(original) ==> Counting(original, |original|, 0)
  {
    hide SafeSuffix;
    assert original[..|original|] == original;
  }

  lemma Counted(bytes: seq<byte>, nominal: nat, newlines: nat)
    requires Counting(bytes, nominal, newlines)
    ensures 0 < nominal <= |bytes| && ReadOn(bytes, nominal)
    ensures CountLast(newlines, bytes[|bytes| - 1]) == NewlinesFrom(bytes, nominal - 1)
    ensures Stops(bytes, nominal) <==> CountLast(newlines, bytes[|bytes| - 1]) >= 2
    ensures Stops(bytes, nominal) ==> SafeSuffix(bytes)
  {
    hide SafeSuffix, ReadOn;
    if NewlinesFrom(bytes, nominal - 1) >= 2 {
      CountedIsSafe(bytes, nominal - 1);
    }
  }

  /** Reads byte by byte until the text can be cut, the read-ahead is used up, or the input ends. */
  method ReadUntilSafeBoundary(
    reader: BufferedSourceReader, original: seq<byte>, maximum: nat, cancelled: nat -> bool, polled: nat)
    returns (r: Result<Cut, Issue>, bytes: seq<byte>, polls: nat)
    requires reader.Valid() && original != []
    modifies reader, reader.inner
    ensures reader.Valid() && reader.inner.calls >= old(reader.inner.calls)
    ensures reader.inner.calls == old(reader.inner.calls) ==> |reader.buffered| <= |old(reader.buffered)|
    ensures original <= bytes && reader.taken == old(reader.taken) + bytes[|original|..]
    ensures old(reader.told) <= reader.told
    ensures Grows(old(reader.inner.ends), reader.inner.ends, |old(reader.taken)|)
    ensures r.Ok? ==> WellCut(bytes, |original|, maximum, r.value, reader.told)
    ensures r.Ok? && r.value == AtEnd ==> reader.buffered == [] && Eof in reader.told
    ensures r.Err? ==> Failed(reader, bytes, |original|, maximum, r.error) && !Stops(bytes, |original|)
    ensures Polled(cancelled, polled, polls, if r.Err? then Some(r.error) else None)
    ensures old(reader.Dry()) ==> reader.Dry()
  {
    hide BufferedSourceReader.Conserves, SafeSuffix, ReadOn, Stops, NewlinesFrom;
    bytes, polls := original, polled;
    StartsReading(original);
    assert reader.taken + [] == reader.taken;
    assert original[..|original|] == original;
    var safe := SuffixIsSafe(bytes);
    if safe {
      return Ok(AtSafeSuffix), bytes, polls;
    }
    var newlines: nat := 0;
    while true
      invariant reader.Valid() && reader.inner.calls >= old(reader.inner.calls)
      invariant reader.inner.calls == old(reader.inner.calls) ==> |reader.buffered| <= |old(reader.buffered)|
      invariant original <= bytes && reader.taken == old(reader.taken) + bytes[|original|..]
      invariant old(reader.told) == reader.told
      invariant Grows(old(reader.inner.ends), reader.inner.ends, |old(reader.taken)|)
      invariant |bytes| <= |original| + maximum && ReadOn(bytes, |original|)
      invariant newlines < 2 && Counting(bytes, |original|, newlines)
      invariant polled <= polls && forall p | polled <= p < polls :: !cancelled(p)
      invariant old(reader.Dry()) ==> reader.Dry()
      decreases |original| + maximum - |bytes|
    {
      hide Counting;
      var last := bytes[|bytes| - 1];
      Counted(bytes, |original|, newlines);
      if last == LF {
        newlines := newlines + 1;
        if newlines >= 2 {
          return Ok(AtSafeSuffix), bytes, polls;
        }
      } else if !IsBoundaryWhitespace(last) {
        newlines := 0;
      }
      if |bytes| - |original| >= maximum {
        return Ok(AtCeiling), bytes, polls;
      }
      if cancelled(polls) {
        return Err(CancelledInBoundary), bytes, polls + 1;
      }
      polls := polls + 1;
      var next := reader.ReadByte();
      match next
      case Byte(b) =>
        OneMore(bytes, |original|, newlines, b);
        bytes := bytes + [b];
      case NoByte(Eof) =>
        return Ok(AtEnd), bytes, polls;
      case NoByte(Error(message)) =>
        return Err(BoundaryFailed(message)), bytes, polls;
      case NoByte(Continue) =>
        return Err(NoProgress), bytes, polls;
      case Overreported =>
        return Err(TooManyBytes), bytes, polls;
    }
  }

  ghost predicate LastTold(told: seq<Status>, status: Status) {
    told != [] && told[|told| - 1] == status
  }

  /** What the reader last said is what the issue is about. Cancellation is not its business. */
  ghost predicate Caused(reader: BufferedSourceReader, issue: Issue)
    reads reader, reader.inner
  {
    match issue
    case CancelledInBoundary => true
    case BoundaryFailed(message) => LastTold(reader.told, Error(message))
    case ReadFailed(message) => LastTold(reader.told, Error(message))
    case NoProgress => reader.inner.Stalled()
    case TooManyBytes => reader.inner.Oversized(BUFFERED_READER_CAPACITY)
  }

  /** Reading on failed short of the ceiling, and short of any place to stop. */
  ghost predicate Failed(reader: BufferedSourceReader, bytes: seq<byte>, nominal: nat, maximum: nat, issue: Issue)
    requires 0 < nominal
    reads reader, reader.inner
  {
    nominal <= |bytes| < nominal + maximum && ReadOn(bytes, nominal) && Caused(reader, issue) && !issue.ReadFailed?
  }

  /** The signal was clear at every poll, except at the last one when that is the issue. */
  ghost predicate Polled(cancelled: nat -> bool, polled: nat, polls: nat, issue: Option<Issue>) {
    var stopped := issue == Some(CancelledInBoundary);
    && polled <= polls && (stopped ==> polled < polls && cancelled(polls - 1))
    && forall p | polled <= p < polls :: cancelled(p) ==> stopped && p == polls - 1
  }

  lemma OneMore(bytes: seq<byte>, nominal: nat, newlines: nat, b: byte)
    requires 0 < nominal <= |bytes| && ReadOn(bytes, nominal) && !Stops(bytes, nominal)
    requires newlines == NewlinesFrom(bytes, nominal - 1)
    ensures ReadOn(bytes + [b], nominal) && Counting(bytes + [b], nominal, newlines)
  {
    hide SafeSuffix, NewlinesFrom;
    assert forall n | 0 <= n <= |bytes| :: (bytes + [b])[..n] == bytes[..n];
    assert bytes[..|bytes|] == bytes;
  }

  // ---------------------------------------------------------------------
  // Where reading on stops
  // ---------------------------------------------------------------------

  /** The line feeds at a text's end are those counted, and those in front when nothing but whitespace follows them. */
  lemma {:induction false} NewlinesSplit(bytes: seq<byte>, start: nat)
    requires start <= |bytes|
    ensures TrailingNewlines(bytes)
         == NewlinesFrom(bytes, start) + if BlankFrom(bytes, start) then TrailingNewlines(bytes[..start]) else 0
  {
    if |bytes| == start {
      assert bytes[..start] == bytes;
    } else {
      var n := |bytes| - 1;
      NewlinesSplit(bytes[..n], start);
      assert bytes[..n][..start] == bytes[..start];
      assert BlankFrom(bytes, start) <==> BlankFrom(bytes[..n], start) && IsBoundaryWhitespace(bytes[n]);
    }
  }

  lemma CountedIsSafe(bytes: seq<byte>, start: nat)
    requires NewlinesFrom(bytes, start) >= 2
    ensures SafeSuffix(bytes)
  {
    if start <= |bytes| {
      NewlinesSplit(bytes, start);
    }
  }

  /** The last line feed of a text is hidden behind other whitespace, where reading on does not count it. */
  predicate HiddenNewline(original: seq<byte>) {
    original != [] && TrailingNewlines(original) == 1 && original[|original| - 1] != LF
  }

  /** From text that is not safe to cut, reading on stops at the first safe place, unless a line feed is hidden. */
  lemma StopsWhereSafe(original: seq<byte>, more: seq<byte>)
    requires original != [] && !SafeSuffix(original) && !HiddenNewline(original)
    ensures Stops(original + more, |original|) <==> SafeSuffix(original + more)
  {
    var n, bytes := |original|, original + more;
    assert bytes[..n] == original && bytes[n - 1] == original[n - 1] && bytes[..n - 1] == original[..n - 1];
    NewlinesSplit(bytes, n - 1);
    if IsBoundaryWhitespace(original[n - 1]) {
      assert TrailingNewlines(original) == TrailingNewlines(original[..n - 1]) + Ones(original[n - 1]);
    }
  }

  /** From any other, a line feed right behind it makes a safe place that reading on goes past. */
  lemma HiddenPassed(original: seq<byte>)
    requires HiddenNewline(original)
    ensures SafeSuffix(original + [LF]) && !Stops(original + [LF], |original|)
  {
    var n, bytes := |original|, original + [LF];
    assert bytes[..n] == original && bytes[..n - 1] == original[..n - 1];
    assert NewlinesFrom(bytes, n - 1) == NewlinesFrom(original, n - 1) + 1;
    assert NewlinesFrom(original, n - 1) == NewlinesFrom(original[..n - 1], n - 1) == 0;
  }

  /** So it stops at the first safe place whatever follows if and only if no line feed is hidden. */
  lemma StopsWhereSafeExactly(original: seq<byte>)
    requires original != [] && !SafeSuffix(original)
    ensures (forall more :: Stops(original + more, |original|) <==> SafeSuffix(original + more))
            <==> !HiddenNewline(original)
  {
    if HiddenNewline(original) {
      HiddenPassed(original);
    } else {
      forall more
        ensures Stops(original + more, |original|) <==> SafeSuffix(original + more)
      {
        StopsWhereSafe(original, more);
      }
    }
  }

  /** The shortest text with a hidden line feed. */
  lemma LineFeedBlankLineFeed()
    ensures HiddenNewline([LF, 0x20]) && SafeSuffix([LF, 0x20] + [LF]) && !Stops([LF, 0x20] + [LF], 2)
  {
    var text: seq<byte> := [LF, 0x20];
    assert text[..1] == [LF] && [LF][..0] == [];
    assert TrailingNewlines([LF]) == 1;
    HiddenPassed(text);
  }

  // ---------------------------------------------------------------------
  // Visiting a file
  // ---------------------------------------------------------------------

  datatype Event =
    | Fragment(content: seq<byte>, startLine: nat, issue: Option<Issue>)
    | ErrorFragment(failure: Issue)
    | IssueOnly(failure: Issue)

  /** How the callback answers an event. */
  datatype Answer = Go | Halt | Fail

  datatype SourceError = Cancelled | Callback | Terminal

  datatype Control = GoOn | Stop

  /** Why a visit ended. */
  datatype Ending = Exhausted | EndReported | Skipped | Interrupted

  datatype Options = Options(chunkSize: nat, maxReadAhead: nat)

  /** All text emitted so far. */
  function Contents(events: seq<Event>): seq<byte> {
    if events == [] then []
    else
      var last := events[|events| - 1];
      Contents(events[..|events| - 1]) + if last.Fragment? then last.content else []
  }

  /** A fragment starts on the line behind the line feeds of the fragments before it. */
  ghost predicate WellNumbered(events: seq<Event>) {
    forall i | 0 <= i < |events| && events[i].Fragment? :: events[i].startLine == 1 + CountLf(Contents(events[..i]))
  }

  /**
   * How a fragment came about: its size before reading on, what was reported with it, where reading on stopped, and
   * all that had been reported by then.
   */
  datatype Trace = Trace(nominal: nat, status: Status, cut: Cut, told: seq<Status>)

  const NO_FRAGMENT: Trace := Trace(0, Continue, AtEnd, [])

  /** A fragment is well cut, and shows the error that came with it. */
  ghost predicate WellMade(event: Event, trace: Trace, options: Options, told: seq<Status>) {
    event.Fragment? ==>
      && trace.nominal <= options.chunkSize
      && WellCut(event.content, trace.nominal, options.maxReadAhead, trace.cut, trace.told)
      && trace.told <= told && (trace.status != Continue ==> trace.status in trace.told)
      && event.issue == if trace.status.Error? then Some(ReadFailed(trace.status.message)) else None
  }

  lemma FragmentToldLess(status: Status, told: seq<Status>, more: seq<Status>)
    requires told <= more && (status != Continue ==> LastTold(told, status))
    ensures status != Continue ==> status in more
  {
    assert status != Continue ==> more[|told| - 1] == told[|told| - 1];
  }

  /** `told` is what has been reported in all. */
  ghost predicate AllWellMade(events: seq<Event>, traces: seq<Trace>, options: Options, told: seq<Status>) {
    |traces| == |events| && forall i | 0 <= i < |events| :: WellMade(events[i], traces[i], options, told)
  }

  /** What a visit has emitted. */
  ghost predicate Sound(events: seq<Event>, traces: seq<Trace>, options: Options, told: seq<Status>) {
    WellNumbered(events) && AllWellMade(events, traces, options, told)
  }

  lemma MoreTold(events: seq<Event>, traces: seq<Trace>, options: Options, told: seq<Status>, more: seq<Status>)
    requires Sound(events, traces, options, told) && told <= more
    ensures Sound(events, traces, options, more)
  {
    hide WellCut;
    assert forall i | 0 <= i < |events| :: WellMade(events[i], traces[i], options, told);
  }

  /** A fragment that was cut at the end holds the last of what was delivered. */
  ghost predicate EndsHold(events: seq<Event>, traces: seq<Trace>, delivered: seq<byte>) {
    forall i | 0 <= i < |events| && i < |traces| && events[i].Fragment? && traces[i].cut == AtEnd ::
      Contents(events[..i + 1]) == delivered
  }

  ghost predicate SomeAtEnd(events: seq<Event>, traces: seq<Trace>) {
    exists i :: 0 <= i < |events| && i < |traces| && events[i].Fragment? && traces[i].cut == AtEnd
  }

  /** With an honest reader nothing comes behind a fragment that was cut at the end. */
  ghost predicate Ended(reader: BufferedSourceReader, events: seq<Event>, traces: seq<Trace>)
    reads reader, reader.inner
  {
    Honest(reader.inner.script) && SomeAtEnd(events, traces) ==>
      reader.Dry() && EndsHold(events, traces, reader.inner.delivered)
  }

  /** Emitting one more fragment. */
  lemma EmitFragment(
    events: seq<Event>, traces: seq<Trace>, options: Options, told: seq<Status>, event: Event, trace: Trace)
    requires Sound(events, traces, options, told) && WellMade(event, trace, options, told)
    requires event.Fragment? ==> event.startLine == 1 + CountLf(Contents(events))
    ensures |events| == |traces| && Sound(events + [event], traces + [trace], options, told)
    ensures Contents(events + [event]) == Contents(events) + if event.Fragment? then event.content else []
  {
    hide WellMade;
    var more := events + [event];
    assert more[..|events|] == events;
    forall i | 0 <= i < |more| && more[i].Fragment?
      ensures more[i].startLine == 1 + CountLf(Contents(more[..i]))
    {
      assert i < |events| ==> more[..i] == events[..i];
    }
  }

  lemma EndsKept(events: seq<Event>, traces: seq<Trace>, event: Event, trace: Trace, delivered: seq<byte>)
    requires |events| == |traces| && EndsHold(events, traces, delivered)
    requires event.Fragment? && trace.cut == AtEnd ==> Contents(events + [event]) == delivered
    ensures EndsHold(events + [event], traces + [trace], delivered)
    ensures SomeAtEnd(events + [event], traces + [trace]) ==>
              SomeAtEnd(events, traces) || (event.Fragment? && trace.cut == AtEnd)
  {
    hide Contents;
    var more := events + [event];
    assert more[..|events| + 1] == more;
    forall i | 0 <= i < |events| && events[i].Fragment? && traces[i].cut == AtEnd
      ensures Contents(more[..i + 1]) == delivered
    {
      assert more[..i + 1] == events[..i + 1];
    }
  }

  /** A fragment that has been cut, and the lines counted up to its end. */
  datatype Piece = Piece(bytes: seq<byte>, startLine: nat, totalLines: nat)

  datatype CutError = InBoundary(issue: Issue) | LineOverflow

  /** Every event but the last was answered with going on, and the result is what the last answer says. */
  ghost predicate Answered(events: seq<Event>, answers: nat -> Answer, r: Result<Control, SourceError>) {
    && (forall k | 0 <= k < |events| - 1 :: answers(k) == Go)
    && (r == Ok(Stop) <==> events != [] && answers(|events| - 1) == Halt)
    && (r == Err(Callback) <==> events != [] && answers(|events| - 1) == Fail)
  }

  /** Polls are answered no until the visit is cancelled, or a fragment is given up for it. */
  ghost predicate Quiet(
    cancelled: nat -> bool, polls: nat, events: seq<Event>, r: Result<Control, SourceError>)
  {
    && (r == Err(Cancelled) ==> polls > 0 && cancelled(polls - 1))
    && (LastEvent(events, ErrorFragment(CancelledInBoundary)) ==> polls > 1 && cancelled(polls - 2))
    && forall p | 0 <= p < polls && cancelled(p) ::
         p + 2 >= polls && (r == Err(Cancelled) || LastEvent(events, ErrorFragment(CancelledInBoundary)))
  }

  ghost predicate LastEvent(events: seq<Event>, event: Event) {
    events != [] && events[|events| - 1] == event
  }

  /** Why a visit ended as it did. */
  ghost predicate Justified(
    reader: BufferedSourceReader, options: Options, application: seq<byte> -> bool, events: seq<Event>,
    r: Result<Control, SourceError>, ending: Ending)
    requires Contents(events) <= reader.taken
    reads reader, reader.inner
  {
    && (ending != Interrupted ==> r == Ok(GoOn))
    && (events != [] && events[|events| - 1].ErrorFragment? ==> Caused(reader, events[|events| - 1].failure))
    && (events != [] && events[|events| - 1].IssueOnly? ==>
          events[|events| - 1].failure == TooManyBytes && reader.inner.Oversized(options.chunkSize))
    && (r == Err(Terminal) ==>
          |reader.taken| + options.maxReadAhead >= U64_BOUND || CountLf(reader.taken) + 1 >= U64_BOUND)
    && match ending
       case Exhausted =>
         Contents(events) == reader.inner.delivered && (LastTold(reader.told, Eof) || reader.inner.Stalled())
       case EndReported =>
         events != [] && events[|events| - 1].Fragment? && Contents(events) == reader.taken && Eof in reader.told
       case Skipped =>
         && CountLf(Contents(events)) == 0 && Contents(events) < reader.taken
         && application(reader.taken[|Contents(events)|..])
         && OneRead(|Contents(events)|, |reader.taken| - |Contents(events)|, options.chunkSize, reader.inner.ends)
       case Interrupted =>
         r.Err? || r.value == Stop || (events != [] && !events[|events| - 1].Fragment?)
  }

  ghost predicate AllGo(events: seq<Event>, answers: nat -> Answer) {
    forall k | 0 <= k < |events| :: answers(k) == Go && events[k].Fragment?
  }

  ghost predicate AllClear(cancelled: nat -> bool, polls: nat) {
    forall p | 0 <= p < polls :: !cancelled(p)
  }

  /**
   * A fragment starts with what one read gave. Up to the first line feed, nothing is emitted that starts with
   * application content.
   */
  ghost predicate FromReads(
    events: seq<Event>, traces: seq<Trace>, options: Options, application: seq<byte> -> bool, ends: set<nat>)
  {
    |traces| == |events| && forall i | 0 <= i < |events| && events[i].Fragment? ::
      FromRead(Contents(events[..i]), events[i].content, traces[i].nominal, options, application, ends)
  }

  ghost predicate FromRead(
    earlier: seq<byte>, content: seq<byte>, nominal: nat, options: Options, application: seq<byte> -> bool,
    ends: set<nat>)
  {
    && OneRead(|earlier|, nominal, options.chunkSize, ends) && nominal <= |content|
    && (CountLf(earlier) == 0 ==> !application(content[..nominal]))
  }

  lemma FromReadsKept(
    events: seq<Event>, traces: seq<Trace>, options: Options, application: seq<byte> -> bool, ends: set<nat>,
    event: Event, trace: Trace)
    requires FromReads(events, traces, options, application, ends)
    requires event.Fragment? ==> FromRead(Contents(events), event.content, trace.nominal, options, application, ends)
    ensures FromReads(events + [event], traces + [trace], options, application, ends)
  {
    hide Contents, FromRead;
    var more := events + [event];
    assert forall i | 0 <= i <= |events| :: more[..i] == events[..i];
    assert events[..|events|] == events;
  }

  lemma FromReadsLater(
    events: seq<Event>, traces: seq<Trace>, options: Options, application: seq<byte> -> bool, before: set<nat>,
    after: set<nat>, taken: nat)
    requires FromReads(events, traces, options, application, before) && Grows(before, after, taken)
    requires |Contents(events)| <= taken
    ensures FromReads(events, traces, options, application, after)
  {
    hide Contents, Grows, OneRead;
    forall i | 0 <= i < |events| && events[i].Fragment?
      ensures FromRead(Contents(events[..i]), events[i].content, traces[i].nominal, options, application, after)
    {
      ContentsFrom(events, i);
      OneReadStill(|Contents(events[..i])|, traces[i].nominal, options.chunkSize, before, after, taken);
    }
  }

  lemma NothingGrown(ends: set<nat>, taken: nat)
    ensures Grows(ends, ends, taken)
  {
  }

  lemma ReadIsKept(
    earlier: seq<byte>, original: seq<byte>, bytes: seq<byte>, options: Options, application: seq<byte> -> bool,
    before: set<nat>, after: set<nat>)
    requires OneRead(|earlier|, |original|, options.chunkSize, before) && Grows(before, after, |earlier + original|)
    requires original <= bytes && (CountLf(earlier) == 0 ==> !application(original))
    ensures FromRead(earlier, bytes, |original|, options, application, after)
  {
    hide CountLf, OneRead, Grows;
    OneReadStill(|earlier|, |original|, options.chunkSize, before, after, |earlier + original|);
    assert bytes[..|original|] == original;
  }

  lemma {:induction false} ContentsFrom(events: seq<Event>, i: nat)
    requires i < |events| && events[i].Fragment?
    ensures |Contents(events[..i])| + |events[i].content| <= |Contents(events)|
  {
    if i < |events| - 1 {
      ContentsFrom(events[..|events| - 1], i);
      assert events[..|events| - 1][..i] == events[..i];
    }
  }

  /** What was taken and not emitted starts, like a fragment, with what one read gave. */
  ghost predicate Started(
    reader: BufferedSourceReader, options: Options, application: seq<byte> -> bool, events: seq<Event>)
    reads reader, reader.inner
  {
    Contents(events) < reader.taken ==>
      exists n: nat ::
        FromRead(
          Contents(events), reader.taken[|Contents(events)|..], n, options, application, reader.inner.ends)
  }

  lemma ReadStarted(
    reader: BufferedSourceReader, options: Options, application: seq<byte> -> bool, events: seq<Event>,
    original: seq<byte>, before: set<nat>)
    requires Contents(events) + original <= reader.taken
    requires OneRead(|Contents(events)|, |original|, options.chunkSize, before)
    requires Grows(before, reader.inner.ends, |Contents(events) + original|)
    requires CountLf(Contents(events)) == 0 ==> !application(original)
    ensures Started(reader, options, application, events)
  {
    hide Contents, CountLf, OneRead, Grows, FromRead;
    var earlier := Contents(events);
    var rest := reader.taken[|earlier|..];
    assert rest[..|original|] == reader.taken[..|earlier + original|][|earlier|..] == original;
    ReadIsKept(earlier, original, rest, options, application, before, reader.inner.ends);
  }

  lemma StartedStill(
    reader: BufferedSourceReader, options: Options, application: seq<byte> -> bool, events: seq<Event>, event: Event)
    requires Started(reader, options, application, events) && !event.Fragment?
    ensures Started(reader, options, application, events + [event])
  {
    hide FromRead;
    assert (events + [event])[..|events|] == events;
    assert Contents(events + [event]) == Contents(events);
  }

  /** How a visit stands between two reads. */
  ghost predicate Going(
    reader: BufferedSourceReader, options: Options, application: seq<byte> -> bool, cancelled: nat -> bool,
    answers: nat -> Answer, events: seq<Event>, polls: nat, traces: seq<Trace>)
    reads reader, reader.inner
  {
    && FromReads(events, traces, options, application, reader.inner.ends)
    && reader.Valid() && Sound(events, traces, options, reader.told) && Contents(events) == reader.taken
    && AllGo(events, answers) && AllClear(cancelled, polls) && Ended(reader, events, traces)
  }

  /** What a visit has done when it ends, and why it ended. */
  ghost predicate Finished(
    reader: BufferedSourceReader, options: Options, application: seq<byte> -> bool, cancelled: nat -> bool,
    answers: nat -> Answer, events: seq<Event>, r: Result<Control, SourceError>, polls: nat, traces: seq<Trace>,
    ending: Ending)
    reads reader, reader.inner
  {
    && FromReads(events, traces, options, application, reader.inner.ends)
    && reader.Valid() && Sound(events, traces, options, reader.told)
    && Contents(events) <= reader.taken <= reader.inner.delivered
    && Justified(reader, options, application, events, r, ending)
    && Answered(events, answers, r) && Quiet(cancelled, polls, events, r)
    && (ending == EndReported && Honest(reader.inner.script) ==> Contents(events) == reader.inner.delivered)
    && Ended(reader, events, traces) && (ending != Skipped ==> Started(reader, options, application, events))
  }

  class FileSource {
    const reader: BufferedSourceReader
    const options: Options

    constructor (reader: BufferedSourceReader, options: Options)
      requires options.chunkSize > 0
      ensures this.reader == reader && this.options == options
    {
      this.reader, this.options := reader, options;
    }

    /** Reads on to a boundary and numbers the fragment. `earlier` is the text of the fragments before it. */
    method CutFragment(
      original: seq<byte>, totalLines: nat, cancelled: nat -> bool, polled: nat, ghost earlier: seq<byte>)
      returns (r: Result<Piece, CutError>, polls: nat, ghost cut: Cut)
      requires reader.Valid() && original != []
      requires reader.taken == earlier + original && totalLines == CountLf(earlier)
      modifies reader, reader.inner
      ensures reader.Valid() && reader.inner.calls >= old(reader.inner.calls)
      ensures earlier <= reader.taken && earlier + original <= reader.taken
      ensures reader.inner.calls == old(reader.inner.calls) ==> |reader.buffered| <= |old(reader.buffered)|
      ensures old(reader.told) <= reader.told && (old(reader.Dry()) ==> reader.Dry())
      ensures Grows(old(reader.inner.ends), reader.inner.ends, |earlier + original|)
      ensures r.Ok? ==>
                && original <= r.value.bytes
                && reader.taken == earlier + r.value.bytes
                && WellCut(r.value.bytes, |original|, options.maxReadAhead, cut, reader.told)
                && r.value.startLine == 1 + CountLf(earlier) && r.value.totalLines == CountLf(reader.taken)
                && (cut == AtEnd ==> reader.buffered == [] && Eof in reader.told)
      ensures r == Err(LineOverflow) ==> CountLf(reader.taken) + 1 >= U64_BOUND
      ensures r.Err? && r.error.InBoundary? ==> Caused(reader, r.error.issue)
      ensures Polled(cancelled, polled, polls, if r.Err? && r.error.InBoundary? then Some(r.error.issue) else None)
    {
      hide WellCut, CountLf, BufferedSourceReader.Conserves, Stops, ReadOn, Caused, Polled;
      var boundary, bytes;
      boundary, bytes, polls := ReadUntilSafeBoundary(reader, original, options.maxReadAhead, cancelled, polled);
      cut := if boundary.Ok? then boundary.value else AtEnd;
      assert bytes == original + bytes[|original|..];
      assert reader.taken == earlier + bytes;
      if boundary.Err? {
        return Err(InBoundary(boundary.error)), polls, cut;
      }
      CountLfAppend(earlier, bytes);
      if totalLines + 1 >= U64_BOUND {
        return Err(LineOverflow), polls, cut;
      }
      var lines := CountLines(bytes);
      if totalLines + lines >= U64_BOUND {
        return Err(LineOverflow), polls, cut;
      }
      r := Ok(Piece(bytes, totalLines + 1, totalLines + lines));
    }

    /**
     * The part of a visit behind a read that gave bytes: the checks in front of a fragment, and the fragment itself.
     */
    method VisitPiece(
      outcome: ReadOutcome, application: seq<byte> -> bool, cancelled: nat -> bool, answers: nat -> Answer,
      before: seq<Event>, polled: nat, lines: nat, ghost earlier: seq<Trace>)
      returns (
        done: bool, events: seq<Event>, r: Result<Control, SourceError>, polls: nat, totalLines: nat,
        ghost traces: seq<Trace>, ghost ending: Ending)
      requires reader.Valid() && Sound(before, earlier, options, reader.told) && AllGo(before, answers)
      requires FromReads(before, earlier, options, application, reader.inner.ends)
      requires 0 < outcome.count == |outcome.bytes| <= options.chunkSize
      requires OneRead(|Contents(before)|, outcome.count, options.chunkSize, reader.inner.ends)
      requires reader.taken == Contents(before) + outcome.bytes && lines == CountLf(Contents(before))
      requires outcome.status != Continue ==> LastTold(reader.told, outcome.status) && reader.buffered == []
      requires AllClear(cancelled, polled) && !(Honest(reader.inner.script) && SomeAtEnd(before, earlier))
      modifies reader, reader.inner
      ensures reader.inner.calls >= old(reader.inner.calls)
      ensures reader.inner.calls == old(reader.inner.calls) ==> |reader.buffered| <= |old(reader.buffered)|
      ensures done ==> Finished(reader, options, application, cancelled, answers, events, r, polls, traces, ending)
      ensures !done ==>
                && Going(reader, options, application, cancelled, answers, events, polls, traces)
                   && totalLines == CountLf(reader.taken)
    {
      hide Sound, WellMade, Honest, CountLf, Contents, BufferedSourceReader.Conserves, EndsHold, SomeAtEnd;
      hide WellCut, Stops, ReadOn, SafeSuffix, FromReads, FromRead, Grows, OneRead, Started;
      Delivered(reader);
      EndDry(reader);
      done, events, polls, totalLines, traces, ending := true, before, polled, lines, earlier, Interrupted;
      assert reader.taken[|Contents(events)|..] == outcome.bytes;
      if totalLines == 0 && application(outcome.bytes) {
        r, ending := Ok(GoOn), Skipped;
        return;
      }
      if outcome.count + options.maxReadAhead >= U64_BOUND {
        r := Err(Terminal);
        NothingGrown(reader.inner.ends, |Contents(events) + outcome.bytes|);
        ReadStarted(reader, options, application, events, outcome.bytes, reader.inner.ends);
        return;
      }
      ghost var told, ends := reader.told, reader.inner.ends;
      var piece;
      ghost var cut;
      piece, polls, cut := CutFragment(outcome.bytes, totalLines, cancelled, polls, Contents(events));
      Delivered(reader);
      MoreTold(events, traces, options, told, reader.told);
      FromReadsLater(
        events, traces, options, application, ends, reader.inner.ends, |Contents(events) + outcome.bytes|);
      if piece.Err? {
        ReadStarted(reader, options, application, events, outcome.bytes, ends);
        events, r, polls, traces :=
          FailPiece(piece.error, application, cancelled, answers, events, polled, polls, traces);
        return;
      }
      totalLines := piece.value.totalLines;
      FragmentToldLess(outcome.status, told, reader.told);
      ReadIsKept(
        Contents(events), outcome.bytes, piece.value.bytes, options, application, ends, reader.inner.ends);
      done, events, r, traces, ending :=
        EmitPiece(piece.value, outcome.count, outcome.status, application, cancelled, answers, events, polls, traces,
          cut);
    }

    /** Ends a visit for which a fragment could not be cut. */
    method FailPiece(
      error: CutError, ghost application: seq<byte> -> bool, cancelled: nat -> bool, answers: nat -> Answer,
      before: seq<Event>, ghost polled: nat, pollsBefore: nat, ghost earlier: seq<Trace>)
      returns (events: seq<Event>, r: Result<Control, SourceError>, polls: nat, ghost traces: seq<Trace>)
      requires reader.Valid() && Sound(before, earlier, options, reader.told) && AllGo(before, answers)
      requires FromReads(before, earlier, options, application, reader.inner.ends)
      requires Contents(before) <= reader.taken && AllClear(cancelled, polled)
      requires !(Honest(reader.inner.script) && SomeAtEnd(before, earlier))
      requires Started(reader, options, application, before)
      requires error == LineOverflow ==> CountLf(reader.taken) + 1 >= U64_BOUND
      requires error.InBoundary? ==> Caused(reader, error.issue)
      requires Polled(cancelled, polled, pollsBefore, if error.InBoundary? then Some(error.issue) else None)
      ensures Finished(reader, options, application, cancelled, answers, events, r, polls, traces, Interrupted)
    {
      hide Sound, WellMade, Honest, CountLf, Contents, BufferedSourceReader.Conserves, EndsHold, SomeAtEnd;
      hide FromReads, Caused, Started;
      Delivered(reader);
      events, polls, traces := before, pollsBefore, earlier;
      if error.LineOverflow? {
        r := Err(Terminal);
        return;
      }
      polls := polls + 1;
      if cancelled(polls - 1) {
        r := Err(Cancelled);
        return;
      }
      events, r, traces :=
        Announce(ErrorFragment(error.issue), application, cancelled, answers, events, polls, traces);
    }

    /** Ends a visit with an event that is no fragment. */
    method Announce(
      event: Event, ghost application: seq<byte> -> bool, ghost cancelled: nat -> bool, answers: nat -> Answer,
      before: seq<Event>, ghost polls: nat, ghost earlier: seq<Trace>)
      returns (events: seq<Event>, r: Result<Control, SourceError>, ghost traces: seq<Trace>)
      requires reader.Valid() && Sound(before, earlier, options, reader.told) && AllGo(before, answers)
      requires FromReads(before, earlier, options, application, reader.inner.ends)
      requires Contents(before) <= reader.taken && Ended(reader, before, earlier)
      requires Started(reader, options, application, before)
      requires event.ErrorFragment? ==> Caused(reader, event.failure)
      requires event.IssueOnly? ==> event.failure == TooManyBytes && reader.inner.Oversized(options.chunkSize)
      requires !event.Fragment? && Quiet(cancelled, polls, [event], Ok(GoOn))
      ensures Finished(reader, options, application, cancelled, answers, events, r, polls, traces, Interrupted)
    {
      hide Sound, WellMade, Honest, Contents, CountLf, WellCut, EndsHold, SomeAtEnd, Caused, Started;
      hide BufferedSourceReader.Conserves;
      Delivered(reader);
      NoFragmentMade(event, options, reader.told);
      EmitFragment(before, earlier, options, reader.told, event, NO_FRAGMENT);
      FromReadsKept(before, earlier, options, application, reader.inner.ends, event, NO_FRAGMENT);
      EndedKept(reader, before, earlier, event);
      StartedStill(reader, options, application, before, event);
      r := Emit(answers(|before|));
      events, traces := before + [event], earlier + [NO_FRAGMENT];
    }

    /** Emits a fragment that has been cut. `done` says that nothing is read behind it. */
    method EmitPiece(
      piece: Piece, ghost nominal: nat, status: Status, ghost application: seq<byte> -> bool,
      ghost cancelled: nat -> bool, answers: nat -> Answer, before: seq<Event>, ghost polls: nat,
      ghost earlier: seq<Trace>, ghost cut: Cut)
      returns (
        done: bool, events: seq<Event>, r: Result<Control, SourceError>, ghost traces: seq<Trace>, ghost ending: Ending)
      requires reader.Valid() && Sound(before, earlier, options, reader.told) && AllGo(before, answers)
      requires FromReads(before, earlier, options, application, reader.inner.ends)
      requires reader.taken == Contents(before) + piece.bytes && piece.startLine == 1 + CountLf(Contents(before))
      requires nominal <= options.chunkSize && WellCut(piece.bytes, nominal, options.maxReadAhead, cut, reader.told)
      requires cut == AtEnd ==> reader.buffered == [] && Eof in reader.told
      requires FromRead(Contents(before), piece.bytes, nominal, options, application, reader.inner.ends)
      requires status != Continue ==> status in reader.told
      requires status == Eof && Honest(reader.inner.script) ==> reader.Dry()
      requires AllClear(cancelled, polls) && !(Honest(reader.inner.script) && SomeAtEnd(before, earlier))
      ensures done ==> Finished(reader, options, application, cancelled, answers, events, r, polls, traces, ending)
      ensures !done ==> Going(reader, options, application, cancelled, answers, events, polls, traces)
    {
      hide Sound, Honest, CountLf, Contents, BufferedSourceReader.Conserves, EndsHold, SomeAtEnd;
      hide WellCut, Stops, ReadOn, SafeSuffix, FromReads, FromRead;
      Delivered(reader);
      var issue := if status.Error? then Some(ReadFailed(status.message)) else None;
      var fragment := Fragment(piece.bytes, piece.startLine, issue);
      ghost var trace := Trace(nominal, status, cut, reader.told);
      r := Emit(answers(|before|));
      EmitFragment(before, earlier, options, reader.told, fragment, trace);
      FromReadsKept(before, earlier, options, application, reader.inner.ends, fragment, trace);
      CutAtEnd(reader, before, earlier, fragment, trace);
      events, traces, ending, done := before + [fragment], earlier + [trace], Interrupted, true;
      if r.Err? {
        return;
      }
      if r.value == Stop {
        return;
      }
      if status == Eof {
        ending := EndReported;
        return;
      }
      done := false;
    }

    /** Ends a visit behind a read that gave no bytes, or claims more than were asked for. */
    method EndWithout(
      outcome: ReadOutcome, ghost application: seq<byte> -> bool, ghost cancelled: nat -> bool, answers: nat -> Answer,
      before: seq<Event>, ghost polls: nat, ghost earlier: seq<Trace>)
      returns (events: seq<Event>, r: Result<Control, SourceError>, ghost traces: seq<Trace>, ghost ending: Ending)
      requires Going(reader, options, application, cancelled, answers, before, polls, earlier)
      requires outcome.count > options.chunkSize || outcome.count == 0
      requires outcome.count > options.chunkSize ==> reader.inner.Oversized(options.chunkSize)
      requires outcome.count == 0 && outcome.status.Error? ==> Caused(reader, ReadFailed(outcome.status.message))
      requires outcome.count == 0 && !outcome.status.Error? ==>
                 Justified(reader, options, application, before, Ok(GoOn), Exhausted)
      ensures Finished(reader, options, application, cancelled, answers, events, r, polls, traces, ending)
    {
      hide Sound, Honest, Contents, BufferedSourceReader.Conserves, EndsHold, SomeAtEnd, Caused;
      events, traces, ending := before, earlier, Interrupted;
      Delivered(reader);
      if outcome.count > options.chunkSize {
        events, r, traces := Announce(IssueOnly(TooManyBytes), application, cancelled, answers, events, polls, traces);
        return;
      }
      if outcome.status.Error? {
        var failed := ErrorFragment(ReadFailed(outcome.status.message));
        events, r, traces := Announce(failed, application, cancelled, answers, events, polls, traces);
        return;
      }
      r, ending := Ok(GoOn), Exhausted;
    }

    /** Looks at the signal, reads, and deals with what was read: at most one fragment, or the end of the visit. */
    method VisitOnce(
      application: seq<byte> -> bool, cancelled: nat -> bool, answers: nat -> Answer, before: seq<Event>, polled: nat,
      lines: nat, ghost earlier: seq<Trace>)
      returns (
        done: bool, events: seq<Event>, r: Result<Control, SourceError>, polls: nat, totalLines: nat,
        ghost traces: seq<Trace>, ghost ending: Ending)
      requires options.chunkSize > 0 && Going(reader, options, application, cancelled, answers, before, polled, earlier)
      requires lines == CountLf(reader.taken)
      modifies reader, reader.inner
      ensures done ==> Finished(reader, options, application, cancelled, answers, events, r, polls, traces, ending)
      ensures !done ==>
                && Going(reader, options, application, cancelled, answers, events, polls, traces)
                   && totalLines == CountLf(reader.taken)
                && reader.inner.calls >= old(reader.inner.calls)
                && (reader.inner.calls > old(reader.inner.calls) || |reader.buffered| < old(|reader.buffered|))
    {
      hide Sound, Honest, CountLf, Contents, BufferedSourceReader.Conserves, EndsHold, SomeAtEnd, WellMade;
      hide WellNumbered;
      hide Stops, ReadOn, ScriptedReader.Valid, ScriptedReader.Oversized, ScriptedReader.Stalled;
      hide FromReads, Grows, OneRead;
      done, events, polls, totalLines, traces, ending := true, before, polled, lines, earlier, Interrupted;
      Delivered(reader);
      polls := polls + 1;
      if cancelled(polls - 1) {
        r := Err(Cancelled);
        return;
      }
      ghost var told, delivered, ends := reader.told, reader.inner.delivered, reader.inner.ends;
      ghost var over := Honest(reader.inner.script) && SomeAtEnd(events, traces);
      var outcome := reader.Read(options.chunkSize);
      Delivered(reader);
      assert over ==> outcome.count == 0 && reader.inner.delivered == delivered;
      MoreTold(events, traces, options, told, reader.told);
      FromReadsLater(events, traces, options, application, ends, reader.inner.ends, |Contents(events)|);
      if outcome.count > options.chunkSize || outcome.count == 0 {
        events, r, traces, ending := EndWithout(outcome, application, cancelled, answers, events, polls, traces);
        return;
      }
      done, events, r, polls, totalLines, traces, ending :=
        VisitPiece(outcome, application, cancelled, answers, events, polls, totalLines, traces);
    }

    /**
     * Emits the file as fragments. What is emitted is a prefix of what the inner reader delivered, and all of it when
     * the visit runs to the end of the input. `polls` counts how often the signal was looked at.
     */
    method Visit(application: seq<byte> -> bool, cancelled: nat -> bool, answers: nat -> Answer)
      returns (events: seq<Event>, r: Result<Control, SourceError>, polls: nat, ghost traces: seq<Trace>,
        ghost ending: Ending)
      requires reader.Valid() && reader.taken == [] && options.chunkSize > 0
      modifies reader, reader.inner
      ensures Finished(reader, options, application, cancelled, answers, events, r, polls, traces, ending)
    {
      Delivered(reader);
      var totalLines: nat := 0;
      events, polls, traces, ending := [], 0, [], Interrupted;
      NothingEmitted(reader, options);
      assert Going(reader, options, application, cancelled, answers, events, polls, traces)
             && CountLf(reader.taken) == 0;
      hide Going, Finished, CountLf;
      while true
        invariant Going(reader, options, application, cancelled, answers, events, polls, traces)
                  && totalLines == CountLf(reader.taken)
        decreases |reader.inner.script| - reader.inner.calls, |reader.buffered|
      {
        CallsLeft(application, cancelled, answers, events, polls, traces);
        var done;
        done, events, r, polls, totalLines, traces, ending :=
          VisitOnce(application, cancelled, answers, events, polls, totalLines, traces);
        if done {
          return;
        }
      }
    }

    lemma CallsLeft(
      application: seq<byte> -> bool, cancelled: nat -> bool, answers: nat -> Answer, events: seq<Event>, polls: nat,
      traces: seq<Trace>)
      requires Going(reader, options, application, cancelled, answers, events, polls, traces)
      ensures reader.inner.calls <= |reader.inner.script|
    {
      hide Sound, Honest, Contents;
      Delivered(reader);
    }
  }

  lemma EndDry(reader: BufferedSourceReader)
    requires reader.Valid()
    ensures Honest(reader.inner.script) && Eof in reader.told && reader.buffered == [] ==> reader.Dry()
  {
    hide Honest;
    if Honest(reader.inner.script) && Eof in reader.told {
      EndIsDry(reader.inner);
    }
  }

  lemma CutAtEnd(
    reader: BufferedSourceReader, events: seq<Event>, traces: seq<Trace>, fragment: Event, trace: Trace)
    requires reader.Valid() && |events| == |traces| && fragment.Fragment?
    requires !(Honest(reader.inner.script) && SomeAtEnd(events, traces))
    requires Contents(events + [fragment]) == reader.taken
    requires trace.cut == AtEnd ==> reader.buffered == [] && Eof in reader.told
    ensures Ended(reader, events + [fragment], traces + [trace])
  {
    hide Honest;
    EndDry(reader);
    Delivered(reader);
    if Honest(reader.inner.script) {
      assert EndsHold(events, traces, reader.inner.delivered);
      EndsKept(events, traces, fragment, trace, reader.inner.delivered);
    }
  }

  lemma NoFragmentMade(event: Event, options: Options, told: seq<Status>)
    requires !event.Fragment?
    ensures WellMade(event, NO_FRAGMENT, options, told)
  {
  }

  lemma EndedKept(reader: BufferedSourceReader, events: seq<Event>, traces: seq<Trace>, event: Event)
    requires |events| == |traces| && Ended(reader, events, traces) && !event.Fragment?
    ensures Ended(reader, events + [event], traces + [NO_FRAGMENT])
  {
    hide Honest;
    if Honest(reader.inner.script) {
      assert EndsHold(events, traces, reader.inner.delivered);
      EndsKept(events, traces, event, NO_FRAGMENT, reader.inner.delivered);
    }
  }

  lemma NothingEmitted(reader: BufferedSourceReader, options: Options)
    ensures Sound([], [], options, reader.told) && Contents([]) == [] && CountLf([]) == 0 && Ended(reader, [], [])
  {
  }

  lemma Delivered(reader: BufferedSourceReader)
    requires reader.Valid()
    ensures reader.taken <= reader.inner.delivered
    ensures reader.buffered == [] ==> reader.taken == reader.inner.delivered
    ensures reader.inner.Valid() && reader.told <= reader.inner.reported
  {
  }

  /** The callback's answer, as the visit passes it on. */
  function Emit(answer: Answer): Result<Control, SourceError> {
    match answer
    case Go => Ok(GoOn)
    case Halt => Ok(Stop)
    case Fail => Err(Callback)
  }
}
