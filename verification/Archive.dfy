/** Walking through nested archives under limits on depth, entries and bytes. */
module Archives {
  import opened ArchiveLog
  import opened ArchiveTrees
  import opened Common
  import opened TarFormat

  /** How often the world was asked something, and how much was done. */
  datatype Marks = Marks(polls: nat, events: nat, plains: nat, steps: nat) {
    predicate NotAfter(later: Marks) {
      polls <= later.polls && events <= later.events && plains <= later.plains && steps <= later.steps
    }
  }

  /** What comes behind a header of a TAR file. */
  datatype TarOutcome = AtEnd | Halted | Next(offset: nat)

  class ArchiveState {
    const w: World
    const limits: Limits
    var entries: nat
    var expanded: nat
    var polls: nat
    var events: nat
    var plains: nat
    /** The bytes and entries that were accepted, and all that was done. */
    ghost var accepted: nat
    ghost var acceptedEntries: nat
    ghost var log: seq<Step>

    /**
     * What every step keeps. The counters also count what is refused, but once they are over their limit nothing more
     * is accepted, so what is accepted stays within the limits. No more is looked at and handed on than was accepted,
     * containers are opened below the depth limit only, and nothing that was done is made up.
     */
    ghost predicate Valid()
      reads `expanded, `entries, `accepted, `acceptedEntries, `events, `log
    {
      && expanded < U64_BOUND && entries < U64_BOUND
      && accepted <= limits.totalBytes && accepted <= expanded
      && (expanded <= limits.totalBytes ==> accepted == expanded)
      && acceptedEntries <= limits.entries && acceptedEntries <= entries
      && (entries <= limits.entries ==> acceptedEntries == entries)
      && HandedBytes(log) <= accepted && SeenCount(log) <= acceptedEntries && IssueCount(log) == events
      && Below(log, limits.depth) && Grounded(w, limits, Counted(), log)
    }

    function Counted(): Counts
      reads `entries, `expanded
    {
      Counts(entries, expanded)
    }

    constructor (w: World, limits: Limits)
      ensures Valid() && this.w == w && this.limits == limits && entries == expanded == 0 && log == []
      ensures polls == events == plains == 0
    {
      this.w, this.limits := w, limits;
      entries, expanded, polls, events, plains := 0, 0, 0, 0, 0;
      accepted, acceptedEntries, log := 0, 0, [];
    }

    /** The entries accepted but not looked at yet. */
    ghost function Slack(): int
      reads `acceptedEntries, `log
    {
      acceptedEntries - SeenCount(log)
    }

    lemma NothingOwed()
      requires Valid()
      ensures Slack() >= 0
    {
    }

    ghost function Now(): Marks
      reads `polls, `events, `plains, `log
    {
      Marks(polls, events, plains, |log|)
    }

    /** Nothing that was counted or done is taken back. */
    twostate predicate Grows()
      reads this
    {
      && old(log) <= log && old(Now()).NotAfter(Now())
      && accepted >= old(accepted) && acceptedEntries >= old(acceptedEntries)
      && entries >= old(entries) && expanded >= old(expanded)
    }

    /** What was done since. */
    twostate function New(): seq<Step>
      requires old(log) <= log
      reads this
    {
      log[|old(log)|..]
    }

    /**
     * Somebody said `r` since the given time: a poll of the signal, the callback's answer to an issue, a plain file
     * source, or a decoder or parser of a container that was opened since.
     */
    ghost predicate Said(from: Marks, r: Result<Control, SourceError>)
      reads `polls, `events, `plains, `log
    {
      || (r == Err(Cancelled) && exists p :: from.polls <= p < polls && w.cancelled(p))
      || (exists k :: from.events <= k < events && w.answers(k) == r)
      || (exists k :: from.plains <= k < plains && w.plain(k) == r)
      || (exists i :: from.steps <= i < |log| && ContainerSays(log[i], r))
    }

    ghost predicate ContainerSays(step: Step, r: Result<Control, SourceError>) {
      step.Unpacked? && EndsItself(w, limits, step.box, r)
    }

    /** A walk goes on, or somebody said since it began what it ends with. */
    ghost predicate Reasonable(from: Marks, r: Result<Control, SourceError>)
      reads `polls, `events, `plains, `log
    {
      r == Ok(GoOn) || Said(from, r)
    }

    lemma Sooner(from: Marks, later: Marks, r: Result<Control, SourceError>)
      requires from.NotAfter(later)
      ensures Said(later, r) ==> Said(from, r)
      ensures Reasonable(later, r) ==> Reasonable(from, r)
    {
      hide ContainerSays;
    }

    method IsCancelled() returns (cancelled: bool)
      modifies this`polls
      ensures cancelled == w.cancelled(old(polls)) && polls == old(polls) + 1
      ensures cancelled ==> Said(old(Now()), Err(Cancelled))
    {
      cancelled, polls := w.cancelled(polls), polls + 1;
    }

    /** Tells the callback about something that holds. */
    method EmitIssue(ghost depth: nat, ghost issue: Issue) returns (r: Result<Control, SourceError>)
      requires Valid() && Founded(w, limits, Counted(), log, Reported(depth, issue))
      modifies this`events, this`log
      ensures Valid() && Slack() == old(Slack()) && log == old(log) + [Reported(depth, issue)]
      ensures r == w.answers(old(events)) && events == old(events) + 1 && Said(old(Now()), r)
    {
      hide HandedBytes, SeenCount, IssueCount, Below, Grounded, Founded, ContainerSays;
      AddStep(log, Reported(depth, issue));
      AddBelow(log, Reported(depth, issue), limits.depth);
      AddFounded(w, limits, Counted(), log, Reported(depth, issue));
      log := log + [Reported(depth, issue)];
      r, events := w.answers(events), events + 1;
    }

    /** Hands data on as a plain file. It must have been accepted before, and not been handed on yet. */
    method PlainSource(data: seq<byte>) returns (r: Result<Control, SourceError>)
      requires Valid() && HandedBytes(log) + |data| <= accepted && Founded(w, limits, Counted(), log, Handed(data))
      modifies this`plains, this`log
      ensures Valid() && Slack() == old(Slack()) && log == old(log) + [Handed(data)]
      ensures r == w.plain(old(plains)) && plains == old(plains) + 1 && Said(old(Now()), r)
    {
      hide HandedBytes, SeenCount, IssueCount, Below, Grounded, Founded, ContainerSays;
      AddStep(log, Handed(data));
      AddBelow(log, Handed(data), limits.depth);
      AddFounded(w, limits, Counted(), log, Handed(data));
      log := log + [Handed(data)];
      r, plains := w.plain(plains), plains + 1;
    }

    /** Counts bytes, and accepts them if they fit the limits. Bytes that only exceed the total stay counted. */
    method Account(bytes: nat) returns (accepts: bool)
      requires Valid()
      modifies this`expanded, this`accepted
      ensures Valid()
      ensures accepts <==> bytes <= limits.memberBytes && old(expanded) + bytes <= limits.totalBytes
      ensures accepts == Fit(limits, old(Counted()), bytes) && accepted == old(accepted) + if accepts then bytes else 0
      ensures accepts ==> HandedBytes(log) + bytes <= accepted
      ensures expanded == old(expanded) +
                          if bytes <= limits.memberBytes && old(expanded) + bytes < U64_BOUND then bytes else 0
    {
      hide HandedBytes, SeenCount, IssueCount, Below, Grounded, Founded;
      if bytes > limits.memberBytes {
        return false;
      }
      if expanded + bytes >= U64_BOUND {
        return false;
      }
      GroundedLater(w, limits, Counted(), Counts(entries, expanded + bytes), log);
      expanded := expanded + bytes;
      if expanded > limits.totalBytes {
        return false;
      }
      accepted := accepted + bytes;
      accepts := true;
    }

    /** Counts entries, and accepts them if the count is within its limit. */
    method BumpEntry() returns (accepts: bool)
      requires Valid()
      modifies this`entries, this`acceptedEntries
      ensures Valid()
      ensures accepts <==> old(entries) + 1 <= limits.entries
      ensures acceptedEntries == old(acceptedEntries) + (if accepts then 1 else 0) && entries >= old(entries)
      ensures Slack() == old(Slack()) + (if accepts then 1 else 0) && (accepts ==> Slack() > 0)
      ensures !accepts ==> entries + 1 > limits.entries
    {
      hide HandedBytes, SeenCount, IssueCount, Below, Grounded, Founded;
      if entries + 1 >= U64_BOUND {
        return false;
      }
      GroundedLater(w, limits, Counted(), Counts(entries + 1, expanded), log);
      entries := entries + 1;
      if entries > limits.entries {
        return false;
      }
      acceptedEntries := acceptedEntries + 1;
      accepts := true;
    }

    /** Notes down that a container is opened. */
    ghost method Open(depth: nat, box: Container)
      requires Valid() && depth < limits.depth && Founded(w, limits, Counted(), log, Unpacked(depth, box))
      modifies this`log
      ensures Valid() && Slack() == old(Slack()) && log == old(log) + [Unpacked(depth, box)]
    {
      hide HandedBytes, SeenCount, IssueCount, Below, Grounded, Founded;
      var step := Unpacked(depth, box);
      AddStep(log, step);
      AddBelow(log, step, limits.depth);
      AddFounded(w, limits, Counted(), log, step);
      log := log + [step];
    }

    /** Notes down that a member is looked at. */
    ghost method LookAt(data: seq<byte>, name: seq<byte>, depth: nat)
      requires Valid() && depth < limits.depth && Slack() > 0
      requires Founded(w, limits, Counted(), log, Seen(depth, Member(name, data)))
      modifies this`log
      ensures Valid() && Slack() == old(Slack()) - 1 && log == old(log) + [Seen(depth, Member(name, data))]
      ensures HandedBytes(log) == old(HandedBytes(log))
    {
      hide HandedBytes, SeenCount, IssueCount, Below, Grounded, Founded;
      var step := Seen(depth, Member(name, data));
      AddStep(log, step);
      AddBelow(log, step, limits.depth);
      AddFounded(w, limits, Counted(), log, step);
      log := log + [step];
    }

    /**
     * Decodes within what is left of the limits. It succeeds exactly when the signal is clear, something is left, and
     * the decoder gives no more than that, which is then accepted. Decoders stop at the limit they are given.
     */
    method Decode(codec: Codec, input: seq<byte>) returns (r: Result<seq<byte>, Failure>)
      requires Valid()
      modifies this`polls, this`expanded, this`accepted
      ensures Valid() && polls == old(polls) + 1 && expanded >= old(expanded)
      ensures if w.cancelled(old(polls)) then r == Err(CancelledInside) && Said(old(Now()), Err(Cancelled))
              else r == Decoded(w, limits, codec, input, old(Counted()))
      ensures accepted == old(accepted) + if r.Ok? then |r.value| else 0
      ensures r.Ok? ==> HandedBytes(log) + |r.value| <= accepted
    {
      hide HandedBytes, SeenCount, IssueCount, Below, Grounded, Founded, ContainerSays;
      var cancelled := IsCancelled();
      if cancelled {
        return Err(CancelledInside);
      }
      var limit := MemberRoom(limits, Counted());
      if limit == 0 {
        return Err(LimitExceeded);
      }
      r := w.decode(codec, input, limit);
      if r.Err? {
        return;
      }
      if |r.value| > limit {
        return Err(LimitExceeded);
      }
      var accepts := Account(|r.value|);
      if !accepts {
        assert false;
        r := Err(LimitExceeded);
      }
    }

    /** Expands a container or hands data on as a plain file. Containers are opened below the depth limit only. */
    method Process(data: seq<byte>, name: seq<byte>, depth: nat) returns (r: Result<Control, SourceError>)
      requires Valid() && depth <= limits.depth && Given(w, log, data, name, depth)
      requires w.identify(name).None? ==> HandedBytes(log) + |data| <= accepted
      modifies this
      ensures Valid() && Grows() && Slack() >= old(Slack()) && Reasonable(old(Now()), r)
      ensures if w.cancelled(old(polls)) then r == Err(Cancelled) && New() == []
              else Does(w, limits, data, name, depth, old(Counted()), New(), r)
      decreases limits.depth - depth, 4
    {
      hide HandedBytes, Valid, Slack, Said, Expands, EndsItself, Given, Founded;
      ghost var start := Now();
      var cancelled := IsCancelled();
      if cancelled {
        return Err(Cancelled);
      }
      ghost var polled := Now();
      GivenFounds(w, limits, Counted(), log, data, name, depth);
      var format := w.identify(name);
      if format.None? {
        r := PlainSource(data);
        Sooner(start, polled, r);
        return;
      }
      if depth >= limits.depth {
        if !w.reportsDepth {
          return Ok(GoOn);
        }
        r := EmitIssue(depth, TooDeep(Member(name, data)));
        Sooner(start, polled, r);
        return;
      }
      r := Unpack(data, format.value, depth);
      Sooner(start, polled, r);
    }

    /** Opens a container below the depth limit. */
    method Unpack(data: seq<byte>, format: Format, depth: nat) returns (r: Result<Control, SourceError>)
      requires Valid() && depth < limits.depth
      requires Founded(w, limits, Counted(), log, Unpacked(depth, Container(format, data, Counted())))
      modifies this
      ensures Valid() && Grows() && Slack() >= old(Slack()) && Reasonable(old(Now()), r)
      ensures var box := Container(format, data, old(Counted()));
              && New() != [] && New()[0] == Unpacked(depth, box)
              && Expands(w, limits, box, depth, New()[1..], r)
      decreases limits.depth - depth, 3, 1
    {
      hide HandedBytes, Valid, Slack, Said, Expands, EndsItself, Founded;
      ghost var start, box := Now(), Container(format, data, Counted());
      Open(depth, box);
      label Opened:
      ghost var inside := Now();
      r := Expand(data, format, depth, box);
      assert New() == [Unpacked(depth, box)] + New@Opened();
      Sooner(start, inside, r);
      if EndsItself(w, limits, box, r) {
        OpenedSays(start, start.steps, r);
      }
    }

    lemma OpenedSays(from: Marks, i: nat, r: Result<Control, SourceError>)
      requires from.steps <= i < |log| && ContainerSays(log[i], r)
      ensures Said(from, r)
    {
      hide ContainerSays;
    }

    /** Whether a container is open at a depth, as it was opened. */
    ghost predicate IsOpen(depth: nat, box: Container)
      reads `log
    {
      depth < limits.depth && Unpacked(depth, box) in log
    }

    /** Tells the callback why the walk over a container ends. Nothing else is done since `start`. */
    method Tell(ghost depth: nat, ghost box: Container, ghost issue: Issue, ghost start: Marks)
      returns (r: Result<Control, SourceError>)
      requires Valid() && IsOpen(depth, box) && start.NotAfter(Now())
      requires Founded(w, limits, Counted(), log, Reported(depth, issue)) && EndsWalk(issue, box)
      modifies this`events, this`log
      ensures Valid() && Grows() && Slack() == old(Slack()) && r == w.answers(old(events)) && Said(start, r)
      ensures New() == [Reported(depth, issue)] && CutShort(New(), depth, box)
      ensures Walked(w, limits, depth, [], New(), r) && Looked(w, limits, depth, [], New(), r)
    {
      hide Valid, Slack, Said, CutShort, Walked, Founded;
      ghost var now := Now();
      NothingWalked(w, limits, depth, Ok(GoOn));
      r := EmitIssue(depth, issue);
      Sooner(start, now, r);
      ToldWhy(w, limits, depth, [], [], issue, box, r);
      assert New() == [] + [Reported(depth, issue)];
    }

    /** The same for an issue about the container itself. */
    method TellAbout(ghost depth: nat, ghost box: Container, ghost issue: Issue, ghost start: Marks)
      returns (r: Result<Control, SourceError>)
      requires Valid() && IsOpen(depth, box) && start.NotAfter(Now()) && EndsWalk(issue, box) && !issue.TooManyEntries?
      requires Justified(w, limits, Counted(), depth, issue)
      modifies this`events, this`log
      ensures Valid() && Grows() && Slack() == old(Slack()) && r == w.answers(old(events)) && Said(start, r)
      ensures New() == [Reported(depth, issue)] && CutShort(New(), depth, box)
      ensures Walked(w, limits, depth, [], New(), r) && Looked(w, limits, depth, [], New(), r)
    {
      hide Valid, Slack, Said, CutShort, Walked, Looked, Founded, Justified;
      AboutBox(w, limits, Counted(), log, depth, issue);
      r := Tell(depth, box, issue, start);
    }

    /** What is looked at directly inside a container, and what ends the walk over it. */
    method Expand(data: seq<byte>, format: Format, depth: nat, ghost box: Container)
      returns (r: Result<Control, SourceError>)
      requires Valid() && IsOpen(depth, box) && box == Container(format, data, Counted())
      modifies this
      ensures Valid() && Grows() && Slack() >= old(Slack())
      ensures Reasonable(old(Now()), r) || EndsItself(w, limits, box, r)
      ensures Expands(w, limits, box, depth, New(), r)
      decreases limits.depth - depth, 3, 0
    {
      hide HandedBytes, Valid, Slack, Said, Expands, Decoded, TarTooLong, Walked, Members, CutShort;
      hide BlockOffsets, TarLimit;
      match format
      case Tar =>
        ghost var offsets, found, complete;
        r, offsets, found, complete := ExtractTar(data, depth, box);
        TarExpanded(w, limits, box, data, depth, found, complete, New(), r);
      case Zip =>
        ghost var taken, found, complete;
        r, taken, found, complete := ExtractZip(data, depth, box);
        ZipExpanded(w, limits, box, depth, taken, found, complete, New(), r);
      case SevenZip =>
        ghost var found, complete;
        r, found, complete := ExtractSeven(data, depth, box);
        SevenExpanded(w, limits, box, depth, found, complete, New(), r);
      case Rar =>
        ghost var found, complete;
        r, found, complete := ExtractRar(data, depth, box);
        RarExpanded(w, limits, box, depth, found, complete, New(), r);
      case CompressedTar(codec) => r := ExpandCompressed(codec, data, depth, box);
      case Stream(codec) => r := ExpandStream(codec, data, depth, box);
    }

    method ExpandStream(codec: Codec, data: seq<byte>, depth: nat, ghost box: Container)
      returns (r: Result<Control, SourceError>)
      requires Valid() && IsOpen(depth, box) && box == Container(Stream(codec), data, Counted())
      modifies this
      ensures Valid() && Grows() && Slack() >= old(Slack())
      ensures Reasonable(old(Now()), r) || EndsItself(w, limits, box, r)
      ensures Expands(w, limits, box, depth, New(), r)
    {
      hide HandedBytes, Valid, Said, Expands, Decoded, SeenCount, CutShort, Founded;
      ghost var start := Now();
      var decoded := Decode(codec, data);
      ghost var later := Now();
      if decoded == Err(CancelledInside) {
        r := Err(Cancelled);
        NothingExpanded(w, limits, box, depth, New(), r);
      } else if decoded.Err? {
        r := TellAbout(depth, box, BadStream(box), start);
        NothingExpanded(w, limits, box, depth, New(), r);
      } else {
        StreamFounds(w, limits, Counted(), log, depth, box, decoded.value);
        r := PlainSource(decoded.value);
        StreamExpanded(w, limits, box, depth, decoded.value, r);
      }
      Sooner(start, later, r);
    }

    method ExpandCompressed(codec: Codec, data: seq<byte>, depth: nat, ghost box: Container)
      returns (r: Result<Control, SourceError>)
      requires Valid() && IsOpen(depth, box) && box == Container(CompressedTar(codec), data, Counted())
      modifies this
      ensures Valid() && Grows() && Slack() >= old(Slack())
      ensures Reasonable(old(Now()), r) || EndsItself(w, limits, box, r)
      ensures Expands(w, limits, box, depth, New(), r)
      decreases limits.depth - depth, 2, 4
    {
      hide HandedBytes, Valid, Said, Expands, Decoded, SeenCount, CutShort, Founded;
      hide TarTooLong, Walked, Members, BlockOffsets, TarLimit;
      ghost var start := Now();
      var decoded := Decode(codec, data);
      ghost var later := Now();
      if decoded == Err(CancelledInside) {
        r := Err(Cancelled);
        NothingExpanded(w, limits, box, depth, New(), r);
      } else if decoded.Err? {
        r := TellAbout(depth, box, BadStream(box), start);
        NothingExpanded(w, limits, box, depth, New(), r);
      } else {
        ghost var offsets, found, complete;
        r, offsets, found, complete := ExtractTar(decoded.value, depth, box);
        TarExpanded(w, limits, box, decoded.value, depth, found, complete, New(), r);
      }
      Sooner(start, later, r);
    }

    /** Looks at a member of a container and accepts it within the limits, unless the first-level allowlist has it. */
    method Admit(data: seq<byte>, name: seq<byte>, depth: nat)
      returns (admitted: bool, r: Result<Control, SourceError>, ghost rest: seq<Step>)
      requires Valid() && depth < limits.depth && Slack() > 0
      requires Founded(w, limits, Counted(), log, Seen(depth, Member(name, data)))
      modifies this`log, this`events, this`expanded, this`accepted
      ensures Valid() && Grows() && Slack() == old(Slack()) - 1
              && log == old(log) + [Seen(depth, Member(name, data))] + rest
      ensures admitted <==> !(depth == 0 && w.allowed(name)) && Fit(limits, old(Counted()), |data|)
      ensures admitted ==>
                && rest == [] && Counted() == Counts(old(entries), old(expanded) + |data|)
                && HandedBytes(log) + |data| <= accepted
      ensures !admitted ==> Reasonable(old(Now()), r) && forall cancelled ::
                  Processed(w, limits, depth, Member(name, data), old(Counted()), w.answers(old(events)), cancelled,
                    rest, r)
    {
      hide HandedBytes, Valid, Slack, Said, Does, Founded;
      ghost var start, member := Now(), Member(name, data);
      rest := [];
      LookAt(data, name, depth);
      if depth == 0 && w.allowed(name) {
        return false, Ok(GoOn), rest;
      }
      admitted := Account(|data|);
      r := Ok(GoOn);
      if !admitted {
        ghost var accounted := Now();
        assert log == old(log) + [Seen(depth, member)];
        AboutMember(w, limits, Counted(), log, depth, member);
        r := EmitIssue(depth, OverLimit(member));
        rest := [Reported(depth, OverLimit(member))];
        Sooner(start, accounted, r);
      }
    }

    /** One member of a container: accepted within the limits, and then processed one level down. */
    method ProcessMember(data: seq<byte>, name: seq<byte>, depth: nat) returns (r: Result<Control, SourceError>)
      requires Valid() && depth < limits.depth && Slack() > 0
      requires Founded(w, limits, Counted(), log, Seen(depth, Member(name, data)))
      modifies this
      ensures Valid() && Grows() && Slack() >= old(Slack()) - 1 && Reasonable(old(Now()), r)
      ensures var member := Member(name, data);
              && New() != [] && New()[0] == Seen(depth, member)
              && Processed(
                   w, limits, depth, member, old(Counted()), w.answers(old(events)), w.cancelled(old(polls)),
                     New()[1..], r)
      ensures Looked(w, limits, depth, [Member(name, data)], New(), r)
      decreases limits.depth - depth, 1
    {
      hide HandedBytes, Valid, Slack, Said, Does, Looked, Founded;
      ghost var start, member := Now(), Member(name, data);
      ghost var counts, answer, cancelled := Counted(), w.answers(events), w.cancelled(polls);
      var admitted;
      ghost var rest;
      admitted, r, rest := Admit(data, name, depth);
      if admitted {
        label Admitted:
        ghost var later := Now();
        assert log == old(log) + [Seen(depth, member)];
        r := Process(data, name, depth + 1);
        rest := New@Admitted();
        Longer(old(log), [Seen(depth, member)], log);
        Sooner(start, later, r);
      }
      assert New() == [Seen(depth, member)] + rest;
      BehindFirst(Seen(depth, member), rest);
      ProcessedLooked(w, limits, depth, member, counts, answer, cancelled, rest, r);
    }

    /** Processes a member of a 7z archive, but hands a plain file on without asking for the signal once more. */
    method HandOrProcess(data: seq<byte>, name: seq<byte>, depth: nat) returns (r: Result<Control, SourceError>)
      requires Valid() && depth <= limits.depth && Given(w, log, data, name, depth)
      requires HandedBytes(log) + |data| <= accepted
      modifies this
      ensures Valid() && Grows() && Slack() >= old(Slack()) && Reasonable(old(Now()), r)
      ensures if w.identify(name).Some? && w.cancelled(old(polls)) then r == Err(Cancelled) && New() == []
              else Does(w, limits, data, name, depth, old(Counted()), New(), r)
      ensures w.identify(name).None? ==> polls == old(polls) && r == w.plain(old(plains))
      decreases limits.depth - depth, 5
    {
      hide HandedBytes, Valid, Slack, Said, Does, Given, Founded;
      if w.identify(name).Some? {
        r := Process(data, name, depth);
        return;
      }
      GivenFounds(w, limits, Counted(), log, data, name, depth);
      r := PlainSource(data);
      DoesPlain(w, limits, data, name, depth, old(Counted()), r);
      assert New() == [Handed(data)];
    }

    /** One member of a 7z archive: accepted within the limits, and then processed or handed on one level down. */
    method ProcessStreamed(data: seq<byte>, name: seq<byte>, depth: nat) returns (r: Result<Control, SourceError>)
      requires Valid() && depth < limits.depth && Slack() > 0
      requires Founded(w, limits, Counted(), log, Seen(depth, Member(name, data)))
      modifies this
      ensures Valid() && Grows() && Slack() >= old(Slack()) - 1 && Reasonable(old(Now()), r)
      ensures var member := Member(name, data);
              && New() != [] && New()[0] == Seen(depth, member)
              && Processed(
                   w, limits, depth, member, old(Counted()), w.answers(old(events)),
                   w.identify(name).Some? && w.cancelled(old(polls)), New()[1..], r)
      ensures w.identify(name).None? ==> polls == old(polls)
      ensures Looked(w, limits, depth, [Member(name, data)], New(), r)
      decreases limits.depth - depth, 1
    {
      hide HandedBytes, Valid, Slack, Said, Does, Looked, Founded;
      ghost var start, member := Now(), Member(name, data);
      ghost var counts, answer, cancelled := Counted(), w.answers(events), w.identify(name).Some? && w.cancelled(polls);
      var admitted;
      ghost var rest;
      admitted, r, rest := Admit(data, name, depth);
      if admitted {
        label Admitted:
        ghost var later := Now();
        assert log == old(log) + [Seen(depth, member)];
        r := HandOrProcess(data, name, depth + 1);
        rest := New@Admitted();
        Longer(old(log), [Seen(depth, member)], log);
        Sooner(start, later, r);
      }
      assert New() == [Seen(depth, member)] + rest;
      BehindFirst(Seen(depth, member), rest);
      ProcessedLooked(w, limits, depth, member, counts, answer, cancelled, rest, r);
    }

    /**
     * Counts a header and hands on its member, unless a limit forbids it. `halted` says that the walk ends: somebody
     * wants it to, or a limit has been reached, which the callback is told.
     */
    method ProcessTarBlock(
      block: TarBlock, body: seq<byte>, longName: Option<seq<byte>>, depth: nat, ghost box: Container,
      ghost tar: seq<byte>, ghost offset: nat)
      returns (r: Result<Control, SourceError>, halted: bool, pending: Option<seq<byte>>, ghost handed: seq<Member>)
      requires Valid() && IsOpen(depth, box) && TarIn(w, limits, box, tar)
      requires offset <= |tar| && block == TarBlockOf(tar[offset..]) && block.Header? && |body| == block.size
      requires forall m | m in MemberOf(block, longName, body) :: m in Members(tar, None)
      modifies this
      ensures Valid() && Grows() && Slack() >= old(Slack()) && Reasonable(old(Now()), r)
      ensures handed <= MemberOf(block, longName, body)
      ensures Looked(w, limits, depth, Cleaned(w, handed), New(), r)
      ensures !halted ==>
                && r == Ok(GoOn) && handed == MemberOf(block, longName, body) && pending == NameAfter(block, body)
                && acceptedEntries > old(acceptedEntries)
      ensures halted ==> r != Ok(GoOn) || (CutShort(New(), depth, box) && TarFull(|body|))
      ensures !halted && block.flag == LONG_NAME ==> |body| <= limits.memberBytes
      ensures !halted && HasContent(block.flag) ==>
                block.flag == LONG_NAME || |body| <= MemberRoom(limits, old(Counted()))
      decreases limits.depth - depth, 2, 0
    {
      hide HandedBytes, SeenCount, Valid, Slack, Said, CutShort, WholeMember, Silent, Deeper, Processed, Founded;
      hide Members, TarBlockOf, TarIn;
      handed, pending, halted := [], None, true;
      CleanedOne(w, Member([], []));
      ghost var start := Now();
      var accepts := BumpEntry();
      ghost var counted := Now();
      TarIssues(w, limits, Counted(), log, depth, box, tar, offset);
      if !accepts {
        AboutEntries(w, limits, Counted(), log, depth);
        r := Tell(depth, box, TooManyEntries, start);
        return;
      }
      var isName := block.flag == LONG_NAME;
      var room := if isName then limits.memberBytes else MemberRoom(limits, Counted());
      if (isName || HasContent(block.flag)) && |body| > room {
        r := Tell(depth, box, NoRoom(box, tar, offset), start);
        return;
      }
      if isName {
        return Ok(GoOn), false, Some(WithoutTrailingNuls(body)), handed;
      }
      if !HasContent(block.flag) {
        return Ok(GoOn), false, None, handed;
      }
      var name := if longName.Some? then longName.value else block.name;
      handed := [Member(name, body)];
      CleanedOne(w, handed[0]);
      TarHasMember(w, limits, box, tar, handed[0]);
      MemberFounds(w, limits, Counted(), log, depth, box, Member(w.clean(name), body));
      r := ProcessMember(body, w.clean(name), depth);
      Sooner(start, counted, r);
      halted := r.Err? || r.value == Stop;
    }

    /** No entry more is accepted, or no member of that size. */
    ghost predicate TarFull(size: nat)
      reads `entries, `expanded
    {
      entries + 1 > limits.entries || size > MemberRoom(limits, Counted())
    }

    /** There is a header at the last offset, but no entry more is accepted, or there is no room for its body. */
    ghost predicate TarLimit(data: seq<byte>, offsets: seq<nat>)
      reads `entries, `expanded
    {
      offsets != [] && offsets[|offsets| - 1] <= |data|
      && var block := TarBlockOf(data[offsets[|offsets| - 1]..]);
         block.Header? && TarFull(block.size)
    }

    /**
     * Looks at the signal and deals with what a TAR file goes on with: `AtEnd` is its end or something damaged,
     * behind `Next` there is more, and `Halted` says that the walk ends before the end of the file.
     */
    method WalkTarBlock(data: seq<byte>, offset: nat, longName: Option<seq<byte>>, depth: nat, ghost box: Container)
      returns (
        r: Result<Control, SourceError>, outcome: TarOutcome, pending: Option<seq<byte>>, ghost handed: seq<Member>)
      requires Valid() && IsOpen(depth, box) && TarIn(w, limits, box, data)
      requires offset < |data| && offset % BLOCK == 0
      requires forall m | m in Members(data[offset..], longName) :: m in Members(data, None)
      modifies this
      ensures Valid() && Grows() && Slack() >= old(Slack())
      ensures Reasonable(old(Now()), r) || TarTooLong(data, r)
      ensures Walked(w, limits, depth, Cleaned(w, handed), New(), r) && handed <= Members(data[offset..], longName)
      ensures w.cancelled(old(polls)) ==> r == Err(Cancelled) && New() == []
      ensures outcome.AtEnd? ==> handed == Members(data[offset..], longName)
      ensures outcome.Next? ==>
                && r == Ok(GoOn) && offset < outcome.offset <= |data| && outcome.offset % BLOCK == 0
                && Members(data[offset..], longName) == handed + Members(data[outcome.offset..], pending)
                && acceptedEntries > old(acceptedEntries)
      ensures outcome.Halted? ==>
                || r != Ok(GoOn)
                || (CutShort(New(), depth, box)
                    && TarBlockOf(data[offset..]).Header? && TarFull(TarBlockOf(data[offset..]).size))
      decreases limits.depth - depth, 2, 2
    {
      hide HandedBytes, SeenCount, Valid, Slack, Said, CutShort, TarBlockOf, Members, MemberOf, NameAfter, Founded;
      hide Cleaned, Walked, Looked, TarFull, DamagedTar, TarIn;
      pending, handed, outcome := None, [], Halted;
      NothingWalked(w, limits, depth, Ok(GoOn));
      NothingWalked(w, limits, depth, Err(Terminal));
      CleanedOne(w, Member([], []));
      NothingWalked(w, limits, depth, Err(Cancelled));
      assert New() == [];
      var cancelled := IsCancelled();
      if cancelled {
        r := Err(Cancelled);
        return;
      }
      if offset + BLOCK >= U64_BOUND {
        r := Err(Terminal);
        return;
      }
      ghost var start, polled := old(Now()), Now();
      var block := TarBlockOf(data[offset..]);
      if !block.Header? {
        NoHeader(data[offset..], longName);
        outcome, r := AtEnd, Ok(GoOn);
        if block.BadBlock? {
          DamagedHeader(data, offset);
          TarIssues(w, limits, Counted(), log, depth, box, data, offset);
          r := Tell(depth, box, BadTar(box, data, offset), start);
        }
        return;
      }
      r, outcome, pending, handed := WalkHeader(data, offset, block, longName, depth, box);
      Sooner(start, polled, r);
    }

    /** Deals with a header of a TAR file, its body, and what comes behind its padding. */
    method WalkHeader(
      data: seq<byte>, offset: nat, block: TarBlock, longName: Option<seq<byte>>, depth: nat, ghost box: Container)
      returns (
        r: Result<Control, SourceError>, outcome: TarOutcome, pending: Option<seq<byte>>, ghost handed: seq<Member>)
      requires Valid() && IsOpen(depth, box) && TarIn(w, limits, box, data)
      requires offset < |data| && offset % BLOCK == 0 && block == TarBlockOf(data[offset..]) && block.Header?
      requires forall m | m in Members(data[offset..], longName) :: m in Members(data, None)
      modifies this
      ensures Valid() && Grows() && Slack() >= old(Slack())
      ensures Reasonable(old(Now()), r) || TarTooLong(data, r)
      ensures Walked(w, limits, depth, Cleaned(w, handed), New(), r) && handed <= Members(data[offset..], longName)
      ensures outcome.AtEnd? ==> handed == Members(data[offset..], longName)
      ensures outcome.Next? ==>
                && r == Ok(GoOn) && offset < outcome.offset <= |data| && outcome.offset % BLOCK == 0
                && Members(data[offset..], longName) == handed + Members(data[outcome.offset..], pending)
                && acceptedEntries > old(acceptedEntries)
      ensures outcome.Halted? ==> r != Ok(GoOn) || (CutShort(New(), depth, box) && TarFull(block.size))
      decreases limits.depth - depth, 2, 1
    {
      hide HandedBytes, SeenCount, Valid, Slack, Said, CutShort, TarBlockOf, Members, MemberOf, NameAfter, Founded;
      hide Padded, Cleaned, Walked, Looked, HasContent, TarFull, DamagedTar, TarIn;
      outcome := Halted;
      ghost var start := Now();
      var body := data[offset + BLOCK..offset + BLOCK + block.size];
      HeaderMembers(data, offset, longName, MemberOf(block, longName, body));
      var halted;
      r, halted, pending, handed := ProcessTarBlock(block, body, longName, depth, box, data, offset);
      LookedWalked(w, limits, depth, Cleaned(w, handed), New(), r);
      HeaderMembers(data, offset, longName, handed);
      if halted {
        return;
      }
      var next := offset + BLOCK + Padded(block.size);
      if next >= U64_BOUND {
        r := Err(Terminal);
        StillWalked(w, limits, depth, Cleaned(w, handed), New(), r);
        return;
      }
      if next <= |data| {
        outcome := Next(next);
        return;
      }
      outcome := AtEnd;
      r := CutOff(data, offset, depth, box, old(log), start, handed);
    }

    /** Tells the callback that a TAR file ends within the padding of a body. */
    method CutOff(
      ghost data: seq<byte>, ghost offset: nat, ghost depth: nat, ghost box: Container, ghost base: seq<Step>,
      ghost start: Marks, ghost handed: seq<Member>)
      returns (r: Result<Control, SourceError>)
      requires Valid() && IsOpen(depth, box) && TarIn(w, limits, box, data)
      requires offset <= |data| && offset % BLOCK == 0 && TarBlockOf(data[offset..]).Header?
      requires offset + BLOCK + Padded(TarBlockOf(data[offset..]).size) > |data|
      requires base <= log && Walked(w, limits, depth, Cleaned(w, handed), log[|base|..], Ok(GoOn))
      requires start.NotAfter(Now())
      modifies this`events, this`log
      ensures Valid() && Grows() && Slack() == old(Slack()) && Reasonable(start, r) && base <= log
      ensures Walked(w, limits, depth, Cleaned(w, handed), log[|base|..], r)
    {
      hide HandedBytes, SeenCount, Valid, Slack, Said, Walked, TarIn, TarBlockOf, DamagedTar, Padded, Cleaned, Founded;
      hide EndsWalk, Looked, CutShort;
      DamagedPadding(data, offset);
      ghost var steps := log[|base|..];
      TarIssues(w, limits, Counted(), log, depth, box, data, offset);
      r := Tell(depth, box, BadTar(box, data, offset), start);
      ToldWhy(w, limits, depth, Cleaned(w, handed), steps, BadTar(box, data, offset), box, r);
      assert log[|base|..] == steps + [Reported(depth, BadTar(box, data, offset))];
    }

    /**
     * Walks the blocks of a TAR file. `offsets` are those of its headers, which are multiples of the block size and
     * grow with every header, each of them an accepted entry but for the last. `found` are the members that were
     * looked at: the first of those in the file, and all of them when the walk gets to the end. It gets there unless
     * somebody said otherwise, the file is too long for numbers, or the callback was told of a limit that has been
     * reached.
     */
    method ExtractTar(data: seq<byte>, depth: nat, ghost box: Container)
      returns (r: Result<Control, SourceError>, ghost offsets: seq<nat>, ghost found: seq<Member>, ghost complete: bool)
      requires Valid() && IsOpen(depth, box) && TarIn(w, limits, box, data)
      modifies this
      ensures Valid() && Grows() && Slack() >= old(Slack()) && BlockOffsets(offsets, |data|)
      ensures Reasonable(old(Now()), r) || TarTooLong(data, r)
      ensures |offsets| <= acceptedEntries - old(acceptedEntries) + 1
      ensures Walked(w, limits, depth, Cleaned(w, found), New(), r)
      ensures found <= Members(data, None) && (complete ==> found == Members(data, None))
      ensures !complete ==>
                || (r != Ok(GoOn) && (Said(old(Now()), r) || TarTooLong(data, r)))
                || (TarLimit(data, offsets) && CutShort(New(), depth, box))
      decreases limits.depth - depth, 2, 3
    {
      hide HandedBytes, SeenCount, Valid, Slack, Said, CutShort, TarBlockOf, BlockOffsets, Members, Founded;
      hide Cleaned, Walked, TarFull, DamagedTar, TarIn;
      NoOffsets();
      NothingWalked(w, limits, depth, Ok(GoOn));
      CleanedOne(w, Member([], []));
      ghost var start := Now();
      ghost var steps: seq<Step> := [];
      assert log == old(log) + steps;
      var offset: nat := 0;
      var longName: Option<seq<byte>> := None;
      var sawHeader := false;
      offsets, found, complete := [], [], false;
      assert data[0..] == data;
      while offset < |data|
        invariant Valid() && Grows() && Slack() >= old(Slack()) && IsOpen(depth, box)
        invariant BlockOffsets(offsets, offset) && BlockOffsets(offsets, |data|)
        invariant |offsets| <= acceptedEntries - old(acceptedEntries)
        invariant offset <= |data| && offset % BLOCK == 0 && (!sawHeader ==> offset == 0 && found == [] && steps == [])
        invariant log == old(log) + steps && Walked(w, limits, depth, Cleaned(w, found), steps, Ok(GoOn))
        invariant Members(data, None) == found + Members(data[offset..], longName) && !complete
        decreases |data| - offset
      {
        ghost var now := Now();
        label Block:
        var outcome;
        ghost var handed;
        r, outcome, longName, handed := WalkTarBlock(data, offset, longName, depth, box);
        ghost var more := New@Block();
        StillThere(Unpacked(depth, box), old@Block(log), log);
        Longer(old(log), steps, log);
        CleanedAppend(w, found, handed);
        WalkedAppend(w, limits, depth, Cleaned(w, found), steps, Cleaned(w, handed), more, box, r);
        Sooner(start, now, r);
        NextOffset(offsets, offset);
        steps, found, sawHeader := steps + more, found + handed, true;
        if TarBlockOf(data[offset..]).Header? {
          offsets := offsets + [offset];
        }
        if !outcome.Next? {
          complete := outcome.AtEnd?;
          return;
        }
        offset := outcome.offset;
      }
      NoMembers(data[offset..], longName);
      complete := true;
      if sawHeader {
        r := Ok(GoOn);
        return;
      }
      DamagedNothing();
      assert data == [];
      TarIssues(w, limits, Counted(), log, depth, box, data, 0);
      r := Tell(depth, box, BadTar(box, data, 0), start);
    }

    /** An entry of a RAR file, whose member is one that the container holds. */
    ghost predicate IsRarEntry(box: Container, entry: RarEntry) {
      box.format.Rar? && forall m | m in RarMember(entry) :: MemberIn(w, limits, box, Member(w.clean(m.name), m.data))
    }

    /** Deals with one entry of a RAR file. `done` says that no further entry is looked at. */
    method ProcessRarEntry(entry: RarEntry, depth: nat, ghost box: Container)
      returns (r: Result<Control, SourceError>, done: bool, ghost handed: seq<Member>)
      requires Valid() && IsOpen(depth, box) && IsRarEntry(box, entry)
      modifies this
      ensures Valid() && Grows() && Slack() >= old(Slack()) && Reasonable(old(Now()), r)
      ensures handed <= RarMember(entry) && Looked(w, limits, depth, Cleaned(w, handed), New(), r)
      ensures !done ==> r == Ok(GoOn) && handed == RarMember(entry) && acceptedEntries > old(acceptedEntries)
      ensures done ==> r != Ok(GoOn) || (CutShort(New(), depth, box) && entries + 1 > limits.entries)
      decreases limits.depth - depth, 2, 0
    {
      hide HandedBytes, SeenCount, Valid, Slack, Said, CutShort, WholeMember, Silent, Deeper, Processed;
      hide Founded, MemberIn;
      handed, done := [], true;
      CleanedOne(w, Member([], []));
      ghost var start := Now();
      var accepts := BumpEntry();
      ghost var counted := Now();
      if !accepts {
        AboutEntries(w, limits, Counted(), log, depth);
        r := Tell(depth, box, TooManyEntries, start);
        return;
      }
      if entry.isDirectory {
        return Ok(GoOn), false, handed;
      }
      handed := [Member(entry.name, entry.data)];
      CleanedOne(w, handed[0]);
      assert handed[0] in RarMember(entry);
      MemberFounds(w, limits, Counted(), log, depth, box, Member(w.clean(entry.name), entry.data));
      r := ProcessMember(entry.data, w.clean(entry.name), depth);
      Sooner(start, counted, r);
      done := r.Err? || r.value == Stop;
    }

    lemma RarEntryOf(box: Container, entries: seq<RarEntry>, i: nat)
      requires box.format.Rar? && Parsed(w, limits, box.data, box.before) == Ok(entries) && i < |entries|
      ensures IsRarEntry(box, entries[i])
    {
      hide Parsed, Cleaned;
      RarStep(entries, i);
      forall m | m in RarMember(entries[i])
        ensures MemberIn(w, limits, box, Member(w.clean(m.name), m.data))
      {
        assert m in RarMembers(entries[..i + 1]);
        assert m in RarMembers(entries);
        CleanedIn(w, RarMembers(entries), m);
      }
    }

    /**
     * Looks at the members that the parser found, in order, and counts every entry. `complete` says that it looked at
     * all of them. It does unless somebody said otherwise, or the callback was told that there are too many entries.
     */
    method ExtractRar(data: seq<byte>, depth: nat, ghost box: Container)
      returns (r: Result<Control, SourceError>, ghost found: seq<Member>, ghost complete: bool)
      requires Valid() && IsOpen(depth, box) && box == Container(Rar, data, Counted())
      modifies this
      ensures Valid() && Grows() && Slack() >= old(Slack())
      ensures Walked(w, limits, depth, found, New(), r)
      ensures var parsed := Parsed(w, limits, data, old(Counted()));
              if parsed.Err? then
                && !complete && found == []
                && if parsed.error.CancelledInside? then r == Err(Cancelled) && New() == []
                   else
                     && r == w.answers(old(events)) && Said(old(Now()), r) && CutShort(New(), depth, box)
                     && New() == [Reported(depth, BadRar(box))]
              else
                && Reasonable(old(Now()), r) && found <= Cleaned(w, RarMembers(parsed.value))
                && (complete ==>
                      && r == Ok(GoOn) && found == Cleaned(w, RarMembers(parsed.value))
                      && acceptedEntries >= old(acceptedEntries) + |parsed.value|)
                && (!complete ==>
                      || (r != Ok(GoOn) && Said(old(Now()), r))
                      || (CutShort(New(), depth, box) && entries + 1 > limits.entries))
      decreases limits.depth - depth, 2, 1
    {
      hide HandedBytes, SeenCount, Valid, Slack, Said, CutShort, Cleaned, Walked, Looked, RarMembers;
      hide RarMember, Founded;
      hide IsRarEntry;
      found, complete := [], false;
      NothingWalked(w, limits, depth, Ok(GoOn));
      NothingWalked(w, limits, depth, Err(Cancelled));
      CleanedOne(w, Member([], []));
      assert New() == [];
      ghost var start := Now();
      var members := w.rar(data, Minus(limits.entries, entries), limits.memberBytes,
        Minus(limits.totalBytes, expanded));
      if members == Err(CancelledInside) {
        r := Err(Cancelled);
        return;
      }
      if members.Err? {
        r := TellAbout(depth, box, BadRar(box), start);
        return;
      }
      ghost var all := members.value;
      NoRarMembers(all);
      ghost var steps: seq<Step> := [];
      assert log == old(log) + steps;
      for i := 0 to |members.value|
        invariant Valid() && Grows() && Slack() >= old(Slack()) && log == old(log) + steps && IsOpen(depth, box)
        invariant acceptedEntries >= old(acceptedEntries) + i
        invariant Walked(w, limits, depth, found, steps, Ok(GoOn)) && found == Cleaned(w, RarMembers(all[..i]))
      {
        RarStep(all, i);
        RarEntryOf(box, all, i);
        ghost var now := Now();
        label Entry:
        var done;
        ghost var handed;
        r, done, handed := ProcessRarEntry(members.value[i], depth, box);
        ghost var more := New@Entry();
        StillThere(Unpacked(depth, box), old@Entry(log), log);
        Longer(old(log), steps, log);
        CleanedAppend(w, RarMembers(all[..i]), handed);
        CleanedPrefix(w, RarMembers(all[..i]) + handed, RarMembers(all));
        WalkedNext(w, limits, depth, found, steps, Cleaned(w, handed), more, box, r);
        Sooner(start, now, r);
        steps, found := steps + more, found + Cleaned(w, handed);
        if done {
          return;
        }
      }
      r, complete := Ok(GoOn), true;
    }

    ghost predicate IsZipEntry(box: Container, index: nat, entry: ZipEntry) {
      && box.format.Zip? && w.zip(box.data).Some?
      && index < |w.zip(box.data).value| && w.zip(box.data).value[index] == entry
    }

    /** The content of an entry when it decodes and checks, and otherwise what the callback says to its issue. */
    method DecodeZipMember(entry: ZipEntry, ghost depth: nat, ghost box: Container, ghost index: nat)
      returns (decoded: Option<seq<byte>>, r: Result<Control, SourceError>)
      requires Valid() && entry.Entry? && IsOpen(depth, box) && IsZipEntry(box, index, entry)
      modifies this`events, this`log
      ensures Valid() && Slack() == old(Slack()) && old(Now()).NotAfter(Now())
      ensures decoded == ZipContent(entry, MemberRoom(limits, Counted()))
      ensures if decoded.Some? then r == Ok(GoOn) && log == old(log)
              else if entry.supported && entry.decoded(MemberRoom(limits, Counted())) == Err(CancelledInside) then
                r == Err(Cancelled) && log == old(log)
              else
                && r == w.answers(old(events)) && Said(old(Now()), r)
                && log == old(log) + [Reported(depth, BadEntry(box, index, MemberRoom(limits, Counted())))]
    {
      hide Valid, Slack, Said, Founded;
      var limit := MemberRoom(limits, Counted());
      var content := if entry.supported then entry.decoded(limit) else Err(Damaged);
      if content == Err(CancelledInside) {
        return None, Err(Cancelled);
      }
      if content.Err? || |content.value| != entry.sizeHint || !entry.checks(content.value) {
        AboutBox(w, limits, Counted(), log, depth, BadEntry(box, index, limit));
        r := EmitIssue(depth, BadEntry(box, index, limit));
        return None, r;
      }
      return Some(content.value), Ok(GoOn);
    }

    /**
     * Counts an entry of a ZIP file. `passes` says that there is no reason not to decode it; `done` says that no
     * further entry is looked at.
     */
    method CountZipEntry(entry: ZipEntry, ghost depth: nat, ghost box: Container, ghost index: nat)
      returns (r: Result<Control, SourceError>, passes: bool, done: bool)
      requires Valid() && IsOpen(depth, box) && IsZipEntry(box, index, entry)
      modifies this`entries, this`acceptedEntries, this`events, this`log
      ensures Valid() && Grows() && Slack() >= old(Slack()) && Reasonable(old(Now()), r)
      ensures Looked(w, limits, depth, [], New(), r)
      ensures passes ==> r == Ok(GoOn) && log == old(log) && entry.Entry? && !entry.isDirectory && !done
      ensures passes ==> Slack() == old(Slack()) + 1 && Slack() > 0
      ensures !passes && !done ==> r == Ok(GoOn) && entry.Entry? && entry.isDirectory
      ensures EndsZip(limits, entry) ==> done
      ensures !done ==> acceptedEntries > old(acceptedEntries)
      ensures done ==> CutShort(New(), depth, box) && (entries + 1 > limits.entries || EndsZip(limits, entry))
    {
      hide HandedBytes, SeenCount, Valid, Slack, Said, CutShort, Founded;
      r, passes, done := Ok(GoOn), false, true;
      ghost var start := Now();
      if entry.Broken? {
        r := TellAbout(depth, box, EndingEntry(box, index), start);
        return;
      }
      var accepts := BumpEntry();
      ghost var now := Now();
      if !accepts {
        AboutEntries(w, limits, Counted(), log, depth);
        r := Tell(depth, box, TooManyEntries, start);
        return;
      }
      if !entry.isDirectory && (entry.sizeHint > limits.memberBytes || !entry.located) {
        r := TellAbout(depth, box, EndingEntry(box, index), start);
        return;
      }
      passes, done := !entry.isDirectory, false;
    }

    /** Deals with one entry of a ZIP file. `done` says that no further entry is looked at. */
    method ProcessZipEntry(entry: ZipEntry, depth: nat, ghost box: Container, ghost index: nat)
      returns (r: Result<Control, SourceError>, done: bool, ghost handed: seq<Member>)
      requires Valid() && IsOpen(depth, box) && IsZipEntry(box, index, entry)
      modifies this
      ensures Valid() && Grows() && Slack() >= old(Slack())
      ensures Reasonable(old(Now()), r) || (r == Err(Cancelled) && CancelledZip(w, box.data))
      ensures |handed| <= 1 && (handed != [] ==> FromZip(w, entry, handed[0]))
      ensures Looked(w, limits, depth, handed, New(), r)
      ensures !done ==> !EndsZip(limits, entry) && (handed == [] ==> NothingInZip(box, depth, index, entry, New()))
      ensures !done ==> r == Ok(GoOn) && acceptedEntries > old(acceptedEntries)
      ensures done ==>
                r != Ok(GoOn)
                  || (CutShort(New(), depth, box) && (entries + 1 > limits.entries || EndsZip(limits, entry)))
      decreases limits.depth - depth, 2, 0
    {
      hide HandedBytes, SeenCount, Valid, Slack, Said, CutShort, WholeMember, Silent, Deeper, Processed;
      hide Founded, EndsZip;
      handed := [];
      ghost var start := Now();
      var passes;
      r, passes, done := CountZipEntry(entry, depth, box, index);
      if !passes {
        return;
      }
      ghost var now := Now();
      var decoded;
      decoded, r := DecodeZipMember(entry, depth, box, index);
      if decoded.Some? {
        handed := [Member(w.clean(entry.name), decoded.value)];
        ZipHasMember(box, index, entry, handed[0]);
        MemberFounds(w, limits, Counted(), log, depth, box, handed[0]);
        now := Now();
        r := ProcessMember(decoded.value, w.clean(entry.name), depth);
      } else if r == Err(Cancelled) {
        ZipSaysCancelled(box, index, entry, MemberRoom(limits, Counted()));
      }
      Sooner(start, now, r);
      done := r.Err? || r.value == Stop;
    }

    /** Looks at the signal and then deals with one entry of a ZIP file. */
    method VisitZipEntry(entry: ZipEntry, depth: nat, ghost box: Container, ghost index: nat)
      returns (r: Result<Control, SourceError>, done: bool, ghost handed: seq<Member>)
      requires Valid() && IsOpen(depth, box) && IsZipEntry(box, index, entry)
      modifies this
      ensures Valid() && Grows() && Slack() >= old(Slack())
      ensures Reasonable(old(Now()), r) || (r == Err(Cancelled) && CancelledZip(w, box.data))
      ensures |handed| <= 1 && (handed != [] ==> FromZip(w, entry, handed[0]))
      ensures Looked(w, limits, depth, handed, New(), r)
      ensures w.cancelled(old(polls)) ==> r == Err(Cancelled) && New() == []
      ensures !done ==> !EndsZip(limits, entry) && (handed == [] ==> NothingInZip(box, depth, index, entry, New()))
      ensures !done ==> r == Ok(GoOn) && acceptedEntries > old(acceptedEntries)
      ensures done ==>
                r != Ok(GoOn)
                  || (CutShort(New(), depth, box) && (entries + 1 > limits.entries || EndsZip(limits, entry)))
      decreases limits.depth - depth, 2, 1
    {
      hide HandedBytes, SeenCount, Valid, Slack, Said, CutShort, Founded, EndsZip, CancelledZip, FromZip, NothingInZip;
      hide WholeMember, Silent, Deeper;
      handed, done := [], true;
      ghost var start := Now();
      var cancelled := IsCancelled();
      if cancelled {
        return Err(Cancelled), done, handed;
      }
      ghost var polled := Now();
      r, done, handed := ProcessZipEntry(entry, depth, box, index);
      Sooner(start, polled, r);
    }

    lemma ZipHasMember(box: Container, index: nat, entry: ZipEntry, member: Member)
      requires IsZipEntry(box, index, entry) && FromZip(w, entry, member)
      ensures MemberIn(w, limits, box, member)
    {
      hide FromZip;
    }

    lemma ZipSaysCancelled(box: Container, index: nat, entry: ZipEntry, limit: nat)
      requires IsZipEntry(box, index, entry)
      ensures SaysCancelled(entry, limit) ==> CancelledZip(w, box.data)
    {
      hide SaysCancelled;
    }

    lemma ZipStopsAt(
      box: Container, depth: nat, all: seq<ZipEntry>, taken: seq<nat>, i: nat, steps: seq<Step>)
      requires i < |all| && ZipCovered(limits, box, depth, all, taken, i, steps)
      ensures entries + 1 > limits.entries || EndsZip(limits, all[i]) ==> ZipStops(box, depth, all, taken, steps)
    {
      hide ZipCovered, EndsZip;
    }

    /** The walk ends at an entry behind which none is looked at. */
    ghost predicate ZipStops(
      box: Container, depth: nat, all: seq<ZipEntry>, taken: seq<nat>, steps: seq<Step>)
      reads `entries
    {
      || entries + 1 > limits.entries
      || exists k: nat ::
           k < |all| && ZipCovered(limits, box, depth, all, taken, k, steps) && EndsZip(limits, all[k])
    }

    /**
     * Looks at the entries of a ZIP file in order, and counts each. `taken` are those that gave members, which are
     * the ones found. `complete` says that it looked at all of them. It does unless somebody said otherwise, or the
     * callback was told why no further entry is looked at.
     */
    method ExtractZip(data: seq<byte>, depth: nat, ghost box: Container)
      returns (r: Result<Control, SourceError>, ghost taken: seq<nat>, ghost found: seq<Member>, ghost complete: bool)
      requires Valid() && IsOpen(depth, box) && box.format.Zip? && box.data == data
      modifies this
      ensures Valid() && Grows() && Slack() >= old(Slack())
      ensures Walked(w, limits, depth, found, New(), r)
      ensures Reasonable(old(Now()), r) || (r == Err(Cancelled) && CancelledZip(w, data))
      ensures match w.zip(data)
              case None =>
                && !complete && found == [] && r == w.answers(old(events))
                && New() == [Reported(depth, BadZip(box))] && CutShort(New(), depth, box)
              case Some(all) =>
                && TakenFromZip(w, all, taken, found, |all|)
                && (complete ==>
                      && ZipCovered(limits, box, depth, all, taken, |all|, New())
                      && acceptedEntries >= old(acceptedEntries) + |all| && r == Ok(GoOn))
                && (!complete ==>
                      || (r != Ok(GoOn) && (Said(old(Now()), r) || (r == Err(Cancelled) && CancelledZip(w, data))))
                      || (CutShort(New(), depth, box) && ZipStops(box, depth, all, taken, New())))
      decreases limits.depth - depth, 2, 2
    {
      hide HandedBytes, SeenCount, Valid, Slack, Said, CutShort, Walked, Looked, FromZip, NothingInZip, TakenFromZip;
      hide ZipCovered, EndsZip, CancelledZip, Founded, ZipStops;
      taken, found, complete := [], [], false;
      NothingWalked(w, limits, depth, Ok(GoOn));
      ghost var start := Now();
      var zip := w.zip(data);
      if zip.None? {
        r := TellAbout(depth, box, BadZip(box), start);
        return;
      }
      ghost var all := zip.value;
      NothingTaken(w, limits, box, depth, all);
      ghost var steps: seq<Step> := [];
      assert log == old(log) + steps;
      for i := 0 to |zip.value|
        invariant Valid() && Grows() && Slack() >= old(Slack()) && log == old(log) + steps && IsOpen(depth, box)
        invariant acceptedEntries >= old(acceptedEntries) + i
        invariant Walked(w, limits, depth, found, steps, Ok(GoOn))
        invariant TakenFromZip(w, all, taken, found, i) && TakenFromZip(w, all, taken, found, |all|)
        invariant ZipCovered(limits, box, depth, all, taken, i, steps)
      {
        ghost var now := Now();
        label Entry:
        var done;
        ghost var handed;
        r, done, handed := VisitZipEntry(zip.value[i], depth, box, i);
        ghost var more := New@Entry();
        StillThere(Unpacked(depth, box), old@Entry(log), log);
        Longer(old(log), steps, log);
        ZipNext(w, all, taken, found, i, handed);
        ZipCoveredNext(limits, box, depth, all, taken, steps, i, handed, more);
        WalkedNext(w, limits, depth, found, steps, handed, more, box, r);
        Sooner(start, now, r);
        steps, found := steps + more, found + handed;
        taken := if handed == [] then taken else taken + [i];
        if done {
          ZipStopsAt(box, depth, all, taken, i, steps);
          return;
        }
      }
      r, complete := Ok(GoOn), true;
    }

    /** Streams the members of a 7z archive into memory, within what is left of the limits, before any is processed. */
    method StreamSeven(streamed: seq<SevenEntry>, count: nat) returns (r: Result<seq<Member>, Failure>)
      modifies this`polls
      ensures polls >= old(polls)
      ensures streamed != [] && w.cancelled(old(polls)) ==> r == Err(CancelledInside)
      ensures r.Ok? ==> r.value == SevenMembers(streamed) && |r.value| <= count
      ensures r == Err(CancelledInside) ==> Said(old(Now()), Err(Cancelled)) || CancelledStream(streamed)
      ensures r.Err? && r.error != CancelledInside ==>
                TooMuchInSeven(streamed, count, limits.memberBytes, Room(limits, Counted()))
    {
      hide SevenMembers, TotalBytes, Said;
      ghost var start := Now();
      var extracted: seq<Member> := [];
      var total, room: nat := 0, Minus(limits.totalBytes, expanded);
      NothingStreamed(streamed);
      for i := 0 to |streamed|
        invariant if i == 0 then polls == old(polls) else !w.cancelled(old(polls))
        invariant polls >= old(polls) && |extracted| <= count && total <= room
        invariant extracted == SevenMembers(streamed[..i]) && total == TotalBytes(extracted)
      {
        StreamOne(streamed, i);
        ghost var now := Now();
        var cancelled := IsCancelled();
        if cancelled {
          Sooner(start, now, Err(Cancelled));
          return Err(CancelledInside);
        }
        var entry := streamed[i];
        if entry.isDirectory {
          continue;
        }
        if |extracted| >= count || entry.size > limits.memberBytes {
          return Err(LimitExceeded);
        }
        if entry.content.Err? {
          return Err(entry.content.error);
        }
        if |entry.content.value| > limits.memberBytes || total + |entry.content.value| > room {
          return Err(LimitExceeded);
        }
        total := total + |entry.content.value|;
        extracted := extracted + [Member(entry.name, entry.content.value)];
      }
      r := Ok(extracted);
    }

    /** Counts all entries of a 7z archive at once, unless they are too many. */
    method CountFiles(files: nat) returns (accepts: bool)
      requires Valid()
      modifies this`entries, this`acceptedEntries
      ensures Valid() && (accepts <==> old(entries) + files <= limits.entries)
      ensures Counted() == Counts(old(entries) + (if accepts then files else 0), expanded)
      ensures acceptedEntries == old(acceptedEntries) + if accepts then files else 0
      ensures Slack() == old(Slack()) + if accepts then files else 0
    {
      hide HandedBytes, SeenCount, IssueCount, Below, Grounded, Founded;
      if entries + files >= U64_BOUND || entries + files > limits.entries {
        return false;
      }
      GroundedLater(w, limits, Counted(), Counts(entries + files, expanded), log);
      entries, acceptedEntries := entries + files, acceptedEntries + files;
      accepts := true;
    }

    /**
     * Counts all entries of a 7z archive at once, extracts all members, and then looks at them in order. It looks at
     * all of them unless somebody said otherwise, or the callback was told why nothing of the archive is looked at.
     */
    method ExtractSeven(data: seq<byte>, depth: nat, ghost box: Container)
      returns (r: Result<Control, SourceError>, ghost found: seq<Member>, ghost complete: bool)
      requires Valid() && IsOpen(depth, box) && box == Container(SevenZip, data, Counted())
      modifies this
      ensures Valid() && Grows() && Slack() >= old(Slack())
      ensures Walked(w, limits, depth, found, New(), r)
      ensures Reasonable(old(Now()), r) || (r == Err(Cancelled) && CancelledSeven(w.seven(data)))
      ensures var archive := w.seven(data);
              var all := Streamed(w, limits, data, old(Counted()));
              && (if all.Some? then found <= Cleaned(w, all.value) else found == [])
              && (complete ==>
                    && all.Some? && found == Cleaned(w, all.value) && r == Ok(GoOn)
                    && acceptedEntries >= old(acceptedEntries) + archive.files)
              && (!complete ==>
                    || (r != Ok(GoOn) && (Said(old(Now()), r) || (r == Err(Cancelled) && CancelledSeven(archive))))
                    || (found == [] && CutShort(New(), depth, box)
                        && (SevenRefused(limits, archive, old(Counted()))
                           || old(entries) + archive.files > limits.entries)))
      decreases limits.depth - depth, 2, 1
    {
      hide HandedBytes, SeenCount, Valid, Slack, Said, CutShort, Walked, Cleaned, SevenMembers, TooMuchInSeven, Founded;
      found, complete := [], false;
      NothingWalked(w, limits, depth, Ok(GoOn));
      NothingWalked(w, limits, depth, Err(Cancelled));
      assert New() == [];
      NothingOwed();
      ghost var start := Now();
      var archive := w.seven(data);
      if archive.Unopened? {
        r := TellAbout(depth, box, BadSeven(box), start);
        return;
      }
      var accepts := CountFiles(archive.files);
      if !accepts {
        r := TellAbout(depth, box, TooManyFiles(box), start);
        return;
      }
      if !archive.fits(Minus(limits.totalBytes, expanded)) {
        r := TellAbout(depth, box, BadSeven(box), start);
        return;
      }
      var members := StreamSeven(archive.streamed, archive.files);
      if members == Err(CancelledInside) || (members.Ok? && archive.ending == Some(CancelledInside)) {
        r := Err(Cancelled);
        return;
      }
      ghost var now := Now();
      if members.Err? || archive.ending.Some? {
        r := TellAbout(depth, box, BadSeven(box), start);
        return;
      }
      r, found, complete := LookAtMembers(members.value, depth, box);
      Sooner(start, now, r);
    }

    /** Looks at extracted members in order, all of which have been counted. */
    method LookAtMembers(members: seq<Member>, depth: nat, ghost box: Container)
      returns (r: Result<Control, SourceError>, ghost found: seq<Member>, ghost complete: bool)
      requires Valid() && Slack() >= |members| && IsOpen(depth, box)
      requires box.format.SevenZip? && Streamed(w, limits, box.data, box.before) == Some(members)
      modifies this
      ensures Valid() && Grows() && Slack() >= old(Slack()) - |members| && Reasonable(old(Now()), r)
      ensures Walked(w, limits, depth, found, New(), r) && found <= Cleaned(w, members)
      ensures if complete then found == Cleaned(w, members) && r == Ok(GoOn) else r != Ok(GoOn) && Said(old(Now()), r)
      decreases limits.depth - depth, 2, 0
    {
      hide HandedBytes, SeenCount, Valid, Slack, Said, CutShort, Walked, Looked, Cleaned, Processed, Founded;
      hide Streamed;
      found, complete := [], false;
      NothingWalked(w, limits, depth, Ok(GoOn));
      CleanedOne(w, Member([], []));
      ghost var start := Now();
      ghost var steps: seq<Step> := [];
      assert log == old(log) + steps;
      assert members[..0] == [] && members[..|members|] == members;
      for i := 0 to |members|
        invariant Valid() && Grows() && Slack() >= old(Slack()) - i && log == old(log) + steps
        invariant IsOpen(depth, box) && Walked(w, limits, depth, found, steps, Ok(GoOn))
                  && found == Cleaned(w, members[..i])
      {
        CleanedPrefix(w, members[..i + 1], members);
        assert members[..i + 1] == members[..i] + [members[i]];
        CleanedAppend(w, members[..i], [members[i]]);
        CleanedOne(w, members[i]);
        SevenHasMember(box, members[i]);
        MemberFounds(w, limits, Counted(), log, depth, box, Member(w.clean(members[i].name), members[i].data));
        ghost var now := Now();
        label Member:
        r := ProcessStreamed(members[i].data, w.clean(members[i].name), depth);
        ghost var more := New@Member();
        StillThere(Unpacked(depth, box), old@Member(log), log);
        Longer(old(log), steps, log);
        WalkedNext(w, limits, depth, found, steps, Cleaned(w, [members[i]]), more, box, r);
        Sooner(start, now, r);
        steps, found := steps + more, found + Cleaned(w, [members[i]]);
        if r.Err? || r.value == Stop {
          return;
        }
      }
      r, complete := Ok(GoOn), true;
    }

    lemma SevenHasMember(box: Container, member: Member)
      requires box.format.SevenZip? && Streamed(w, limits, box.data, box.before).Some?
      requires member in Streamed(w, limits, box.data, box.before).value
      ensures MemberIn(w, limits, box, Member(w.clean(member.name), member.data))
    {
      hide Cleaned, Streamed;
      CleanedIn(w, Streamed(w, limits, box.data, box.before).value, member);
    }
  }

  /**
   * A whole traversal. It ends; the bytes handed on and the members looked at stay within their limits, counting
   * everything in every container; every container opened lies below the depth limit; nothing is made up, from the
   * data handed on to the issues told to the callback, which hold; and whatever stopped the traversal early was said
   * by the signal, by the callback, by a plain file source, or by the decoder or parser of a container that was
   * opened. When it goes on to its end and nothing was told to the callback, it has walked through everything: every
   * member of every nested container, in order. What it has handed on are then exactly the plain files of whatever tree
   * of archives is packed in the data.
   */
  method Traverse(w: World, limits: Limits, data: seq<byte>, name: seq<byte>)
    returns (r: Result<Control, SourceError>, ghost state: ArchiveState)
    requires w.identify(name).Some? && limits.depth > 0
    ensures fresh(state) && state.w == w && state.limits == limits
    ensures HandedBytes(state.log) <= state.accepted <= limits.totalBytes
    ensures SeenCount(state.log) <= state.acceptedEntries <= limits.entries
    ensures Below(state.log, limits.depth) && Grounded(w, limits, state.Counted(), state.log)
    ensures if w.cancelled(0) then r == Err(Cancelled) && state.log == []
            else Does(w, limits, data, name, 0, Counts(0, 0), state.log, r)
    ensures state.Reasonable(Marks(0, 0, 0, 0), r) && IssueCount(state.log) == state.events
    ensures r == Ok(GoOn) && state.events == 0 ==> Whole(w, limits, data, name, 0, state.log)
    ensures r == Ok(GoOn) && state.events == 0 ==>
              forall tree: Tree | tree.name == name && tree.data == data && Packed(w, tree) ::
                HandedIn(state.log) == Leaves(w, limits, tree, 0)
  {
    hide HandedBytes, SeenCount, IssueCount, Below, Grounded, Does, Whole, Packed, Leaves, HandedIn;
    var walk := new ArchiveState(w, limits);
    r := walk.Process(data, name, 0);
    state := walk;
    if r == Ok(GoOn) && state.events == 0 {
      NoIssue(state.log);
      DoesDeeper(w, limits, data, name, 0, Counts(0, 0), state.log, r);
      forall tree: Tree | tree.name == name && tree.data == data && Packed(w, tree)
        ensures HandedIn(state.log) == Leaves(w, limits, tree, 0)
      {
        WholeHandsOn(w, limits, tree, 0, state.log);
      }
    }
  }
}
