/** What a walk through nested archives is given, what it does step by step, and what its steps amount to. */
module ArchiveLog {
  import opened Common
  import opened TarFormat

  datatype Limits = Limits(depth: nat, entries: u64, memberBytes: u64, totalBytes: u64)

  datatype Control = GoOn | Stop

  datatype SourceError = Cancelled | Callback | Terminal

  datatype Failure = CancelledInside | LimitExceeded | Damaged

  type Codec = nat

  datatype Format = Tar | Zip | SevenZip | Rar | CompressedTar(codec: Codec) | Stream(codec: Codec)

  datatype RarEntry = RarEntry(name: seq<byte>, data: seq<byte>, isDirectory: bool)

  /** A ZIP entry: what the directory says of it, and what decoding it under a limit gives. */
  datatype ZipEntry =
    | Broken
    | Entry(name: seq<byte>, isDirectory: bool, sizeHint: nat, located: bool, supported: bool,
            decoded: nat -> Result<seq<byte>, Failure>, checks: seq<byte> -> bool)

  /** An opened 7z archive: its number of entries, whether its declared sizes fit, and the members it streams. */
  datatype Seven = Unopened | Opened(files: nat, fits: nat -> bool, streamed: seq<SevenEntry>, ending: Option<Failure>)

  datatype SevenEntry = SevenEntry(name: seq<byte>, isDirectory: bool, size: nat, content: Result<seq<byte>, Failure>)

  /**
   * What the walk takes from elsewhere: the format a name stands for, the decoders, the parsers of other containers,
   * the first-level allowlist, name cleaning, the callback's answers, the cancellation signal and plain file sources.
   */
  datatype World = World(
    identify: seq<byte> -> Option<Format>, decode: (Codec, seq<byte>, nat) -> Result<seq<byte>, Failure>,
    zip: seq<byte> -> Option<seq<ZipEntry>>, seven: seq<byte> -> Seven,
    rar: (seq<byte>, nat, nat, nat) -> Result<seq<RarEntry>, Failure>, allowed: seq<byte> -> bool,
    clean: seq<byte> -> seq<byte>, reportsDepth: bool, answers: nat -> Result<Control, SourceError>,
    cancelled: nat -> bool, plain: nat -> Result<Control, SourceError>)

  function Smaller(a: nat, b: nat): nat { if a < b then a else b }

  function Minus(a: nat, b: nat): nat { if a < b then 0 else a - b }

  /** The entries and bytes counted so far. */
  datatype Counts = Counts(entries: nat, expanded: nat)

  /** What is opened: data of a format, and what was counted before. */
  datatype Container = Container(format: Format, data: seq<byte>, before: Counts)

  function Room(limits: Limits, before: Counts): nat { Minus(limits.totalBytes, before.expanded) }

  /** How many bytes a member may have. */
  function MemberRoom(limits: Limits, before: Counts): nat { Smaller(Room(limits, before), limits.memberBytes) }

  // ---------------------------------------------------------------------
  // What is found in a container
  // ---------------------------------------------------------------------

  /** What a decoder gives within what is left of the limits. */
  function Decoded(
    w: World, limits: Limits, codec: Codec, data: seq<byte>, before: Counts): Result<seq<byte>, Failure>
  {
    var limit := MemberRoom(limits, before);
    var decoded := w.decode(codec, data, limit);
    if limit == 0 || (decoded.Ok? && |decoded.value| > limit) then Err(LimitExceeded) else decoded
  }

  /** What the RAR parser finds within what is left of the limits. */
  function Parsed(w: World, limits: Limits, data: seq<byte>, before: Counts): Result<seq<RarEntry>, Failure> {
    w.rar(data, Minus(limits.entries, before.entries), limits.memberBytes, Room(limits, before))
  }

  /** Members under the names they are processed by. */
  function Cleaned(w: World, members: seq<Member>): (cleaned: seq<Member>)
    ensures |cleaned| == |members|
  {
    seq(|members|, i requires 0 <= i < |members| => Member(w.clean(members[i].name), members[i].data))
  }

  function RarMembers(entries: seq<RarEntry>): seq<Member> {
    if entries == [] then [] else RarMembers(entries[..|entries| - 1]) + RarMember(entries[|entries| - 1])
  }

  function RarMember(entry: RarEntry): seq<Member> {
    if entry.isDirectory then [] else [Member(entry.name, entry.data)]
  }

  /** What the entries of a 7z archive hold, directories apart. */
  function SevenMembers(entries: seq<SevenEntry>): seq<Member> {
    if entries == [] then []
    else
      var last := entries[|entries| - 1];
      SevenMembers(entries[..|entries| - 1])
      + if last.isDirectory || last.content.Err? then [] else [Member(last.name, last.content.value)]
  }

  function TotalBytes(members: seq<Member>): nat {
    if members == [] then 0 else TotalBytes(members[..|members| - 1]) + |members[|members| - 1].data|
  }

  /** The members of a 7z archive that opens, fits into the memory left, and streams all of its entries. */
  function Streamed(w: World, limits: Limits, data: seq<byte>, before: Counts): Option<seq<Member>> {
    var archive := w.seven(data);
    if archive.Opened? && archive.fits(Room(limits, before)) && archive.ending.None?
    then Some(SevenMembers(archive.streamed)) else None
  }

  /** An entry that cannot be extracted, whatever its neighbours are. */
  predicate BadSevenEntry(entry: SevenEntry, memberBytes: nat) {
    !entry.isDirectory
    && (entry.size > memberBytes || entry.content.Err? || |entry.content.value| > memberBytes)
  }

  /** An entry is damaged or too large, or the first so many of them are too many or too large together. */
  ghost predicate TooMuchInSeven(entries: seq<SevenEntry>, count: nat, memberBytes: nat, room: nat) {
    || (exists i :: 0 <= i < |entries| && BadSevenEntry(entries[i], memberBytes))
    || (exists i :: 0 <= i <= |entries| && |SevenMembers(entries[..i])| > count)
    || (exists i :: 0 <= i <= |entries| && TotalBytes(SevenMembers(entries[..i])) > room)
  }

  /** Why nothing of a 7z archive is looked at, apart from too many entries and from cancellation. */
  ghost predicate SevenRefused(limits: Limits, archive: Seven, before: Counts) {
    || archive.Unopened? || !archive.fits(Room(limits, before)) || archive.ending.Some?
    || TooMuchInSeven(archive.streamed, archive.files, limits.memberBytes, Room(limits, before))
  }

  /** What decoding a ZIP entry under a limit gives, when it is what the directory says. */
  function ZipContent(entry: ZipEntry, limit: nat): Option<seq<byte>>
    requires entry.Entry?
  {
    if !entry.supported || entry.decoded(limit).Err? then None
    else
      var content := entry.decoded(limit).value;
      if |content| == entry.sizeHint && entry.checks(content) then Some(content) else None
  }

  /**
   * A member comes from an entry that is no directory: it is what the entry decodes to, and has the size and checksum
   * declared for it.
   */
  ghost predicate FromZip(w: World, entry: ZipEntry, member: Member) {
    && entry.Entry? && !entry.isDirectory && member.name == w.clean(entry.name)
    && entry.supported && (exists limit: nat :: entry.decoded(limit) == Ok(member.data))
    && |member.data| == entry.sizeHint && entry.checks(member.data)
  }

  /** `taken` are the entries that members came from, in order, among the first `n`. */
  ghost predicate TakenFromZip(w: World, entries: seq<ZipEntry>, taken: seq<nat>, members: seq<Member>, n: nat) {
    && |taken| == |members| && n <= |entries|
    && (forall i | 0 <= i < |taken| :: taken[i] < n && FromZip(w, entries[taken[i]], members[i]))
    && (forall i, j | 0 <= i < j < |taken| :: taken[i] < taken[j])
  }

  /** An entry that gives no member is a directory, or the callback was told that it does not decode. */
  ghost predicate NothingInZip(box: Container, depth: nat, index: nat, entry: ZipEntry, steps: seq<Step>) {
    entry.Entry? && (entry.isDirectory || exists limit :: Reported(depth, BadEntry(box, index, limit)) in steps)
  }

  /** Every one of the first `n` entries gave a member or had none to give, and none of them ended the walk. */
  ghost predicate ZipCovered(
    limits: Limits, box: Container, depth: nat, entries: seq<ZipEntry>, taken: seq<nat>, n: nat, steps: seq<Step>)
    requires n <= |entries|
  {
    forall k: nat | k < n ::
      !EndsZip(limits, entries[k]) && (k in taken || NothingInZip(box, depth, k, entries[k], steps))
  }

  /** An entry at which the walk over a ZIP file ends, whatever the callback says. */
  predicate EndsZip(limits: Limits, entry: ZipEntry) {
    entry.Broken? || (!entry.isDirectory && (entry.sizeHint > limits.memberBytes || !entry.located))
  }

  /**
   * `members` are all that a container holds, under the names they are processed by, apart from the entries of a
   * ZIP file that the callback was told do not decode.
   */
  ghost predicate Holds(
    w: World, limits: Limits, box: Container, depth: nat, members: seq<Member>, steps: seq<Step>)
  {
    match box.format
    case Tar => members == Cleaned(w, Members(box.data, None))
    case Zip =>
      var all := w.zip(box.data);
      all.Some? && exists taken ::
        && TakenFromZip(w, all.value, taken, members, |all.value|)
        && ZipCovered(limits, box, depth, all.value, taken, |all.value|, steps)
    case SevenZip =>
      var all := Streamed(w, limits, box.data, box.before);
      all.Some? && members == Cleaned(w, all.value)
    case Rar =>
      var parsed := Parsed(w, limits, box.data, box.before);
      parsed.Ok? && members == Cleaned(w, RarMembers(parsed.value))
    case CompressedTar(codec) =>
      var decoded := Decoded(w, limits, codec, box.data, box.before);
      decoded.Ok? && members == Cleaned(w, Members(decoded.value, None))
    case Stream(_) => members == []
  }

  /** `members` are the first that a container holds, or for a ZIP file some of them, in order. */
  ghost predicate Starts(w: World, limits: Limits, box: Container, members: seq<Member>) {
    match box.format
    case Tar => members <= Cleaned(w, Members(box.data, None))
    case Zip =>
      var all := w.zip(box.data);
      members == [] || (all.Some? && exists taken :: TakenFromZip(w, all.value, taken, members, |all.value|))
    case SevenZip =>
      var all := Streamed(w, limits, box.data, box.before);
      members == [] || (all.Some? && members <= Cleaned(w, all.value))
    case Rar =>
      var parsed := Parsed(w, limits, box.data, box.before);
      members == [] || (parsed.Ok? && members <= Cleaned(w, RarMembers(parsed.value)))
    case CompressedTar(codec) =>
      var decoded := Decoded(w, limits, codec, box.data, box.before);
      members == [] || (decoded.Ok? && members <= Cleaned(w, Members(decoded.value, None)))
    case Stream(_) => members == []
  }

  /** `member` is one that a container holds. */
  ghost predicate MemberIn(w: World, limits: Limits, box: Container, member: Member) {
    match box.format
    case Tar => member in Cleaned(w, Members(box.data, None))
    case Zip =>
      var all := w.zip(box.data);
      all.Some? && exists i :: 0 <= i < |all.value| && FromZip(w, all.value[i], member)
    case SevenZip =>
      var all := Streamed(w, limits, box.data, box.before);
      all.Some? && member in Cleaned(w, all.value)
    case Rar =>
      var parsed := Parsed(w, limits, box.data, box.before);
      parsed.Ok? && member in Cleaned(w, RarMembers(parsed.value))
    case CompressedTar(codec) =>
      var decoded := Decoded(w, limits, codec, box.data, box.before);
      decoded.Ok? && member in Cleaned(w, Members(decoded.value, None))
    case Stream(_) => false
  }

  /** `tar` is the TAR file in a container, which may be compressed. */
  ghost predicate TarIn(w: World, limits: Limits, box: Container, tar: seq<byte>) {
    match box.format
    case Tar => tar == box.data
    case CompressedTar(codec) => Decoded(w, limits, codec, box.data, box.before) == Ok(tar)
    case _ => false
  }

  /** `content` is what a compressed stream decodes to. */
  ghost predicate StreamIn(w: World, limits: Limits, box: Container, content: seq<byte>) {
    box.format.Stream? && Decoded(w, limits, box.format.codec, box.data, box.before) == Ok(content)
  }

  // ---------------------------------------------------------------------
  // Steps
  // ---------------------------------------------------------------------

  /** What the callback is told about a member, about counted entries, or about a container. */
  datatype Issue =
    | TooDeep(member: Member)
    | OverLimit(member: Member)
    | TooManyEntries
    | BadEntry(box: Container, index: nat, limit: nat)
    | TooManyFiles(box: Container)
    | NoRoom(box: Container, tar: seq<byte>, offset: nat)
    | BadTar(box: Container, tar: seq<byte>, offset: nat)
    | BadZip(box: Container)
    | EndingEntry(box: Container, index: nat)
    | BadSeven(box: Container)
    | BadRar(box: Container)
    | BadStream(box: Container)

  /** An issue behind which the walk over a container may end before all of it was looked at. */
  predicate EndsWalk(issue: Issue, box: Container) {
    match issue
    case TooDeep(_) => false
    case OverLimit(_) => false
    case TooManyEntries => true
    case BadEntry(_, _, _) => false
    case _ => issue.box == box
  }

  /**
   * A member looked at inside a container of the given depth, a container opened, an issue told to the callback, and
   * data handed on as a plain file.
   */
  datatype Step =
    | Seen(depth: nat, member: Member)
    | Unpacked(depth: nat, box: Container)
    | Reported(depth: nat, issue: Issue)
    | Handed(data: seq<byte>)

  /** The members looked at in containers of the given depth. */
  function AtLevel(steps: seq<Step>, depth: nat): seq<Member> {
    if steps == [] then []
    else
      var last := steps[|steps| - 1];
      AtLevel(steps[..|steps| - 1], depth) + if last.Seen? && last.depth == depth then [last.member] else []
  }

  function SeenCount(steps: seq<Step>): nat {
    if steps == [] then 0 else SeenCount(steps[..|steps| - 1]) + if steps[|steps| - 1].Seen? then 1 else 0
  }

  function IssueCount(steps: seq<Step>): nat {
    if steps == [] then 0 else IssueCount(steps[..|steps| - 1]) + if steps[|steps| - 1].Reported? then 1 else 0
  }

  function HandedBytes(steps: seq<Step>): nat {
    if steps == [] then 0
    else
      var last := steps[|steps| - 1];
      HandedBytes(steps[..|steps| - 1]) + if last.Handed? then |last.data| else 0
  }

  /** Everything is done inside an open container of the given depth, so containers are opened deeper. */
  ghost predicate Inside(steps: seq<Step>, depth: nat) {
    forall s | s in steps :: !s.Handed? ==> s.depth >= depth && (s.Unpacked? ==> s.depth > depth)
  }

  /** No member is looked at and no container is unpacked at the given depth or deeper. */
  ghost predicate Below(steps: seq<Step>, depth: nat) {
    forall s | s in steps :: s.Seen? || s.Unpacked? ==> s.depth < depth
  }

  ghost predicate Silent(steps: seq<Step>) {
    forall s | s in steps :: !s.Reported?
  }

  /** The walk over a container ended early, and the callback was told why. */
  ghost predicate CutShort(steps: seq<Step>, depth: nat, box: Container) {
    exists s :: s in steps && s.Reported? && s.depth == depth && EndsWalk(s.issue, box)
  }

  /** Whether bytes fit the limit for one member and, with all bytes counted so far, the limit in total. */
  predicate Fit(limits: Limits, counts: Counts, bytes: nat) {
    bytes <= limits.memberBytes && counts.expanded + bytes <= limits.totalBytes
  }

  /** What is told about the thing it is told about holds. The counts are those of now or of any later time. */
  ghost predicate Justified(w: World, limits: Limits, counts: Counts, depth: nat, issue: Issue) {
    match issue
    case TooDeep(member) => depth >= limits.depth && w.identify(member.name).Some?
    case OverLimit(member) => !Fit(limits, counts, |member.data|)
    case TooManyEntries => counts.entries + 1 > limits.entries
    case BadEntry(box, index, limit) =>
      var all := w.zip(box.data);
      && box.format.Zip? && all.Some? && index < |all.value| && all.value[index].Entry?
      && ZipContent(all.value[index], limit) == None
    case TooManyFiles(box) =>
      box.format.SevenZip? && w.seven(box.data).Opened? && counts.entries + w.seven(box.data).files > limits.entries
    case NoRoom(box, tar, offset) => TarIn(w, limits, box, tar) && FullHeader(limits, counts, tar, offset)
    case BadTar(box, tar, offset) => TarIn(w, limits, box, tar) && DamagedTar(tar, offset)
    case BadZip(box) => box.format.Zip? && w.zip(box.data).None?
    case EndingEntry(box, index) =>
      var all := w.zip(box.data);
      box.format.Zip? && all.Some? && index < |all.value| && EndsZip(limits, all.value[index])
    case BadSeven(box) => box.format.SevenZip? && SevenRefused(limits, w.seven(box.data), box.before)
    case BadRar(box) => box.format.Rar? && Parsed(w, limits, box.data, box.before).Err?
    case BadStream(box) =>
      match box.format {
        case CompressedTar(codec) => Decoded(w, limits, codec, box.data, box.before).Err?
        case Stream(codec) => Decoded(w, limits, codec, box.data, box.before).Err?
        case _ => false
      }
  }

  /** A TAR file is empty, or goes on with a broken header, or with one whose body or padding is cut off. */
  ghost predicate DamagedTar(tar: seq<byte>, offset: nat) {
    || tar == []
    || (offset <= |tar| && offset % BLOCK == 0
        && var block := TarBlockOf(tar[offset..]);
           block.BadBlock? || (block.Header? && offset + BLOCK + Padded(block.size) > |tar|))
  }

  /** There is no room for the body behind a header. */
  ghost predicate FullHeader(limits: Limits, counts: Counts, tar: seq<byte>, offset: nat) {
    && offset <= |tar| && TarBlockOf(tar[offset..]).Header?
    && !Fit(limits, counts, TarBlockOf(tar[offset..]).size)
  }

  /**
   * Nothing is made up: a container is what the traversal is for, or a member that was looked at one level up; a
   * member comes from a container that was opened; data handed on is that of a member, or what a stream decodes to;
   * and an issue is about such a thing, and holds.
   */
  ghost predicate Founded(w: World, limits: Limits, counts: Counts, log: seq<Step>, s: Step) {
    match s
    case Seen(depth, member) => exists box :: Unpacked(depth, box) in log && MemberIn(w, limits, box, member)
    case Unpacked(depth, box) =>
      || depth == 0
      || exists name :: Seen(depth - 1, Member(name, box.data)) in log && w.identify(name) == Some(box.format)
    case Handed(data) =>
      || (exists depth, name :: Seen(depth, Member(name, data)) in log && w.identify(name).None?)
      || (exists depth, box :: Unpacked(depth, box) in log && StreamIn(w, limits, box, data))
    case Reported(depth, issue) =>
      && Justified(w, limits, counts, depth, issue)
      && match issue {
           case TooDeep(member) => depth == 0 || Seen(depth - 1, member) in log
           case OverLimit(member) => Seen(depth, member) in log
           case TooManyEntries => true
           case _ => Unpacked(depth, issue.box) in log
         }
  }

  ghost predicate Grounded(w: World, limits: Limits, counts: Counts, log: seq<Step>) {
    forall s | s in log :: Founded(w, limits, counts, log, s)
  }

  // ---------------------------------------------------------------------
  // What ends a walk
  // ---------------------------------------------------------------------

  /** A TAR file of such a length that the end of a header or of its padding is beyond the numbers there are. */
  predicate TarTooLong(data: seq<byte>, r: Result<Control, SourceError>) {
    r == Err(Terminal) && |data| + 2 * BLOCK >= U64_BOUND
  }

  /** Decoding an entry of a ZIP file said that the signal was given. */
  ghost predicate CancelledZip(w: World, data: seq<byte>) {
    w.zip(data).Some? && exists i, limit ::
      0 <= i < |w.zip(data).value| && SaysCancelled(w.zip(data).value[i], limit)
  }

  predicate SaysCancelled(entry: ZipEntry, limit: nat) {
    entry.Entry? && !entry.isDirectory && entry.supported && entry.decoded(limit) == Err(CancelledInside)
  }

  /** Streaming the members of a 7z archive said that the signal was given. */
  ghost predicate CancelledSeven(archive: Seven) {
    archive.Opened? && (archive.ending == Some(CancelledInside) || CancelledStream(archive.streamed))
  }

  ghost predicate CancelledStream(streamed: seq<SevenEntry>) {
    exists i :: 0 <= i < |streamed| && !streamed[i].isDirectory && streamed[i].content == Err(CancelledInside)
  }

  /** A decoder or parser that a container was given to said that the signal was given, or a TAR file is too long. */
  ghost predicate EndsItself(w: World, limits: Limits, box: Container, r: Result<Control, SourceError>) {
    match box.format
    case Tar => TarTooLong(box.data, r)
    case Zip => r == Err(Cancelled) && CancelledZip(w, box.data)
    case SevenZip => r == Err(Cancelled) && CancelledSeven(w.seven(box.data))
    case Rar => r == Err(Cancelled) && Parsed(w, limits, box.data, box.before) == Err(CancelledInside)
    case CompressedTar(codec) =>
      var decoded := Decoded(w, limits, codec, box.data, box.before);
      (r == Err(Cancelled) && decoded == Err(CancelledInside)) || (decoded.Ok? && TarTooLong(decoded.value, r))
    case Stream(codec) => r == Err(Cancelled) && Decoded(w, limits, codec, box.data, box.before) == Err(CancelledInside)
  }

  // ---------------------------------------------------------------------
  // Whole walks
  // ---------------------------------------------------------------------

  /**
   * Steps that walk through everything in `data`: a plain file is handed on, and of a container below the depth limit
   * every member is looked at in order, and everything in it is walked through in turn. At the limit a container is
   * passed over in silence only where that is asked for.
   */
  ghost predicate Whole(w: World, limits: Limits, data: seq<byte>, name: seq<byte>, depth: nat, steps: seq<Step>)
    decreases Minus(limits.depth, depth), 3
  {
    var format := w.identify(name);
    if format.None? then steps == [Handed(data)]
    else if depth >= limits.depth then steps == [] && !w.reportsDepth
    else
      && steps != [] && steps[0].Unpacked?
      && steps[0] == Unpacked(depth, Container(format.value, data, steps[0].box.before))
      && WholeContainer(w, limits, steps[0].box, depth, steps[1..])
  }

  ghost predicate WholeContainer(w: World, limits: Limits, box: Container, depth: nat, steps: seq<Step>)
    requires depth < limits.depth
    decreases limits.depth - depth, 2
  {
    if box.format.Stream? then |steps| == 1 && steps[0].Handed? && StreamIn(w, limits, box, steps[0].data)
    else exists members :: Holds(w, limits, box, depth, members, []) && WholeLevel(w, limits, depth, members, steps)
  }

  /** Steps that look at the members in order, each followed by all that is in it. */
  ghost predicate WholeLevel(w: World, limits: Limits, depth: nat, members: seq<Member>, steps: seq<Step>)
    requires depth < limits.depth
    decreases limits.depth - depth, 1, |members|
  {
    if members == [] then steps == []
    else
      exists k ::
        && 0 <= k < |steps| && WholeLevel(w, limits, depth, members[..|members| - 1], steps[..k])
        && WholeMember(w, limits, depth, members[|members| - 1], steps[k..])
  }

  ghost predicate WholeMember(w: World, limits: Limits, depth: nat, member: Member, steps: seq<Step>)
    requires depth < limits.depth
    decreases limits.depth - depth, 0
  {
    && steps != [] && steps[0] == Seen(depth, member)
    && if depth == 0 && w.allowed(member.name) then steps[1..] == []
       else Whole(w, limits, member.data, member.name, depth + 1, steps[1..])
  }

  // ---------------------------------------------------------------------
  // One step more
  // ---------------------------------------------------------------------

  lemma AddStep(steps: seq<Step>, s: Step)
    ensures SeenCount(steps + [s]) == SeenCount(steps) + if s.Seen? then 1 else 0
    ensures IssueCount(steps + [s]) == IssueCount(steps) + if s.Reported? then 1 else 0
    ensures HandedBytes(steps + [s]) == HandedBytes(steps) + if s.Handed? then |s.data| else 0
  {
    assert (steps + [s])[..|steps|] == steps;
  }

  lemma AddBelow(steps: seq<Step>, s: Step, depth: nat)
    requires Below(steps, depth) && (s.Seen? || s.Unpacked? ==> s.depth < depth)
    ensures Below(steps + [s], depth)
  {
  }

  lemma AddFounded(w: World, limits: Limits, counts: Counts, log: seq<Step>, s: Step)
    requires Grounded(w, limits, counts, log) && Founded(w, limits, counts, log, s)
    ensures Grounded(w, limits, counts, log + [s])
  {
    hide Founded;
    forall t | t in log + [s]
      ensures Founded(w, limits, counts, log + [s], t)
    {
      StaysFounded(w, limits, counts, counts, log, log + [s], t);
    }
  }

  lemma GroundedLater(w: World, limits: Limits, counts: Counts, later: Counts, log: seq<Step>)
    requires Grounded(w, limits, counts, log)
    requires counts.entries <= later.entries && counts.expanded <= later.expanded
    ensures Grounded(w, limits, later, log)
  {
    hide Founded;
    forall t | t in log
      ensures Founded(w, limits, later, log, t)
    {
      StaysFounded(w, limits, counts, later, log, log, t);
    }
  }

  lemma StaysFounded(
    w: World, limits: Limits, counts: Counts, later: Counts, log: seq<Step>, longer: seq<Step>, s: Step)
    requires Founded(w, limits, counts, log, s) && log <= longer
    requires counts.entries <= later.entries && counts.expanded <= later.expanded
    ensures Founded(w, limits, later, longer, s)
  {
    hide Justified, MemberIn, StreamIn;
    assert forall t | t in log :: t in longer;
    if s.Reported? {
      StaysJustified(w, limits, counts, later, s.depth, s.issue);
    }
  }

  lemma StaysJustified(w: World, limits: Limits, counts: Counts, later: Counts, depth: nat, issue: Issue)
    requires Justified(w, limits, counts, depth, issue)
    requires counts.entries <= later.entries && counts.expanded <= later.expanded
    ensures Justified(w, limits, later, depth, issue)
  {
    hide SevenRefused, Parsed, Decoded, DamagedTar, EndsZip, ZipContent, TarBlockOf;
  }

  lemma {:induction false} NoIssue(steps: seq<Step>)
    requires IssueCount(steps) == 0
    ensures Silent(steps)
  {
    if steps != [] {
      NoIssue(steps[..|steps| - 1]);
      assert forall s | s in steps :: s in steps[..|steps| - 1] || s == steps[|steps| - 1];
    }
  }

  // ---------------------------------------------------------------------
  // Walking one level
  // ---------------------------------------------------------------------

  /** Inside a container of the given depth, but no member of it is looked at. */
  ghost predicate Deeper(steps: seq<Step>, depth: nat) {
    Inside(steps, depth) && forall s | s in steps && s.Seen? :: s.depth > depth
  }

  /** At most one member was looked at, and nothing was done in its absence but to report an issue. */
  ghost predicate Looked(
    w: World, limits: Limits, depth: nat, handed: seq<Member>, steps: seq<Step>, r: Result<Control, SourceError>)
    requires depth < limits.depth
  {
    if handed == [] then steps == [] || (|steps| == 1 && steps[0].Reported? && steps[0].depth == depth)
    else
      && |handed| == 1 && steps != [] && steps[0] == Seen(depth, handed[0]) && Deeper(steps[1..], depth)
      && (r == Ok(GoOn) && Silent(steps) ==> WholeMember(w, limits, depth, handed[0], steps))
  }

  /**
   * These members were looked at in a container, in order, and everything else was done inside them. When the walk
   * went on and nothing was reported, everything in them was walked through.
   */
  ghost predicate Walked(
    w: World, limits: Limits, depth: nat, members: seq<Member>, steps: seq<Step>, r: Result<Control, SourceError>)
    requires depth < limits.depth
  {
    && AtLevel(steps, depth) == members && Inside(steps, depth)
    && (r == Ok(GoOn) && Silent(steps) ==> WholeLevel(w, limits, depth, members, steps))
  }

  lemma {:induction false} LevelAppend(a: seq<Step>, b: seq<Step>, depth: nat)
    ensures AtLevel(a + b, depth) == AtLevel(a, depth) + AtLevel(b, depth)
  {
    if b == [] {
      assert a + b == a;
    } else {
      assert (a + b)[..|a + b| - 1] == a + b[..|b| - 1];
      LevelAppend(a, b[..|b| - 1], depth);
    }
  }

  lemma {:induction false} NothingAbove(steps: seq<Step>, depth: nat)
    requires Deeper(steps, depth)
    ensures AtLevel(steps, depth) == []
  {
    if steps != [] {
      var front := steps[..|steps| - 1];
      assert Deeper(front, depth) by {
        assert forall s | s in front :: s in steps;
      }
      NothingAbove(front, depth);
      assert steps[|steps| - 1] in steps;
    }
  }

  lemma OnlySeen(depth: nat, member: Member)
    ensures AtLevel([Seen(depth, member)], depth) == [member] && Inside([Seen(depth, member)], depth)
  {
    assert [Seen(depth, member)][..0] == [];
  }

  lemma InsideAppend(a: seq<Step>, b: seq<Step>, depth: nat)
    requires Inside(a, depth) && Inside(b, depth)
    ensures Inside(a + b, depth)
  {
  }

  lemma QuietIsDeeper(depth: nat, steps: seq<Step>)
    requires steps == [] || (|steps| == 1 && steps[0].Reported? && steps[0].depth == depth)
    ensures Deeper(steps, depth)
  {
  }

  lemma LookedLevel(
    w: World, limits: Limits, depth: nat, handed: seq<Member>, more: seq<Step>, r: Result<Control, SourceError>)
    requires depth < limits.depth && Looked(w, limits, depth, handed, more, r)
    ensures AtLevel(more, depth) == handed && Inside(more, depth)
  {
    hide AtLevel, WholeMember, Inside, Silent;
    if handed == [] {
      QuietIsDeeper(depth, more);
      NothingAbove(more, depth);
    } else {
      assert more == [more[0]] + more[1..];
      OnlySeen(depth, handed[0]);
      NothingAbove(more[1..], depth);
      LevelAppend([more[0]], more[1..], depth);
      InsideAppend([more[0]], more[1..], depth);
    }
  }

  lemma SilentParts(a: seq<Step>, b: seq<Step>)
    requires Silent(a + b)
    ensures Silent(a) && Silent(b)
  {
    assert forall s | s in a :: s in a + b;
    assert forall s | s in b :: s in a + b;
  }

  lemma {:induction false} WholeAppend(
    w: World, limits: Limits, depth: nat, a: seq<Member>, steps: seq<Step>, b: seq<Member>, more: seq<Step>)
    requires depth < limits.depth
    requires WholeLevel(w, limits, depth, a, steps) && WholeLevel(w, limits, depth, b, more)
    ensures WholeLevel(w, limits, depth, a + b, steps + more)
    decreases |b|
  {
    hide WholeMember, WholeLevel;
    if b == [] {
      NoneWhole(w, limits, depth, more);
      assert a + b == a && steps + more == steps;
    } else {
      var front, last := b[..|b| - 1], b[|b| - 1];
      var k := LastMember(w, limits, depth, b, more);
      WholeAppend(w, limits, depth, a, steps, front, more[..k]);
      WholeNext(w, limits, depth, a + front, steps + more[..k], last, more[k..]);
      assert (a + front) + [last] == a + b && (steps + more[..k]) + more[k..] == steps + more;
    }
  }

  lemma LastMember(w: World, limits: Limits, depth: nat, members: seq<Member>, steps: seq<Step>) returns (k: nat)
    requires depth < limits.depth && members != [] && WholeLevel(w, limits, depth, members, steps)
    ensures k < |steps| && WholeLevel(w, limits, depth, members[..|members| - 1], steps[..k])
    ensures WholeMember(w, limits, depth, members[|members| - 1], steps[k..])
  {
    hide WholeMember;
    k :| 0 <= k < |steps| && WholeLevel(w, limits, depth, members[..|members| - 1], steps[..k])
      && WholeMember(w, limits, depth, members[|members| - 1], steps[k..]);
  }

  lemma WholeNext(
    w: World, limits: Limits, depth: nat, found: seq<Member>, steps: seq<Step>, one: Member, more: seq<Step>)
    requires depth < limits.depth && WholeLevel(w, limits, depth, found, steps)
    requires more != [] && WholeMember(w, limits, depth, one, more)
    ensures WholeLevel(w, limits, depth, found + [one], steps + more)
  {
    hide WholeMember;
    var k := |steps|;
    assert (found + [one])[..|found|] == found && (steps + more)[..k] == steps && (steps + more)[k..] == more;
  }

  /** One walk over a part of a container after another. */
  lemma WalkedAppend(
    w: World, limits: Limits, depth: nat, found: seq<Member>, steps: seq<Step>, handed: seq<Member>, more: seq<Step>,
    box: Container, r: Result<Control, SourceError>)
    requires depth < limits.depth && Walked(w, limits, depth, found, steps, Ok(GoOn))
    requires Walked(w, limits, depth, handed, more, r)
    ensures Walked(w, limits, depth, found + handed, steps + more, r)
    ensures CutShort(more, depth, box) ==> CutShort(steps + more, depth, box)
  {
    hide AtLevel, Inside, Silent, WholeLevel;
    LevelAppend(steps, more, depth);
    InsideAppend(steps, more, depth);
    if r == Ok(GoOn) && Silent(steps + more) {
      SilentParts(steps, more);
      WholeAppend(w, limits, depth, found, steps, handed, more);
    }
  }

  /** An entry of a container, on its own. */
  lemma LookedWalked(
    w: World, limits: Limits, depth: nat, handed: seq<Member>, more: seq<Step>, r: Result<Control, SourceError>)
    requires depth < limits.depth && Looked(w, limits, depth, handed, more, r)
    ensures Walked(w, limits, depth, handed, more, r)
  {
    hide AtLevel, WholeMember, Inside, Silent, Deeper;
    LookedLevel(w, limits, depth, handed, more, r);
    if r == Ok(GoOn) && Silent(more) {
      if handed == [] {
        NotReported(more);
      } else {
        assert handed[..|handed| - 1] == [] && more[..0] == [] && more[0..] == more;
        NothingWhole(w, limits, depth);
      }
    }
  }

  lemma NoneWhole(w: World, limits: Limits, depth: nat, steps: seq<Step>)
    requires depth < limits.depth && WholeLevel(w, limits, depth, [], steps)
    ensures steps == []
  {
  }

  lemma NothingWhole(w: World, limits: Limits, depth: nat)
    requires depth < limits.depth
    ensures WholeLevel(w, limits, depth, [], [])
  {
  }

  lemma WalkedNext(
    w: World, limits: Limits, depth: nat, found: seq<Member>, steps: seq<Step>, handed: seq<Member>, more: seq<Step>,
    box: Container, r: Result<Control, SourceError>)
    requires depth < limits.depth && Walked(w, limits, depth, found, steps, Ok(GoOn))
    requires Looked(w, limits, depth, handed, more, r)
    ensures Walked(w, limits, depth, found + handed, steps + more, r)
    ensures CutShort(more, depth, box) ==> CutShort(steps + more, depth, box)
  {
    hide Walked, Looked, CutShort;
    LookedWalked(w, limits, depth, handed, more, r);
    WalkedAppend(w, limits, depth, found, steps, handed, more, box, r);
  }

  lemma NotReported(steps: seq<Step>)
    requires Silent(steps)
    ensures forall i | 0 <= i < |steps| :: !steps[i].Reported?
  {
  }

  lemma NothingWalked(w: World, limits: Limits, depth: nat, r: Result<Control, SourceError>)
    requires depth < limits.depth
    ensures Walked(w, limits, depth, [], [], r)
  {
  }

  /** The callback is told why a walk ends. */
  lemma ToldWhy(
    w: World, limits: Limits, depth: nat, found: seq<Member>, steps: seq<Step>, issue: Issue, box: Container,
    r: Result<Control, SourceError>)
    requires depth < limits.depth && Walked(w, limits, depth, found, steps, Ok(GoOn))
    ensures Walked(w, limits, depth, found, steps + [Reported(depth, issue)], r)
    ensures EndsWalk(issue, box) ==> CutShort(steps + [Reported(depth, issue)], depth, box)
  {
    hide Walked, EndsWalk;
    var told := [Reported(depth, issue)];
    WalkedNext(w, limits, depth, found, steps, [], told, box, r);
    assert found + [] == found && told[0] in steps + told;
  }

  // ---------------------------------------------------------------------
  // What processing and expanding do
  // ---------------------------------------------------------------------

  /**
   * What is done inside a container that is opened. When the walk over it went on, everything in it was looked at,
   * unless an issue was told at which the walk ends. When nothing was told at all, everything in it was walked
   * through at every depth.
   */
  ghost predicate Expands(
    w: World, limits: Limits, box: Container, depth: nat, steps: seq<Step>, r: Result<Control, SourceError>)
    requires depth < limits.depth
  {
    && Inside(steps, depth) && Starts(w, limits, box, AtLevel(steps, depth))
    && (r == Ok(GoOn) ==> CutShort(steps, depth, box) || Finished(w, limits, box, depth, steps))
    && (r == Ok(GoOn) && Silent(steps) ==> WholeContainer(w, limits, box, depth, steps))
  }

  /** All members of a container were looked at, or the data of a stream was handed on. */
  ghost predicate Finished(w: World, limits: Limits, box: Container, depth: nat, steps: seq<Step>) {
    if box.format.Stream? then |steps| == 1 && steps[0].Handed? && StreamIn(w, limits, box, steps[0].data)
    else Holds(w, limits, box, depth, AtLevel(steps, depth), steps)
  }

  /**
   * What processing does when the signal is clear: a plain file is handed on, and a container below the depth limit is
   * opened. Everything else that is done happens inside that container.
   */
  ghost predicate Does(
    w: World, limits: Limits, data: seq<byte>, name: seq<byte>, depth: nat, before: Counts, steps: seq<Step>,
    r: Result<Control, SourceError>)
  {
    var format := w.identify(name);
    if format.None? then steps == [Handed(data)]
    else if depth >= limits.depth then
      if w.reportsDepth then steps == [Reported(depth, TooDeep(Member(name, data)))] else steps == [] && r == Ok(GoOn)
    else
      var box := Container(format.value, data, before);
      steps != [] && steps[0] == Unpacked(depth, box) && Expands(w, limits, box, depth, steps[1..], r)
  }

  lemma DoesPlain(
    w: World, limits: Limits, data: seq<byte>, name: seq<byte>, depth: nat, before: Counts,
    r: Result<Control, SourceError>)
    requires w.identify(name).None?
    ensures Does(w, limits, data, name, depth, before, [Handed(data)], r)
  {
  }

  lemma CutIsTold(steps: seq<Step>, depth: nat, box: Container)
    requires CutShort(steps, depth, box)
    ensures !Silent(steps)
  {
  }

  lemma ExpandedLevel(
    w: World, limits: Limits, box: Container, depth: nat, found: seq<Member>, steps: seq<Step>,
    r: Result<Control, SourceError>)
    requires depth < limits.depth && !box.format.Stream?
    requires Walked(w, limits, depth, found, steps, r) && Starts(w, limits, box, found)
    requires r == Ok(GoOn) ==> CutShort(steps, depth, box) || Holds(w, limits, box, depth, found, steps)
    ensures Expands(w, limits, box, depth, steps, r)
  {
    hide AtLevel, Inside, Starts, Holds, WholeLevel, CutShort, Silent;
    if r == Ok(GoOn) && Silent(steps) {
      if CutShort(steps, depth, box) {
        CutIsTold(steps, depth, box);
      } else {
        HoldsAll(w, limits, box, depth, found, steps);
      }
    }
  }

  /** When nothing was told to the callback, nothing that a container holds is missing. */
  lemma HoldsAll(w: World, limits: Limits, box: Container, depth: nat, members: seq<Member>, steps: seq<Step>)
    requires Silent(steps) && Holds(w, limits, box, depth, members, steps)
    ensures Holds(w, limits, box, depth, members, [])
  {
    hide Cleaned, Members, SevenMembers, RarMembers, TakenFromZip, EndsZip, Streamed, Parsed, Decoded;
    if box.format.Zip? {
      var all := w.zip(box.data).value;
      var taken :| TakenFromZip(w, all, taken, members, |all|)
                   && ZipCovered(limits, box, depth, all, taken, |all|, steps);
      assert ZipCovered(limits, box, depth, all, taken, |all|, []);
    }
  }

  /** A container in which nothing was looked at. */
  lemma NothingExpanded(
    w: World, limits: Limits, box: Container, depth: nat, steps: seq<Step>, r: Result<Control, SourceError>)
    requires depth < limits.depth && (r == Ok(GoOn) ==> CutShort(steps, depth, box))
    requires steps == [] || (|steps| == 1 && steps[0].Reported? && steps[0].depth == depth)
    requires !box.format.Tar?
    ensures Expands(w, limits, box, depth, steps, r)
  {
    hide AtLevel, Inside, Holds, Finished, WholeContainer, CutShort, Silent, Deeper;
    QuietIsDeeper(depth, steps);
    NothingAbove(steps, depth);
    assert Inside(steps, depth) by {
      DeeperIsInside(steps, depth);
    }
    if r == Ok(GoOn) {
      CutIsTold(steps, depth, box);
    }
    StartsWithNothing(w, limits, box);
  }

  lemma DeeperIsInside(steps: seq<Step>, depth: nat)
    requires Deeper(steps, depth)
    ensures Inside(steps, depth)
  {
    hide Inside;
  }

  lemma StartsWithNothing(w: World, limits: Limits, box: Container)
    ensures Starts(w, limits, box, [])
  {
    hide Decoded, Parsed, Cleaned, Members;
  }

  /** A stream whose data was handed on. */
  lemma StreamExpanded(
    w: World, limits: Limits, box: Container, depth: nat, data: seq<byte>, r: Result<Control, SourceError>)
    requires depth < limits.depth && StreamIn(w, limits, box, data)
    ensures Expands(w, limits, box, depth, [Handed(data)], r)
  {
    hide Decoded, CutShort;
    assert [Handed(data)][..0] == [];
    assert AtLevel([Handed(data)], depth) == [];
  }

  /** What processing does is deeper than the member it is done for. */
  lemma DoesDeeper(
    w: World, limits: Limits, data: seq<byte>, name: seq<byte>, depth: nat, before: Counts, steps: seq<Step>,
    r: Result<Control, SourceError>)
    requires Does(w, limits, data, name, depth, before, steps, r)
    ensures forall s | s in steps :: !s.Handed? ==> s.depth >= depth
    ensures r == Ok(GoOn) && Silent(steps) ==> Whole(w, limits, data, name, depth, steps)
  {
    hide AtLevel, Starts, CutShort, Finished, WholeContainer;
    if w.identify(name).Some? && depth < limits.depth {
      assert steps == [steps[0]] + steps[1..];
      if Silent(steps) {
        SilentParts([steps[0]], steps[1..]);
      }
    } else if w.identify(name).Some? && w.reportsDepth {
      assert steps[0] in steps;
    }
  }

  lemma DeeperStill(steps: seq<Step>, depth: nat)
    requires forall s | s in steps :: !s.Handed? ==> s.depth >= depth + 1
    ensures Deeper(steps, depth)
  {
  }

  /** A member was looked at, and this was done for it. */
  lemma MemberLooked(
    w: World, limits: Limits, depth: nat, member: Member, rest: seq<Step>, r: Result<Control, SourceError>)
    requires depth < limits.depth && Deeper(rest, depth)
    requires r == Ok(GoOn) && Silent(rest) ==>
               if depth == 0 && w.allowed(member.name) then rest == []
               else Whole(w, limits, member.data, member.name, depth + 1, rest)
    ensures Looked(w, limits, depth, [member], [Seen(depth, member)] + rest, r)
  {
    hide Whole, Deeper, Silent;
    var steps := [Seen(depth, member)] + rest;
    assert steps[1..] == rest;
    if Silent(steps) {
      SilentParts([Seen(depth, member)], rest);
    }
  }

  // ---------------------------------------------------------------------
  // Walks over the single formats
  // ---------------------------------------------------------------------

  lemma CleanedPrefix(w: World, a: seq<Member>, b: seq<Member>)
    requires a <= b
    ensures Cleaned(w, a) <= Cleaned(w, b)
  {
  }

  lemma CleanedAppend(w: World, a: seq<Member>, b: seq<Member>)
    ensures Cleaned(w, a + b) == Cleaned(w, a) + Cleaned(w, b)
  {
  }

  lemma CleanedOne(w: World, member: Member)
    ensures Cleaned(w, [member]) == [Member(w.clean(member.name), member.data)] && Cleaned(w, []) == []
  {
  }

  /** The offsets of headers: block by block, and one behind the other. */
  ghost predicate BlockOffsets(offsets: seq<nat>, below: nat) {
    && (forall i | 0 <= i < |offsets| :: offsets[i] % BLOCK == 0 && offsets[i] < below)
    && (forall i, j | 0 <= i < j < |offsets| :: offsets[i] < offsets[j])
  }

  lemma NoOffsets()
    ensures forall below :: BlockOffsets([], below)
  {
  }

  lemma NextOffset(offsets: seq<nat>, offset: nat)
    requires BlockOffsets(offsets, offset) && offset % BLOCK == 0
    ensures forall below | offset < below :: BlockOffsets(offsets, below) && BlockOffsets(offsets + [offset], below)
  {
  }

  lemma NoHeader(rest: seq<byte>, longName: Option<seq<byte>>)
    ensures !TarBlockOf(rest).Header? ==> Members(rest, longName) == []
  {
    MembersStep(rest, longName);
  }

  /** What a header hands on are the first members of the rest, and the others come behind its padding. */
  lemma HeaderMembers(data: seq<byte>, offset: nat, longName: Option<seq<byte>>, handed: seq<Member>)
    requires offset <= |data| && TarBlockOf(data[offset..]).Header?
    requires var block := TarBlockOf(data[offset..]);
             handed <= MemberOf(block, longName, data[offset + BLOCK..offset + BLOCK + block.size])
    ensures handed <= Members(data[offset..], longName)
    ensures var block := TarBlockOf(data[offset..]);
            var body := data[offset + BLOCK..offset + BLOCK + block.size];
            var next := offset + BLOCK + Padded(block.size);
            handed == MemberOf(block, longName, body) ==>
              Members(data[offset..], longName) ==
              handed + if next > |data| then [] else Members(data[next..], NameAfter(block, body))
  {
    hide TarBlockOf, Members, MemberOf, NameAfter, Padded;
    var rest := data[offset..];
    var block := TarBlockOf(rest);
    var behind := BLOCK + Padded(block.size);
    MembersStep(rest, longName);
    assert Body(rest) == data[offset + BLOCK..offset + BLOCK + block.size];
    assert behind <= |rest| ==> rest[behind..] == data[offset + behind..];
  }

  lemma {:induction false} RarPrefix(entries: seq<RarEntry>, i: nat)
    requires i <= |entries|
    ensures RarMembers(entries[..i]) <= RarMembers(entries)
    decreases |entries|
  {
    if i == |entries| {
      assert entries[..i] == entries;
    } else {
      var n := |entries| - 1;
      RarPrefix(entries[..n], i);
      assert entries[..n][..i] == entries[..i];
    }
  }

  lemma RarStep(entries: seq<RarEntry>, i: nat)
    requires i < |entries|
    ensures RarMembers(entries[..i + 1]) == RarMembers(entries[..i]) + RarMember(entries[i])
    ensures RarMembers(entries[..i + 1]) <= RarMembers(entries)
  {
    hide RarMember;
    var longer := entries[..i + 1];
    assert |longer| == i + 1 && longer[..i] == entries[..i] && longer[i] == entries[i];
    assert RarMembers(longer) == RarMembers(longer[..i]) + RarMember(longer[i]);
    hide RarMembers;
    RarPrefix(entries, i + 1);
  }

  lemma NothingStreamed(entries: seq<SevenEntry>)
    ensures SevenMembers(entries[..0]) == [] && TotalBytes([]) == 0 && entries[..|entries|] == entries
  {
  }

  lemma StreamOne(entries: seq<SevenEntry>, i: nat)
    requires i < |entries|
    ensures var entry, members := entries[i], SevenMembers(entries[..i]);
            if entry.isDirectory then SevenMembers(entries[..i + 1]) == members
            else if entry.content.Ok? then
              var longer := members + [Member(entry.name, entry.content.value)];
              && SevenMembers(entries[..i + 1]) == longer
              && TotalBytes(longer) == TotalBytes(members) + |entry.content.value|
            else true
  {
    assert entries[..i + 1][..i] == entries[..i];
    var members := SevenMembers(entries[..i]);
    assert forall m: Member :: (members + [m])[..|members|] == members;
  }

  /** One more entry of a ZIP file was dealt with. */
  lemma ZipNext(
    w: World, entries: seq<ZipEntry>, taken: seq<nat>, found: seq<Member>, i: nat, handed: seq<Member>)
    requires i < |entries| && TakenFromZip(w, entries, taken, found, i)
    requires handed == [] || (|handed| == 1 && FromZip(w, entries[i], handed[0]))
    ensures var longer := if handed == [] then taken else taken + [i];
            && TakenFromZip(w, entries, longer, found + handed, i + 1)
            && TakenFromZip(w, entries, longer, found + handed, |entries|)
  {
    hide FromZip;
    if handed == [] {
      assert found + handed == found;
    } else {
      var longer, more := taken + [i], found + handed;
      assert more[|found|] == handed[0] && forall k | 0 <= k < |found| :: more[k] == found[k];
      forall k | 0 <= k < |longer|
        ensures longer[k] < i + 1 && FromZip(w, entries[longer[k]], more[k])
      {
        assert longer[k] == if k < |taken| then taken[k] else i;
      }
    }
  }

  /** An entry that did not end the walk was covered. */
  lemma ZipCoveredNext(
    limits: Limits, box: Container, depth: nat, entries: seq<ZipEntry>, taken: seq<nat>, steps: seq<Step>, i: nat,
    handed: seq<Member>, more: seq<Step>)
    requires i < |entries| && ZipCovered(limits, box, depth, entries, taken, i, steps)
    ensures var longer := if handed == [] then taken else taken + [i];
            && ZipCovered(limits, box, depth, entries, longer, i, steps + more)
            && (!EndsZip(limits, entries[i])
                && (handed == [] ==> NothingInZip(box, depth, i, entries[i], more)) ==>
                  ZipCovered(limits, box, depth, entries, longer, i + 1, steps + more))
  {
    hide EndsZip, NothingInZip;
    var longer := if handed == [] then taken else taken + [i];
    assert handed != [] ==> longer[|taken|] == i;
    assert forall k | k in taken :: k in longer;
    forall k: nat | k <= i
      ensures NothingInZip(box, depth, k, entries[k], steps) || NothingInZip(box, depth, k, entries[k], more) ==>
                NothingInZip(box, depth, k, entries[k], steps + more)
    {
      NothingInZipStill(box, depth, k, entries[k], steps, more);
    }
  }

  lemma NothingInZipStill(
    box: Container, depth: nat, index: nat, entry: ZipEntry, steps: seq<Step>, more: seq<Step>)
    ensures NothingInZip(box, depth, index, entry, steps) || NothingInZip(box, depth, index, entry, more) ==>
              NothingInZip(box, depth, index, entry, steps + more)
  {
    assert forall s | s in steps || s in more :: s in steps + more;
  }

  lemma TarExpanded(
    w: World, limits: Limits, box: Container, tar: seq<byte>, depth: nat, found: seq<Member>, complete: bool,
    steps: seq<Step>, r: Result<Control, SourceError>)
    requires depth < limits.depth && Walked(w, limits, depth, Cleaned(w, found), steps, r)
    requires TarIn(w, limits, box, tar) && found <= Members(tar, None)
    requires if complete then found == Members(tar, None) else r == Ok(GoOn) ==> CutShort(steps, depth, box)
    ensures Expands(w, limits, box, depth, steps, r)
  {
    hide Walked, Members, Cleaned, CutShort, Expands, Decoded;
    CleanedPrefix(w, found, Members(tar, None));
    ExpandedLevel(w, limits, box, depth, Cleaned(w, found), steps, r);
  }

  lemma Told(depth: nat, issue: Issue, box: Container)
    requires EndsWalk(issue, box)
    ensures CutShort([Reported(depth, issue)], depth, box)
  {
    assert Reported(depth, issue) in [Reported(depth, issue)];
  }

  lemma BehindFirst(first: Step, rest: seq<Step>)
    ensures ([first] + rest)[0] == first && ([first] + rest)[1..] == rest
  {
  }

  lemma Longer(base: seq<Step>, steps: seq<Step>, now: seq<Step>)
    requires base + steps <= now
    ensures now == base + (steps + now[|base + steps|..]) && now[|base|..] == steps + now[|base + steps|..]
  {
  }

  /** Nothing more was done, but the walk ends. */
  lemma StillWalked(
    w: World, limits: Limits, depth: nat, found: seq<Member>, steps: seq<Step>, r: Result<Control, SourceError>)
    requires depth < limits.depth && Walked(w, limits, depth, found, steps, Ok(GoOn))
    ensures Walked(w, limits, depth, found, steps, r)
  {
    hide AtLevel, Inside, Silent, WholeLevel;
  }

  /**
   * What is done for a member behind looking at it. `counts` and the answer to an issue are those of the time before.
   */
  ghost predicate Processed(
    w: World, limits: Limits, depth: nat, member: Member, counts: Counts, answer: Result<Control, SourceError>,
    cancelled: bool, rest: seq<Step>, r: Result<Control, SourceError>)
  {
    if depth == 0 && w.allowed(member.name) then r == Ok(GoOn) && rest == []
    else if !Fit(limits, counts, |member.data|) then
      r == answer && rest == [Reported(depth, OverLimit(member))]
    else if cancelled then r == Err(Cancelled) && rest == []
    else
      var accounted := counts.(expanded := counts.expanded + |member.data|);
      Does(w, limits, member.data, member.name, depth + 1, accounted, rest, r)
  }

  lemma ProcessedLooked(
    w: World, limits: Limits, depth: nat, member: Member, counts: Counts, answer: Result<Control, SourceError>,
    cancelled: bool, rest: seq<Step>, r: Result<Control, SourceError>)
    requires depth < limits.depth && Processed(w, limits, depth, member, counts, answer, cancelled, rest, r)
    ensures Looked(w, limits, depth, [member], [Seen(depth, member)] + rest, r)
  {
    hide Looked, Whole, Does, Silent, Deeper, Fit;
    if |rest| == 1 && rest[0] == Reported(depth, OverLimit(member)) {
      QuietIsDeeper(depth, rest);
      TellingBreaksSilence(rest);
    } else if rest == [] && (r == Err(Cancelled) || (depth == 0 && w.allowed(member.name))) {
      QuietIsDeeper(depth, rest);
    } else {
      var accounted := counts.(expanded := counts.expanded + |member.data|);
      DoesDeeper(w, limits, member.data, member.name, depth + 1, accounted, rest, r);
      DeeperStill(rest, depth);
    }
    MemberLooked(w, limits, depth, member, rest, r);
  }

  lemma TellingBreaksSilence(steps: seq<Step>)
    requires steps != [] && steps[0].Reported?
    ensures !Silent(steps)
  {
  }

  lemma DamagedHeader(data: seq<byte>, offset: nat)
    requires offset <= |data| && offset % BLOCK == 0
    ensures TarBlockOf(data[offset..]).BadBlock? ==> DamagedTar(data, offset)
  {
    hide TarBlockOf;
  }

  lemma DamagedPadding(data: seq<byte>, offset: nat)
    requires offset <= |data| && offset % BLOCK == 0 && TarBlockOf(data[offset..]).Header?
    requires offset + BLOCK + Padded(TarBlockOf(data[offset..]).size) > |data|
    ensures DamagedTar(data, offset)
  {
    hide TarBlockOf;
  }

  lemma DamagedNothing()
    ensures DamagedTar([], 0)
  {
  }

  lemma NoRarMembers(entries: seq<RarEntry>)
    ensures RarMembers(entries[..0]) == [] && entries[..|entries|] == entries
  {
  }

  lemma NothingTaken(w: World, limits: Limits, box: Container, depth: nat, entries: seq<ZipEntry>)
    ensures TakenFromZip(w, entries, [], [], 0) && TakenFromZip(w, entries, [], [], |entries|)
    ensures ZipCovered(limits, box, depth, entries, [], 0, [])
  {
  }

  lemma RarExpanded(
    w: World, limits: Limits, box: Container, depth: nat, found: seq<Member>, complete: bool, steps: seq<Step>,
    r: Result<Control, SourceError>)
    requires depth < limits.depth && box.format.Rar? && Walked(w, limits, depth, found, steps, r)
    requires var parsed := Parsed(w, limits, box.data, box.before);
             if parsed.Err? then found == [] && !complete
             else
               found <= Cleaned(w, RarMembers(parsed.value))
                 && (complete ==> found == Cleaned(w, RarMembers(parsed.value)))
    requires !complete && r == Ok(GoOn) ==> CutShort(steps, depth, box)
    ensures Expands(w, limits, box, depth, steps, r)
  {
    hide Walked, Cleaned, CutShort, Expands, Parsed, RarMembers;
    ExpandedLevel(w, limits, box, depth, found, steps, r);
  }

  lemma SevenExpanded(
    w: World, limits: Limits, box: Container, depth: nat, found: seq<Member>, complete: bool, steps: seq<Step>,
    r: Result<Control, SourceError>)
    requires depth < limits.depth && box.format.SevenZip? && Walked(w, limits, depth, found, steps, r)
    requires var all := Streamed(w, limits, box.data, box.before);
             if all.None? then found == [] && !complete
             else found <= Cleaned(w, all.value) && (complete ==> found == Cleaned(w, all.value))
    requires !complete && r == Ok(GoOn) ==> CutShort(steps, depth, box)
    ensures Expands(w, limits, box, depth, steps, r)
  {
    hide Walked, Cleaned, CutShort, Expands, Streamed;
    ExpandedLevel(w, limits, box, depth, found, steps, r);
  }

  lemma ZipExpanded(
    w: World, limits: Limits, box: Container, depth: nat, taken: seq<nat>, found: seq<Member>, complete: bool,
    steps: seq<Step>, r: Result<Control, SourceError>)
    requires depth < limits.depth && box.format.Zip? && Walked(w, limits, depth, found, steps, r)
    requires var all := w.zip(box.data);
             if all.None? then found == [] && !complete
             else
               && TakenFromZip(w, all.value, taken, found, |all.value|)
               && (complete ==> ZipCovered(limits, box, depth, all.value, taken, |all.value|, steps))
    requires !complete && r == Ok(GoOn) ==> CutShort(steps, depth, box)
    ensures Expands(w, limits, box, depth, steps, r)
  {
    hide Walked, CutShort, Expands, TakenFromZip, ZipCovered;
    ExpandedLevel(w, limits, box, depth, found, steps, r);
  }

  // ---------------------------------------------------------------------
  // Where things come from
  // ---------------------------------------------------------------------

  lemma StillThere(s: Step, log: seq<Step>, longer: seq<Step>)
    requires s in log && log <= longer
    ensures s in longer
  {
  }

  /** An issue about a container that was opened. */
  lemma AboutBox(w: World, limits: Limits, counts: Counts, log: seq<Step>, depth: nat, issue: Issue)
    requires !issue.TooDeep? && !issue.OverLimit? && !issue.TooManyEntries?
    requires Unpacked(depth, issue.box) in log && Justified(w, limits, counts, depth, issue)
    ensures Founded(w, limits, counts, log, Reported(depth, issue))
  {
    hide Justified;
  }

  lemma AboutEntries(w: World, limits: Limits, counts: Counts, log: seq<Step>, depth: nat)
    requires counts.entries + 1 > limits.entries
    ensures Founded(w, limits, counts, log, Reported(depth, TooManyEntries))
  {
  }

  lemma AboutMember(w: World, limits: Limits, counts: Counts, log: seq<Step>, depth: nat, member: Member)
    requires Seen(depth, member) in log && !Fit(limits, counts, |member.data|)
    ensures Founded(w, limits, counts, log, Reported(depth, OverLimit(member)))
  {
    hide Fit;
  }

  /** What is processed is what the traversal is for, or a member that was looked at one level up. */
  ghost predicate Given(w: World, log: seq<Step>, data: seq<byte>, name: seq<byte>, depth: nat) {
    if depth == 0 then w.identify(name).Some? else Seen(depth - 1, Member(name, data)) in log
  }

  lemma GivenFounds(
    w: World, limits: Limits, counts: Counts, log: seq<Step>, data: seq<byte>, name: seq<byte>, depth: nat)
    requires Given(w, log, data, name, depth)
    ensures var format := w.identify(name);
            if format.None? then Founded(w, limits, counts, log, Handed(data))
            else
              && Founded(w, limits, counts, log, Unpacked(depth, Container(format.value, data, counts)))
              && (depth >= limits.depth ==>
                    Founded(w, limits, counts, log, Reported(depth, TooDeep(Member(name, data)))))
  {
    if depth > 0 {
      assert Seen(depth - 1, Member(name, data)) in log;
    }
  }

  lemma StreamFounds(
    w: World, limits: Limits, counts: Counts, log: seq<Step>, depth: nat, box: Container, data: seq<byte>)
    requires Unpacked(depth, box) in log && StreamIn(w, limits, box, data)
    ensures Founded(w, limits, counts, log, Handed(data))
  {
    hide StreamIn;
  }

  lemma MemberFounds(
    w: World, limits: Limits, counts: Counts, log: seq<Step>, depth: nat, box: Container, member: Member)
    requires Unpacked(depth, box) in log && MemberIn(w, limits, box, member)
    ensures Founded(w, limits, counts, log, Seen(depth, member))
  {
    hide MemberIn;
  }

  lemma CleanedIn(w: World, members: seq<Member>, member: Member)
    requires member in members
    ensures Member(w.clean(member.name), member.data) in Cleaned(w, members)
  {
    var i :| 0 <= i < |members| && members[i] == member;
    assert Cleaned(w, members)[i] == Member(w.clean(member.name), member.data);
  }

  lemma TarHasMember(w: World, limits: Limits, box: Container, tar: seq<byte>, member: Member)
    requires TarIn(w, limits, box, tar) && member in Members(tar, None)
    ensures MemberIn(w, limits, box, Member(w.clean(member.name), member.data))
  {
    hide Decoded, Members, Cleaned;
    CleanedIn(w, Members(tar, None), member);
  }

  lemma TarIssues(
    w: World, limits: Limits, counts: Counts, log: seq<Step>, depth: nat, box: Container, tar: seq<byte>, offset: nat)
    requires Unpacked(depth, box) in log && TarIn(w, limits, box, tar)
    ensures FullHeader(limits, counts, tar, offset) ==>
              Founded(w, limits, counts, log, Reported(depth, NoRoom(box, tar, offset)))
    ensures DamagedTar(tar, offset) ==> Founded(w, limits, counts, log, Reported(depth, BadTar(box, tar, offset)))
    ensures EndsWalk(NoRoom(box, tar, offset), box) && EndsWalk(BadTar(box, tar, offset), box)
  {
    hide TarIn, FullHeader, DamagedTar;
  }
}
