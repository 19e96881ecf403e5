/** Trees of archives, and what a whole walk through one hands on. */
module ArchiveTrees {
  import opened Common
  import opened TarFormat
  import opened ArchiveLog

  /** Data under the name it is processed by, and what is packed in it when it is a container. */
  datatype Tree = Tree(name: seq<byte>, data: seq<byte>, inside: seq<Tree>)

  /** What a listing has: a member, or a directory. */
  datatype Listed = Packs(tree: Tree) | Folder

  /** The members of a listing, in order. */
  function Files(items: seq<Listed>): seq<Tree> {
    if items == [] then []
    else
      var last := items[|items| - 1];
      Files(items[..|items| - 1]) + if last.Packs? then [last.tree] else []
  }

  function AsMembers(trees: seq<Tree>): (members: seq<Member>)
    ensures |members| == |trees|
  {
    seq(|trees|, i requires 0 <= i < |trees| => Member(trees[i].name, trees[i].data))
  }

  predicate ListsRar(w: World, entry: RarEntry, item: Listed) {
    match item
    case Folder => entry.isDirectory
    case Packs(tree) => !entry.isDirectory && tree.name == w.clean(entry.name) && tree.data == entry.data
  }

  predicate ListsSeven(w: World, entry: SevenEntry, item: Listed) {
    match item
    case Folder => entry.isDirectory
    case Packs(tree) => !entry.isDirectory && tree.name == w.clean(entry.name) && entry.content == Ok(tree.data)
  }

  ghost predicate ListsZip(w: World, entry: ZipEntry, item: Listed) {
    match item
    case Folder => entry.Entry? && entry.isDirectory
    case Packs(tree) =>
      && entry.Entry? && !entry.isDirectory && tree.name == w.clean(entry.name)
      && forall limit: nat :: entry.decoded(limit).Ok? ==> entry.decoded(limit).value == tree.data
  }

  ghost predicate ListsAllRar(w: World, entries: seq<RarEntry>, items: seq<Listed>) {
    |entries| == |items| && forall i | 0 <= i < |items| :: ListsRar(w, entries[i], items[i])
  }

  ghost predicate ListsAllSeven(w: World, entries: seq<SevenEntry>, items: seq<Listed>) {
    |entries| == |items| && forall i | 0 <= i < |items| :: ListsSeven(w, entries[i], items[i])
  }

  ghost predicate ListsAllZip(w: World, entries: seq<ZipEntry>, items: seq<Listed>) {
    |entries| == |items| && forall i | 0 <= i < |items| :: ListsZip(w, entries[i], items[i])
  }

  /** A TAR file as it is written, with these members. */
  ghost predicate IsTar(w: World, data: seq<byte>, inside: seq<Tree>) {
    exists items: seq<Item> ::
      && (forall i | 0 <= i < |items| :: FitsTar(items[i]))
      && data == TarOf(items) && Cleaned(w, MembersOf(items)) == AsMembers(inside)
  }

  /** Data of a format in which these trees are packed. Parsers and decoders may fail, but do not make things up. */
  ghost predicate PackedAs(w: World, format: Format, data: seq<byte>, inside: seq<Tree>) {
    match format
    case Tar => IsTar(w, data, inside)
    case Zip =>
      w.zip(data).Some? ==> exists items :: Files(items) == inside && ListsAllZip(w, w.zip(data).value, items)
    case SevenZip =>
      w.seven(data).Opened? ==>
        exists items :: Files(items) == inside && ListsAllSeven(w, w.seven(data).streamed, items)
    case Rar =>
      forall entries, bytes, room :: w.rar(data, entries, bytes, room).Ok? ==>
        exists items :: Files(items) == inside && ListsAllRar(w, w.rar(data, entries, bytes, room).value, items)
    case CompressedTar(codec) =>
      forall limit :: w.decode(codec, data, limit).Ok? ==> IsTar(w, w.decode(codec, data, limit).value, inside)
    case Stream(codec) =>
      |inside| == 1 && forall limit :: w.decode(codec, data, limit).Ok? ==>
        w.decode(codec, data, limit).value == inside[0].data
  }

  /** A tree whose containers hold what is inside them. What a compressed stream holds is a plain file in any case. */
  ghost predicate Packed(w: World, tree: Tree)
    decreases tree
  {
    match w.identify(tree.name)
    case None => true
    case Some(format) =>
      && PackedAs(w, format, tree.data, tree.inside)
      && (format.Stream? || forall i | 0 <= i < |tree.inside| :: Packed(w, tree.inside[i]))
  }

  /**
   * The plain files in a tree, from the first to the last: those at every depth, unless containers at the limit are
   * passed over in silence.
   */
  function Leaves(w: World, limits: Limits, tree: Tree, depth: nat): seq<seq<byte>>
    decreases tree, 1, 0
  {
    match w.identify(tree.name)
    case None => [tree.data]
    case Some(format) =>
      if depth >= limits.depth && !w.reportsDepth then []
      else if format.Stream? then (if |tree.inside| == 1 then [tree.inside[0].data] else [])
      else LeavesOf(w, limits, tree, depth, |tree.inside|)
  }

  /** The plain files in the first `n` members of a container. Allowed members of the outermost one are passed over. */
  function LeavesOf(w: World, limits: Limits, tree: Tree, depth: nat, n: nat): seq<seq<byte>>
    requires n <= |tree.inside|
    decreases tree, 0, n
  {
    if n == 0 then []
    else
      var last := tree.inside[n - 1];
      LeavesOf(w, limits, tree, depth, n - 1)
      + if depth == 0 && w.allowed(last.name) then [] else Leaves(w, limits, last, depth + 1)
  }

  /** The data that steps hand on. */
  function HandedIn(steps: seq<Step>): seq<seq<byte>> {
    if steps == [] then []
    else
      var last := steps[|steps| - 1];
      HandedIn(steps[..|steps| - 1]) + if last.Handed? then [last.data] else []
  }

  lemma {:induction false} HandedAppend(a: seq<Step>, b: seq<Step>)
    ensures HandedIn(a + b) == HandedIn(a) + HandedIn(b)
  {
    if b == [] {
      assert a + b == a;
    } else {
      assert (a + b)[..|a + b| - 1] == a + b[..|b| - 1];
      HandedAppend(a, b[..|b| - 1]);
    }
  }

  /** A first step that hands nothing on. */
  lemma HandedBehind(steps: seq<Step>)
    requires steps != [] && !steps[0].Handed?
    ensures HandedIn(steps) == HandedIn(steps[1..])
  {
    assert steps == [steps[0]] + steps[1..] && [steps[0]][..0] == [];
    HandedAppend([steps[0]], steps[1..]);
  }

  // ---------------------------------------------------------------------
  // The members found are those packed
  // ---------------------------------------------------------------------

  lemma AsMembersAppend(a: seq<Tree>, b: seq<Tree>)
    ensures AsMembers(a + b) == AsMembers(a) + AsMembers(b)
  {
  }

  lemma FilesNext(items: seq<Listed>)
    requires items != []
    ensures var last := items[|items| - 1];
            AsMembers(Files(items)) == AsMembers(Files(items[..|items| - 1]))
              + if last.Packs? then [Member(last.tree.name, last.tree.data)] else []
  {
    hide AsMembers;
    var last := items[|items| - 1];
    AsMembersAppend(Files(items[..|items| - 1]), if last.Packs? then [last.tree] else []);
    AsMembersOne(last);
  }

  lemma AsMembersOne(item: Listed)
    ensures item.Packs? ==> AsMembers([item.tree]) == [Member(item.tree.name, item.tree.data)]
    ensures AsMembers([]) == []
  {
  }

  lemma {:induction false} RarFiles(w: World, entries: seq<RarEntry>, items: seq<Listed>)
    requires ListsAllRar(w, entries, items)
    ensures Cleaned(w, RarMembers(entries)) == AsMembers(Files(items))
  {
    if items != [] {
      var n := |items| - 1;
      RarFiles(w, entries[..n], items[..n]);
      FilesNext(items);
      assert ListsRar(w, entries[n], items[n]);
      CleanedAppend(w, RarMembers(entries[..n]), RarMember(entries[n]));
      CleanedOne(w, Member(entries[n].name, entries[n].data));
    }
  }

  lemma {:induction false} SevenFiles(w: World, entries: seq<SevenEntry>, items: seq<Listed>)
    requires ListsAllSeven(w, entries, items)
    ensures Cleaned(w, SevenMembers(entries)) == AsMembers(Files(items))
  {
    if items != [] {
      var n := |items| - 1;
      SevenFiles(w, entries[..n], items[..n]);
      FilesNext(items);
      assert ListsSeven(w, entries[n], items[n]);
      var last := if items[n].Packs? then [Member(entries[n].name, entries[n].content.value)] else [];
      CleanedAppend(w, SevenMembers(entries[..n]), last);
      if items[n].Packs? {
        CleanedOne(w, last[0]);
      }
      assert Cleaned(w, []) == [];
    }
  }

  /** The first `n` entries of a ZIP file, when nothing was told about any of them. */
  lemma {:induction false} ZipFiles(
    w: World, limits: Limits, box: Container, depth: nat, entries: seq<ZipEntry>, items: seq<Listed>,
    taken: seq<nat>, members: seq<Member>, n: nat)
    requires ListsAllZip(w, entries, items) && n <= |entries|
    requires TakenFromZip(w, entries, taken, members, n) && ZipCovered(limits, box, depth, entries, taken, n, [])
    ensures members == AsMembers(Files(items[..n]))
  {
    hide EndsZip, ListsZip, FromZip, TakenFromZip, ZipCovered;
    if n == 0 {
      NoneTaken(w, entries, taken, members);
    } else {
      var k := n - 1;
      FilesNext(items[..n]);
      assert items[..n][..k] == items[..k];
      assert ListsZip(w, entries[k], items[k]);
      ZipListed(w, entries[k], items[k]);
      if items[k].Folder? {
        FolderNotTaken(w, limits, box, depth, entries, items[k], taken, members, k);
        ZipFiles(w, limits, box, depth, entries, items, taken, members, k);
      } else {
        var m := LastTaken(w, limits, box, depth, entries, items[k], taken, members, k);
        ZipFiles(w, limits, box, depth, entries, items, taken[..m], members[..m], k);
        assert members == members[..m] + [members[m]];
      }
    }
  }

  /** Growing numbers below `n` are not more than `n`. */
  lemma {:induction false} TakenFew(taken: seq<nat>, n: nat)
    requires forall i | 0 <= i < |taken| :: taken[i] < n
    requires forall i, j | 0 <= i < j < |taken| :: taken[i] < taken[j]
    ensures |taken| <= n
  {
    if taken != [] {
      TakenFew(taken[..|taken| - 1], taken[|taken| - 1]);
    }
  }

  lemma NoneTaken(w: World, entries: seq<ZipEntry>, taken: seq<nat>, members: seq<Member>)
    requires TakenFromZip(w, entries, taken, members, 0)
    ensures taken == [] && members == []
  {
    TakenFew(taken, 0);
  }

  /** A directory gave no member. */
  lemma FolderNotTaken(
    w: World, limits: Limits, box: Container, depth: nat, entries: seq<ZipEntry>, item: Listed, taken: seq<nat>,
    members: seq<Member>, k: nat)
    requires k < |entries| && ListsZip(w, entries[k], item) && item.Folder?
    requires TakenFromZip(w, entries, taken, members, k + 1)
    requires ZipCovered(limits, box, depth, entries, taken, k + 1, [])
    ensures TakenFromZip(w, entries, taken, members, k)
    ensures ZipCovered(limits, box, depth, entries, taken, k, [])
  {
    hide EndsZip, ListsZip, FromZip;
    forall i | 0 <= i < |taken|
      ensures taken[i] < k
    {
      if taken[i] == k {
        ZipNoMember(w, entries[k], item, members[i]);
      }
    }
  }

  /** Any other entry gave the last of the members so far. */
  lemma LastTaken(
    w: World, limits: Limits, box: Container, depth: nat, entries: seq<ZipEntry>, item: Listed, taken: seq<nat>,
    members: seq<Member>, k: nat) returns (m: nat)
    requires k < |entries| && ListsZip(w, entries[k], item) && item.Packs?
    requires TakenFromZip(w, entries, taken, members, k + 1)
    requires ZipCovered(limits, box, depth, entries, taken, k + 1, [])
    ensures |taken| == |members| == m + 1 && members[m] == Member(item.tree.name, item.tree.data)
    ensures TakenFromZip(w, entries, taken[..m], members[..m], k)
    ensures ZipCovered(limits, box, depth, entries, taken[..m], k, [])
  {
    ZipListed(w, entries[k], item);
    assert k in taken;
    hide EndsZip, ListsZip, FromZip, NothingInZip;
    m := |taken| - 1;
    var i :| 0 <= i < |taken| && taken[i] == k;
    assert taken[i] <= taken[m] && taken[m] < k + 1;
    ZipMemberIs(w, entries[k], item, members[m]);
    assert forall j | 0 <= j < m :: taken[j] < taken[m];
    assert forall j: nat | j < k :: j in taken ==> j in taken[..m];
  }

  lemma ZipListed(w: World, entry: ZipEntry, item: Listed)
    requires ListsZip(w, entry, item)
    ensures entry.Entry? && (entry.isDirectory <==> item.Folder?)
  {
  }

  lemma ZipNoMember(w: World, entry: ZipEntry, item: Listed, member: Member)
    requires ListsZip(w, entry, item) && item.Folder?
    ensures !FromZip(w, entry, member)
  {
  }

  lemma ZipMemberIs(w: World, entry: ZipEntry, item: Listed, member: Member)
    requires ListsZip(w, entry, item) && item.Packs? && FromZip(w, entry, member)
    ensures member == Member(item.tree.name, item.tree.data)
  {
  }

  /** What a container was found to hold is what is packed in it. */
  lemma HeldIsPacked(w: World, limits: Limits, box: Container, depth: nat, members: seq<Member>, inside: seq<Tree>)
    requires PackedAs(w, box.format, box.data, inside) && !box.format.Stream?
    requires ArchiveLog.Holds(w, limits, box, depth, members, [])
    ensures members == AsMembers(inside)
  {
    hide Cleaned, Members, RarMembers, SevenMembers, AsMembers, Files, TakenFromZip, ZipCovered, FitsTar, TarOf;
    hide ListsAllRar, ListsAllSeven, ListsAllZip, MembersOf, IsTar;
    match box.format
    case Tar => TarHeld(w, box.data, inside);
    case CompressedTar(codec) =>
      var decoded := Decoded(w, limits, codec, box.data, box.before);
      assert w.decode(codec, box.data, MemberRoom(limits, box.before)) == decoded;
      TarHeld(w, decoded.value, inside);
    case Zip =>
      var all := w.zip(box.data).value;
      var items :| Files(items) == inside && ListsAllZip(w, all, items);
      var taken :| TakenFromZip(w, all, taken, members, |all|)
                   && ZipCovered(limits, box, depth, all, taken, |all|, []);
      ZipFiles(w, limits, box, depth, all, items, taken, members, |all|);
      AllListed(w, all, items);
    case SevenZip =>
      var items :| Files(items) == inside && ListsAllSeven(w, w.seven(box.data).streamed, items);
      SevenFiles(w, w.seven(box.data).streamed, items);
    case Rar =>
      var parsed := Parsed(w, limits, box.data, box.before);
      var items :| Files(items) == inside && ListsAllRar(w, parsed.value, items);
      RarFiles(w, parsed.value, items);
  }

  lemma AllListed(w: World, entries: seq<ZipEntry>, items: seq<Listed>)
    requires ListsAllZip(w, entries, items)
    ensures items[..|entries|] == items
  {
  }

  lemma TarHeld(w: World, data: seq<byte>, inside: seq<Tree>)
    requires IsTar(w, data, inside)
    ensures Cleaned(w, Members(data, None)) == AsMembers(inside)
  {
    hide FitsTar, TarOf, Members, MembersOf, AsMembers, Cleaned;
    var items: seq<Item> :| (forall i | 0 <= i < |items| :: FitsTar(items[i]))
                            && data == TarOf(items) && Cleaned(w, MembersOf(items)) == AsMembers(inside);
    TarRoundTrip(items);
  }

  // ---------------------------------------------------------------------
  // Whole walks
  // ---------------------------------------------------------------------

  /** A whole walk through a tree of archives hands on exactly its plain files, from the first to the last. */
  lemma {:induction false} WholeHandsOn(w: World, limits: Limits, tree: Tree, depth: nat, steps: seq<Step>)
    requires Packed(w, tree) && Whole(w, limits, tree.data, tree.name, depth, steps)
    ensures HandedIn(steps) == Leaves(w, limits, tree, depth)
    decreases tree, 2, 0
  {
    hide PackedAs, WholeContainer, LeavesOf;
    if w.identify(tree.name).None? {
      assert [steps[0]][..0] == [];
    } else if depth < limits.depth {
      HandedBehind(steps);
      ContainerHandsOn(w, limits, tree, depth, steps[0].box, steps[1..]);
    }
  }

  lemma {:induction false} ContainerHandsOn(
    w: World, limits: Limits, tree: Tree, depth: nat, box: Container, steps: seq<Step>)
    requires Packed(w, tree) && depth < limits.depth && w.identify(tree.name) == Some(box.format)
    requires box.data == tree.data && WholeContainer(w, limits, box, depth, steps)
    ensures HandedIn(steps) == Leaves(w, limits, tree, depth)
    decreases tree, 1, 0
  {
    hide ArchiveLog.Holds, WholeLevel, AsMembers, Cleaned;
    if box.format.Stream? {
      StreamHandsOn(w, limits, tree, box, steps);
    } else {
      hide PackedAs;
      var members :| ArchiveLog.Holds(w, limits, box, depth, members, [])
                     && WholeLevel(w, limits, depth, members, steps);
      HeldIsPacked(w, limits, box, depth, members, tree.inside);
      assert tree.inside[..|tree.inside|] == tree.inside;
      LevelHandsOn(w, limits, tree, depth, |tree.inside|, steps);
    }
  }

  lemma StreamHandsOn(w: World, limits: Limits, tree: Tree, box: Container, steps: seq<Step>)
    requires PackedAs(w, box.format, tree.data, tree.inside) && box.format.Stream? && box.data == tree.data
    requires |steps| == 1 && steps[0].Handed? && StreamIn(w, limits, box, steps[0].data)
    ensures |tree.inside| == 1 && HandedIn(steps) == [tree.inside[0].data]
  {
    assert w.decode(box.format.codec, box.data, MemberRoom(limits, box.before)).Ok?;
    assert steps[..0] == [];
  }

  lemma {:induction false} LevelHandsOn(
    w: World, limits: Limits, tree: Tree, depth: nat, n: nat, steps: seq<Step>)
    requires depth < limits.depth && n <= |tree.inside|
    requires forall i | 0 <= i < |tree.inside| :: Packed(w, tree.inside[i])
    requires WholeLevel(w, limits, depth, AsMembers(tree.inside[..n]), steps)
    ensures HandedIn(steps) == LeavesOf(w, limits, tree, depth, n)
    decreases tree, 0, n
  {
    hide Packed, Whole, Leaves, WholeLevel, WholeMember, AsMembers, HandedIn;
    if n == 0 {
      NoLevel(w, limits, tree, depth, steps);
    } else {
      var last := tree.inside[n - 1];
      var k := LevelLast(w, limits, tree, depth, n, steps);
      LevelHandsOn(w, limits, tree, depth, n - 1, steps[..k]);
      MemberHandsOn(w, limits, tree, depth, n - 1, steps[k..]);
      assert steps == steps[..k] + steps[k..];
      HandedAppend(steps[..k], steps[k..]);
    }
  }

  lemma {:induction false} MemberHandsOn(
    w: World, limits: Limits, tree: Tree, depth: nat, i: nat, steps: seq<Step>)
    requires depth < limits.depth && i < |tree.inside| && Packed(w, tree.inside[i])
    requires WholeMember(w, limits, depth, Member(tree.inside[i].name, tree.inside[i].data), steps)
    ensures HandedIn(steps)
         == if depth == 0 && w.allowed(tree.inside[i].name) then [] else Leaves(w, limits, tree.inside[i], depth + 1)
    decreases tree, 0, 0
  {
    hide Packed, Whole, Leaves;
    HandedBehind(steps);
    if !(depth == 0 && w.allowed(tree.inside[i].name)) {
      WholeHandsOn(w, limits, tree.inside[i], depth + 1, steps[1..]);
    }
  }

  lemma NoLevel(w: World, limits: Limits, tree: Tree, depth: nat, steps: seq<Step>)
    requires depth < limits.depth && WholeLevel(w, limits, depth, AsMembers(tree.inside[..0]), steps)
    ensures steps == [] && HandedIn(steps) == []
  {
  }

  lemma LevelLast(w: World, limits: Limits, tree: Tree, depth: nat, n: nat, steps: seq<Step>) returns (k: nat)
    requires depth < limits.depth && 0 < n <= |tree.inside|
    requires WholeLevel(w, limits, depth, AsMembers(tree.inside[..n]), steps)
    ensures k < |steps| && WholeLevel(w, limits, depth, AsMembers(tree.inside[..n - 1]), steps[..k])
    ensures WholeMember(
              w, limits, depth, Member(tree.inside[n - 1].name, tree.inside[n - 1].data), steps[k..])
  {
    hide WholeMember;
    var members, last := AsMembers(tree.inside[..n]), tree.inside[n - 1];
    assert members[..n - 1] == AsMembers(tree.inside[..n - 1]) && members[n - 1] == Member(last.name, last.data);
    k :| 0 <= k < |steps| && WholeLevel(w, limits, depth, members[..n - 1], steps[..k])
         && WholeMember(w, limits, depth, members[n - 1], steps[k..]);
  }
}
