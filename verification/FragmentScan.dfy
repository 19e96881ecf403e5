/** Suppressing generic findings once a scan has stopped or finished. */
module FindingFilter {
  import opened ByteSearch
  import opened Common
  import opened RuleScan
  import opened ScanControl

  /**
   * How findings are filtered: `generic` says which rule names contain "generic" in any case, and `redact` masks a
   * finding when the caller asked for it.
   */
  datatype Filter = Filter(generic: seq<byte> -> bool, redact: Option<Finding -> Finding>)

  predicate Holds(text: seq<byte>, needle: seq<byte>) {
    FirstFrom(text, needle, 0).Some?
  }

  /** A specific finding on the same line whose secret holds the generic one's. */
  predicate Suppresses(filter: Filter, other: Finding, finding: Finding) {
    && finding.startLine == other.startLine && finding.commit == other.commit && finding.ruleId != other.ruleId
    && Holds(other.secret, finding.secret) && !filter.generic(other.ruleId)
  }

  predicate Suppressed(filter: Filter, findings: seq<Finding>, finding: Finding) {
    findings != [] && (Suppresses(filter, findings[0], finding) || Suppressed(filter, findings[1..], finding))
  }

  predicate Retained(filter: Filter, findings: seq<Finding>, finding: Finding) {
    !filter.generic(finding.ruleId) || !Suppressed(filter, findings, finding)
  }

  function Redacted(filter: Filter, finding: Finding): Finding {
    if filter.redact.Some? then filter.redact.value(finding) else finding
  }

  /** Keeps the findings that are marked. Findings behind the last mark are dropped. */
  function ApplyFilter(filter: Filter, findings: seq<Finding>, marks: seq<bool>): seq<Finding>
    requires |marks| <= |findings|
  {
    if marks == [] then []
    else
      var last := |marks| - 1;
      ApplyFilter(filter, findings, marks[..last]) + if marks[last] then [Redacted(filter, findings[last])] else []
  }

  /** The marks that filtering gives to the first `n` findings. */
  function Marks(filter: Filter, findings: seq<Finding>, n: nat): (marks: seq<bool>)
    requires n <= |findings|
    ensures |marks| == n
  {
    seq(n, i requires 0 <= i < n => Retained(filter, findings, findings[i]))
  }

  /** What filtering keeps of the first `n` findings. */
  function FilteredFirst(filter: Filter, findings: seq<Finding>, n: nat): seq<Finding>
    requires n <= |findings|
  {
    ApplyFilter(filter, findings, Marks(filter, findings, n))
  }

  function FilterFindings(filter: Filter, findings: seq<Finding>): seq<Finding> {
    FilteredFirst(filter, findings, |findings|)
  }

  /** Filtering fewer findings gives a prefix of what filtering more of them gives. */
  lemma {:induction false} FilteredPrefix(filter: Filter, findings: seq<Finding>, n: nat, m: nat)
    requires n <= m <= |findings|
    ensures FilteredFirst(filter, findings, n) <= FilteredFirst(filter, findings, m)
  {
    hide Retained;
    if n < m {
      FilteredPrefix(filter, findings, n, m - 1);
      assert Marks(filter, findings, m)[..m - 1] == Marks(filter, findings, m - 1);
    }
  }

  method ApplyFindingFilter(filter: Filter, findings: seq<Finding>, marks: seq<bool>) returns (kept: seq<Finding>)
    requires |marks| <= |findings|
    ensures kept == ApplyFilter(filter, findings, marks)
  {
    kept := [];
    assert marks[..0] == [];
    for i := 0 to |marks|
      invariant kept == ApplyFilter(filter, findings, marks[..i])
    {
      assert marks[..i + 1][..i] == marks[..i];
      if marks[i] {
        kept := kept + [Redacted(filter, findings[i])];
      }
    }
    assert marks[..|marks|] == marks;
  }

  /** Whether a generic finding is suppressed, unless the signal asks to stop: one poll for each comparison. */
  method IsRetained(filter: Filter, findings: seq<Finding>, finding: Finding, context: ScanContext)
    returns (retained: bool, cancelled: bool)
    requires filter.generic(finding.ruleId)
    modifies context
    ensures context.usage == old(context.usage) && context.polls >= old(context.polls)
    ensures !cancelled ==> retained == Retained(filter, findings, finding)
    ensures !cancelled ==> Quiet(context.control, old(context.polls), context.polls - old(context.polls))
    ensures cancelled ==> context.polls > old(context.polls) && context.control.cancelled(context.polls - 1)
  {
    hide Suppresses;
    retained, cancelled := true, false;
    assert findings[0..] == findings;
    for i := 0 to |findings|
      invariant context.usage == old(context.usage) && context.polls == old(context.polls) + i
      invariant Quiet(context.control, old(context.polls), i)
      invariant Suppressed(filter, findings, finding) == Suppressed(filter, findings[i..], finding)
    {
      cancelled := context.IsCancelled();
      if cancelled {
        return;
      }
      assert findings[i..][0] == findings[i] && findings[i..][1..] == findings[i + 1..];
      if Suppresses(filter, findings[i], finding) {
        retained := false;
        return;
      }
    }
    assert findings[|findings|..] == [];
  }

  /** Filters findings one by one, and stops with those decided so far when the signal asks for it. */
  method FilterFindingsCancellable(filter: Filter, findings: seq<Finding>, context: ScanContext)
    returns (kept: seq<Finding>, stop: Option<Termination>, ghost decided: nat)
    modifies context
    ensures context.usage == old(context.usage) && context.polls >= old(context.polls)
    ensures decided <= |findings| && kept == FilteredFirst(filter, findings, decided)
    ensures stop.None? ==> decided == |findings|
    ensures stop.None? ==> Quiet(context.control, old(context.polls), context.polls - old(context.polls))
    ensures stop.Some? ==>
              && stop == Some(Cancelled)
              && context.polls > old(context.polls) && context.control.cancelled(context.polls - 1)
  {
    hide Retained, Suppressed;
    var marks: seq<bool> := [];
    for i := 0 to |findings|
      invariant marks == Marks(filter, findings, i)
      invariant context.usage == old(context.usage) && context.polls >= old(context.polls)
      invariant Quiet(context.control, old(context.polls), context.polls - old(context.polls))
    {
      decided := i;
      var cancelled := context.IsCancelled();
      if cancelled {
        kept := ApplyFindingFilter(filter, findings, marks);
        return kept, Some(Cancelled), i;
      }
      var retained := true;
      if filter.generic(findings[i].ruleId) {
        retained, cancelled := IsRetained(filter, findings, findings[i], context);
        if cancelled {
          kept := ApplyFindingFilter(filter, findings, marks);
          return kept, Some(Cancelled), i;
        }
      } else {
        SpecificRetained(filter, findings, findings[i]);
      }
      marks := marks + [retained];
    }
    kept := ApplyFindingFilter(filter, findings, marks);
    stop, decided := None, |findings|;
  }

  lemma SpecificRetained(filter: Filter, findings: seq<Finding>, finding: Finding)
    requires !filter.generic(finding.ruleId)
    ensures Retained(filter, findings, finding)
  {
  }

  // ---------------------------------------------------------------------
  // What filtering keeps
  // ---------------------------------------------------------------------

  ghost predicate HasPart(text: seq<byte>, part: seq<byte>) {
    exists front, back :: text == front + part + back
  }

  /** One finding is about the same secret as a generic one, and says more about it. */
  ghost predicate SaysMore(filter: Filter, other: Finding, generic: Finding) {
    && other.startLine == generic.startLine && other.commit == generic.commit && other.ruleId != generic.ruleId
    && !filter.generic(other.ruleId) && HasPart(other.secret, generic.secret)
  }

  /** A finding as it is returned, unless it is generic and another one says more. */
  ghost function KeptOf(filter: Filter, findings: seq<Finding>, i: nat): seq<Finding>
    requires i < |findings|
  {
    var f := findings[i];
    if filter.generic(f.ruleId) && exists k :: 0 <= k < |findings| && SaysMore(filter, findings[k], f) then []
    else if filter.redact.Some? then [filter.redact.value(f)]
    else [f]
  }

  ghost function KeptOfEach(filter: Filter, findings: seq<Finding>, n: nat): seq<seq<Finding>>
    requires n <= |findings|
  {
    seq(n, i requires 0 <= i < n => KeptOf(filter, findings, i))
  }

  lemma SuppressesIs(filter: Filter, other: Finding, finding: Finding)
    ensures Suppresses(filter, other, finding) <==> SaysMore(filter, other, finding)
  {
    var text, part := other.secret, finding.secret;
    var at := FirstFrom(text, part, 0);
    if at.Some? {
      assert text == text[..at.value] + part + text[at.value + |part|..];
    }
    if HasPart(text, part) {
      var front, back :| text == front + part + back;
      assert OccursAt(text, part, |front|);
    }
  }

  /** What filtering keeps of the first `n` findings, one by one. */
  lemma {:induction false} FilterKeeps(filter: Filter, findings: seq<Finding>, n: nat)
    requires n <= |findings|
    ensures FilteredFirst(filter, findings, n) == Concat(KeptOfEach(filter, findings, n))
  {
    hide Retained, SaysMore, Suppresses, Suppressed;
    if n > 0 {
      FilterKeeps(filter, findings, n - 1);
      assert Marks(filter, findings, n)[..n - 1] == Marks(filter, findings, n - 1);
      assert KeptOfEach(filter, findings, n)[..n - 1] == KeptOfEach(filter, findings, n - 1);
      KeptIs(filter, findings, n - 1);
    }
  }

  lemma KeptIs(filter: Filter, findings: seq<Finding>, i: nat)
    requires i < |findings|
    ensures KeptOf(filter, findings, i)
         == if Retained(filter, findings, findings[i]) then [Redacted(filter, findings[i])] else []
  {
    hide SaysMore, Suppresses, Suppressed;
    SuppressedIs(filter, findings, findings[i]);
    forall k | 0 <= k < |findings|
      ensures Suppresses(filter, findings[k], findings[i]) <==> SaysMore(filter, findings[k], findings[i])
    {
      SuppressesIs(filter, findings[k], findings[i]);
    }
  }

  // ---------------------------------------------------------------------
  // Filtering what a stopped scan has committed
  // ---------------------------------------------------------------------

  lemma {:induction false} SuppressedAppend(filter: Filter, a: seq<Finding>, b: seq<Finding>, finding: Finding)
    ensures Suppressed(filter, a + b, finding) <==> Suppressed(filter, a, finding) || Suppressed(filter, b, finding)
  {
    hide Suppresses;
    if a == [] {
      assert a + b == b;
    } else {
      assert (a + b)[1..] == a[1..] + b;
      SuppressedAppend(filter, a[1..], b, finding);
    }
  }

  lemma {:induction false} SuppressedIs(filter: Filter, findings: seq<Finding>, finding: Finding)
    ensures Suppressed(filter, findings, finding)
       <==> exists k :: 0 <= k < |findings| && Suppresses(filter, findings[k], finding)
  {
    hide Suppresses;
    if findings != [] {
      SuppressedIs(filter, findings[1..], finding);
      assert forall k | 1 <= k < |findings| :: findings[k] == findings[1..][k - 1];
      assert forall k | 0 <= k < |findings| - 1 :: findings[1..][k] == findings[k + 1];
    }
  }

  /** A generic finding that none of the first `n` suppresses, but one that only a complete scan gets to does. */
  ghost predicate SuppressedLater(filter: Filter, findings: seq<Finding>, n: nat, i: nat)
    requires i < n <= |findings|
  {
    && filter.generic(findings[i].ruleId)
    && (forall k | 0 <= k < n :: !Suppresses(filter, findings[k], findings[i]))
    && (exists k :: n <= k < |findings| && Suppresses(filter, findings[k], findings[i]))
  }

  lemma SuppressedLaterIs(filter: Filter, findings: seq<Finding>, n: nat, i: nat)
    requires i < n <= |findings|
    ensures SuppressedLater(filter, findings, n, i)
       <==> Retained(filter, findings[..n], findings[i]) && !Retained(filter, findings, findings[i])
  {
    hide Suppresses, Suppressed;
    RetainedEarly(filter, findings, n, findings[i]);
    SuppressedIs(filter, findings[..n], findings[i]);
    SuppressedIs(filter, findings[n..], findings[i]);
    assert forall k | n <= k < |findings| :: findings[k] == findings[n..][k - n];
    assert forall k | 0 <= k < |findings| - n :: findings[n..][k] == findings[k + n];
  }

  lemma RetainedEarly(filter: Filter, findings: seq<Finding>, n: nat, finding: Finding)
    requires n <= |findings|
    ensures Retained(filter, findings, finding)
       <==> Retained(filter, findings[..n], finding)
            && !(filter.generic(finding.ruleId) && Suppressed(filter, findings[n..], finding))
  {
    hide Suppressed;
    assert findings == findings[..n] + findings[n..];
    SuppressedAppend(filter, findings[..n], findings[n..], finding);
  }

  function Count(marks: seq<bool>): nat {
    if marks == [] then 0 else Count(marks[..|marks| - 1]) + if marks[|marks| - 1] then 1 else 0
  }

  lemma {:induction false} FilterLength(filter: Filter, findings: seq<Finding>, marks: seq<bool>)
    requires |marks| <= |findings|
    ensures |ApplyFilter(filter, findings, marks)| == Count(marks)
  {
    if marks != [] {
      FilterLength(filter, findings, marks[..|marks| - 1]);
    }
  }

  lemma {:induction false} FilterSame(filter: Filter, a: seq<Finding>, b: seq<Finding>, marks: seq<bool>)
    requires |marks| <= |a| && a <= b
    ensures ApplyFilter(filter, a, marks) == ApplyFilter(filter, b, marks)
  {
    if marks != [] {
      FilterSame(filter, a, b, marks[..|marks| - 1]);
    }
  }

  lemma {:induction false} MoreMarks(a: seq<bool>, b: seq<bool>)
    requires |a| == |b| && forall i | 0 <= i < |a| :: a[i] ==> b[i]
    ensures Count(a) <= Count(b) && (Count(a) == Count(b) <==> a == b)
  {
    if a != [] {
      var n := |a| - 1;
      MoreMarks(a[..n], b[..n]);
      assert a == a[..n] + [a[n]] && b == b[..n] + [b[n]];
    }
  }

  /**
   * A stopped scan returns what a complete one would return for the rules it committed if and only if nothing that the
   * complete scan finds later suppresses a committed finding. Otherwise it returns more.
   */
  lemma PartialFilterExact(filter: Filter, findings: seq<Finding>, n: nat)
    requires n <= |findings|
    ensures FilterFindings(filter, findings[..n]) == FilteredFirst(filter, findings, n)
       <==> forall i | 0 <= i < n :: !SuppressedLater(filter, findings, n, i)
    ensures |FilterFindings(filter, findings[..n])| >= |FilteredFirst(filter, findings, n)|
  {
    hide Retained, Suppressed, Count, Suppresses;
    var partial, full := Marks(filter, findings[..n], n), Marks(filter, findings, n);
    forall i | 0 <= i < n
      ensures full[i] ==> partial[i]
    {
      RetainedEarly(filter, findings, n, findings[i]);
    }
    FilterSame(filter, findings[..n], findings, partial);
    FilterLength(filter, findings, partial);
    FilterLength(filter, findings, full);
    MoreMarks(full, partial);
    forall i | 0 <= i < n
      ensures SuppressedLater(filter, findings, n, i) <==> partial[i] && !full[i]
    {
      hide SuppressedLater;
      SuppressedLaterIs(filter, findings, n, i);
    }
  }

  lemma ApplyNext(filter: Filter, findings: seq<Finding>, marks: seq<bool>, mark: bool)
    requires |marks| < |findings|
    ensures ApplyFilter(filter, findings, marks + [mark])
         == ApplyFilter(filter, findings, marks) + if mark then [Redacted(filter, findings[|marks|])] else []
  {
    assert (marks + [mark])[..|marks|] == marks;
  }

  /** A generic finding can be reported by a stopped scan although the complete scan suppresses it. */
  lemma PartialNotPrefix() returns (filter: Filter, findings: seq<Finding>)
    ensures findings != [] && !(FilterFindings(filter, findings[..1]) <= FilterFindings(filter, findings))
  {
    var name: seq<byte>, other: seq<byte> := [0x67], [0x61];
    filter := Filter(id => id == [0x67], None);
    var generic, specific := Finding(name, 1, 1, [], [], []), Finding(other, 1, 1, [], [], []);
    findings := [generic, specific];
    SuppressedPair(filter, generic, specific);
    assert findings[..1] == [generic];
    hide Retained, ApplyFilter;
    assert Marks(filter, [generic], 1) == [true] && Marks(filter, findings, 2) == [false, true];
    ApplyNothing(filter, findings);
    ApplyNothing(filter, [generic]);
    ApplyNext(filter, [generic], [], true);
    ApplyNext(filter, findings, [], false);
    ApplyNext(filter, findings, [false], true);
    assert [] + [true] == [true] && [] + [false] == [false] && [false] + [true] == [false, true];
    assert FilterFindings(filter, findings)[0] == specific;
  }

  lemma ApplyNothing(filter: Filter, findings: seq<Finding>)
    ensures ApplyFilter(filter, findings, []) == []
  {
  }

  lemma SuppressedOne(filter: Filter, other: Finding, finding: Finding)
    ensures Suppressed(filter, [other], finding) == Suppresses(filter, other, finding)
  {
    var others := [other];
    assert others[0] == other && others[1..] == [];
  }

  lemma SuppressedPair(filter: Filter, generic: Finding, specific: Finding)
    requires filter.generic(generic.ruleId) && Suppresses(filter, specific, generic)
             && !Suppresses(filter, generic, generic)
    ensures Retained(filter, [generic], generic) && !Retained(filter, [generic, specific], generic)
    ensures !filter.generic(specific.ruleId) ==> Retained(filter, [generic, specific], specific)
  {
    hide Suppresses;
    SuppressedOne(filter, generic, generic);
    SuppressedOne(filter, specific, generic);
    SuppressedAppend(filter, [generic], [specific], generic);
    assert [generic] + [specific] == [generic, specific];
  }
}

/** The scan of one fragment: passes over its content and what it decodes to, each looking at every selected rule. */
module FragmentScan {
  import opened Common
  import opened FindingFilter
  import opened RuleMeaning
  import opened RuleScan
  import opened ScanControl
  import opened ScanMeaning

  /**
   * A stretch of the scan that commits its findings when none of its charges is refused. Top-level rules are groups.
   */
  datatype Group = Group(charges: seq<Charge>, findings: seq<Finding>)

  function Works(n: nat): seq<Charge> { seq(n, _ => Work) }

  predicate Selected(rule: Rule, hits: seq<nat>) {
    rule.keywords == [] || exists k | k in rule.keywords :: k.Some? && k.value in hits
  }

  function RuleGroups(job: Job, rules: seq<Rule>, pass: Pass, hits: seq<nat>): seq<Group> {
    if rules == [] then []
    else
      var rest := RuleGroups(job, rules[1..], pass, hits);
      if !Selected(rules[0], hits) then rest
      else
        var plan := RulePlan(job.rules, rules[0], pass, job.maxTarget);
        [Group(plan.charges, plan.value)] + rest
  }

  /** The groups of the passes from `depth` on. */
  function PassGroups(job: Job, raw: seq<byte>, segments: seq<Segment>, depth: nat): seq<Group>
    requires depth <= job.maxDepth
    decreases job.maxDepth - depth, 1
  {
    var hits := job.keywordHits(raw);
    [Group(Works(1 + |hits|), [])] + RuleGroups(job, job.rules, Pass(raw, segments, job.inherited), hits)
    + DecodeGroups(job, raw, segments, depth)
  }

  function DecodeGroups(job: Job, raw: seq<byte>, segments: seq<Segment>, depth: nat): seq<Group>
    requires depth <= job.maxDepth
    decreases job.maxDepth - depth, 0
  {
    if depth + 1 > job.maxDepth then []
    else
      var decoding := job.decode(raw, segments, depth);
      [Group(Works(1 + decoding.work) + [Poll], [])] +
      if decoding.segments == [] then []
      else [Group([Decoded(|decoding.output|)], [])] + PassGroups(job, decoding.output, decoding.segments, depth + 1)
  }

  function ScanGroups(job: Job): seq<Group> {
    [Group([Poll], [])] + if job.allowed then [] else PassGroups(job, job.content, [], 0)
  }

  // ---------------------------------------------------------------------
  // Running groups
  // ---------------------------------------------------------------------

  datatype Scanned = Scanned(state: State, stop: Option<Termination>, committed: seq<Finding>)

  function RunGroups(groups: seq<Group>, s: State, control: Control): Scanned {
    if groups == [] then Scanned(s, None, [])
    else
      var first := Run(groups[0].charges, s, control);
      if first.stop.Some? then Scanned(first.state, first.stop, [])
      else
        var rest := RunGroups(groups[1..], first.state, control);
        rest.(committed := groups[0].findings + rest.committed)
  }

  function AllCharges(groups: seq<Group>): seq<Charge> {
    if groups == [] then [] else groups[0].charges + AllCharges(groups[1..])
  }

  function AllFindings(groups: seq<Group>): seq<Finding> {
    if groups == [] then [] else groups[0].findings + AllFindings(groups[1..])
  }

  /** Running groups charges what running all their charges in a row does. */
  lemma {:induction false} GroupsCharge(groups: seq<Group>, s: State, control: Control)
    ensures var ran, all := RunGroups(groups, s, control), Run(AllCharges(groups), s, control);
            ran.state == all.state && ran.stop == all.stop
  {
    hide Run;
    if groups == [] {
      RunNothing(s, control);
    } else {
      RunAppend(groups[0].charges, AllCharges(groups[1..]), s, control);
      GroupsCharge(groups[1..], Run(groups[0].charges, s, control).state, control);
    }
  }

  /** What is committed are the findings of the groups before the one that was stopped. */
  lemma {:induction false} GroupsCommitted(groups: seq<Group>, s: State, control: Control) returns (done: nat)
    ensures done <= |groups| && RunGroups(groups, s, control).committed == AllFindings(groups[..done])
    ensures RunGroups(groups, s, control).stop.None? <==> done == |groups|
  {
    hide Run;
    if groups == [] {
      done := 0;
    } else {
      var first := Run(groups[0].charges, s, control);
      if first.stop.Some? {
        done := 0;
      } else {
        var more := GroupsCommitted(groups[1..], first.state, control);
        done := 1 + more;
        assert groups[..done][0] == groups[0] && groups[..done][1..] == groups[1..][..more];
      }
    }
  }

  lemma {:induction false} FindingsPrefix(groups: seq<Group>, n: nat)
    requires n <= |groups|
    ensures AllFindings(groups[..n]) <= AllFindings(groups)
  {
    if n > 0 {
      FindingsPrefix(groups[1..], n - 1);
      assert groups[..n][0] == groups[0] && groups[..n][1..] == groups[1..][..n - 1];
    }
  }

  // ---------------------------------------------------------------------
  // What the groups come to
  // ---------------------------------------------------------------------

  lemma SelectedCounts(job: Job, rule: Rule, text: seq<byte>)
    ensures Selected(rule, job.keywordHits(text)) <==> Counts(job, rule, text)
  {
  }

  lemma {:induction false} GroupsAppend(a: seq<Group>, b: seq<Group>)
    ensures AllFindings(a + b) == AllFindings(a) + AllFindings(b)
    ensures AllCharges(a + b) == AllCharges(a) + AllCharges(b)
  {
    if a == [] {
      assert a + b == b;
    } else {
      assert (a + b)[1..] == a[1..] + b;
      GroupsAppend(a[1..], b);
    }
  }

  lemma GroupsFirst(group: Group, rest: seq<Group>)
    ensures AllFindings([group] + rest) == group.findings + AllFindings(rest)
    ensures AllCharges([group] + rest) == group.charges + AllCharges(rest)
  {
    assert ([group] + rest)[1..] == rest;
  }

  /** What charges come to: work units, records and decoded bytes, and how many charges there are. */
  ghost predicate Costs(charges: seq<Charge>, work: nat, records: nat, decoded: nat, others: nat) {
    && Total(charges, WorkUnits) == work && Total(charges, FindingRecords) == records
    && Total(charges, DecodedBytes) == decoded && |charges| == work + records + others
  }

  lemma CostsAppend(
    a: seq<Charge>, b: seq<Charge>, work: nat, records: nat, decoded: nat, others: nat, work': nat, records': nat,
    decoded': nat, others': nat)
    requires Costs(a, work, records, decoded, others) && Costs(b, work', records', decoded', others')
    ensures Costs(a + b, work + work', records + records', decoded + decoded', others + others')
  {
    TotalsAppend(a, b);
  }

  lemma {:induction false} PlainCosts(charges: seq<Charge>)
    requires Plain(charges)
    ensures Costs(charges, Total(charges, WorkUnits), Total(charges, FindingRecords), 0, 0)
  {
    if charges != [] {
      assert charges == [charges[0]] + charges[1..] && charges[0] in charges;
      assert forall c | c in charges[1..] :: c in charges;
      PlainCosts(charges[1..]);
    }
  }

  lemma {:induction false} WorksCost(n: nat)
    ensures Costs(Works(n), n, 0, 0, 0)
  {
    if n > 0 {
      assert Works(n)[1..] == Works(n - 1);
      WorksCost(n - 1);
    }
  }

  function GroupFindings(groups: seq<Group>): seq<seq<Finding>> {
    seq(|groups|, i requires 0 <= i < |groups| => groups[i].findings)
  }

  /** A rule that counts is a group of its own. */
  ghost function GroupFor(job: Job, pass: Pass, rule: Rule): seq<seq<Finding>> {
    if Counts(job, rule, pass.raw) then [FoundBy(job, pass, rule)] else []
  }

  ghost function GroupForEach(job: Job, pass: Pass, rules: seq<Rule>): seq<seq<seq<Finding>>> {
    seq(|rules|, i requires 0 <= i < |rules| => GroupFor(job, pass, rules[i]))
  }

  /** The groups of the rules in one pass. */
  lemma {:induction false} RuleGroupsMean(job: Job, rules: seq<Rule>, pass: Pass)
    ensures var groups := RuleGroups(job, rules, pass, job.keywordHits(pass.raw));
            && GroupFindings(groups) == Concat(GroupForEach(job, pass, rules))
            && AllFindings(groups) == Concat(FoundByEach(job, pass, rules))
            && Costs(
                 AllCharges(groups), SumOf(WorkOfEach(job, pass, rules)), SumOf(RecordsOfEach(job, pass, rules)), 0, 0)
  {
    hide RulePlan, Selected, Counts, RuleFindings, RuleWork, RuleRecords, SumOf, Concat, Costs;
    var each, works, records := FoundByEach(job, pass, rules), WorkOfEach(job, pass, rules),
      RecordsOfEach(job, pass, rules);
    if rules == [] {
      NothingCosts();
      assert each == [] && works == [] && records == [] && GroupForEach(job, pass, rules) == [];
    } else {
      RuleGroupsMean(job, rules[1..], pass);
      ConcatFirst(GroupForEach(job, pass, rules));
      assert GroupForEach(job, pass, rules)[1..] == GroupForEach(job, pass, rules[1..]);
      var rest := RuleGroups(job, rules[1..], pass, job.keywordHits(pass.raw));
      ConcatFirst(each);
      SumOfFirst(works);
      SumOfFirst(records);
      assert each[1..] == FoundByEach(job, pass, rules[1..]) && works[1..] == WorkOfEach(job, pass, rules[1..]);
      assert records[1..] == RecordsOfEach(job, pass, rules[1..]);
      SelectedCounts(job, rules[0], pass.raw);
      if Counts(job, rules[0], pass.raw) {
        var plan := RulePlan(job.rules, rules[0], pass, job.maxTarget);
        RuleMeans(job.rules, rules[0], pass, job.maxTarget);
        PlainCosts(plan.charges);
        GroupsFirst(Group(plan.charges, plan.value), rest);
        CostsAppend(
          plan.charges, AllCharges(rest), works[0], records[0], 0, 0, SumOf(works[1..]), SumOf(records[1..]), 0, 0);
      }
    }
  }

  lemma NothingCosts()
    ensures Costs([], 0, 0, 0, 0) && SumOf([]) == 0 && Concat<Finding>([]) == [] && Concat<seq<Finding>>([]) == []
  {
    hide SumOf, Total;
    TotalNone();
    NothingKept();
  }

  /** Trying to decode: work, and a look at the signal. */
  lemma AttemptCosts(work: nat)
    ensures Costs(Works(1 + work) + [Poll], 1 + work, 0, 0, 1)
  {
    WorksCost(1 + work);
    assert [Poll][1..] == [];
    assert Costs([Poll], 0, 0, 0, 1);
    CostsAppend(Works(1 + work), [Poll], 1 + work, 0, 0, 0, 0, 0, 0, 1);
  }

  lemma DecodedCosts(n: nat)
    ensures Costs([Decoded(n)], 0, 0, n, 1)
  {
    assert [Decoded(n)][1..] == [];
  }

  /** The groups of a pass, without those that decoding leads to. */
  lemma PassGroupsMean(job: Job, d: nat)
    requires d <= job.maxDepth
    ensures var pass := TextAt(job, d);
            var hits := job.keywordHits(pass.raw);
            var groups := [Group(Works(1 + |hits|), [])] + RuleGroups(job, job.rules, pass, hits);
            && AllFindings(groups) == FoundIn(job, d)
            && Costs(AllCharges(groups), PassWork(job, d), PassRecords(job, d), 0, 0)
  {
    hide RuleGroups, TextAt, FoundByEach, WorkOfEach, RecordsOfEach, Costs;
    var pass := TextAt(job, d);
    var hits := job.keywordHits(pass.raw);
    RuleGroupsMean(job, job.rules, pass);
    var rules := RuleGroups(job, job.rules, pass, hits);
    GroupsFirst(Group(Works(1 + |hits|), []), rules);
    WorksCost(1 + |hits|);
    CostsAppend(
      Works(1 + |hits|), AllCharges(rules), 1 + |hits|, 0, 0, 0, SumOf(WorkOfEach(job, pass, job.rules)),
      SumOf(RecordsOfEach(job, pass, job.rules)), 0, 0);
  }

  lemma FoundFirst(job: Job, d: nat, n: nat)
    requires d < n
    ensures Concat(FoundInEach(job, d, n)) == FoundIn(job, d) + Concat(FoundInEach(job, d + 1, n))
    ensures Concat(FoundInEach(job, n, n)) == []
  {
    hide FoundIn, Concat;
    NothingKept();
    ConcatFirst(FoundInEach(job, d, n));
    assert FoundInEach(job, d, n)[1..] == FoundInEach(job, d + 1, n);
    assert FoundInEach(job, n, n) == [];
  }

  lemma WorkFirst(job: Job, d: nat, n: nat)
    requires d < n
    ensures SumOf(WorkInEach(job, d, n)) == StepWork(job, d) + SumOf(WorkInEach(job, d + 1, n))
    ensures SumOf(WorkInEach(job, n, n)) == 0
  {
    hide StepWork, SumOf;
    NothingKept();
    SumOfFirst(WorkInEach(job, d, n));
    assert WorkInEach(job, d, n)[1..] == WorkInEach(job, d + 1, n);
    assert WorkInEach(job, n, n) == [];
  }

  lemma RecordsFirst(job: Job, d: nat, n: nat)
    requires d < n
    ensures SumOf(RecordsInEach(job, d, n)) == PassRecords(job, d) + SumOf(RecordsInEach(job, d + 1, n))
    ensures SumOf(RecordsInEach(job, n, n)) == 0
  {
    hide PassRecords, SumOf;
    NothingKept();
    SumOfFirst(RecordsInEach(job, d, n));
    assert RecordsInEach(job, d, n)[1..] == RecordsInEach(job, d + 1, n);
    assert RecordsInEach(job, n, n) == [];
  }

  lemma DecodedFirst(job: Job, d: nat, n: nat)
    requires d < n
    ensures d + 1 < n ==>
              SumOf(DecodedInEach(job, d, n)) == |TextAt(job, d + 1).raw| + SumOf(DecodedInEach(job, d + 1, n))
    ensures d + 1 == n ==> SumOf(DecodedInEach(job, d, n)) == 0
  {
    hide TextAt, SumOf;
    NothingKept();
    if d + 1 < n {
      SumOfFirst(DecodedInEach(job, d, n));
      assert DecodedInEach(job, d, n)[1..] == DecodedInEach(job, d + 1, n);
    } else {
      assert DecodedInEach(job, d, n) == [];
    }
  }

  /** What the groups from a pass on come to. */
  ghost predicate PassesMean(job: Job, groups: seq<Group>, d: nat, n: nat)
    requires d < n
  {
    && AllFindings(groups) == Concat(FoundInEach(job, d, n))
    && Costs(
         AllCharges(groups), SumOf(WorkInEach(job, d, n)), SumOf(RecordsInEach(job, d, n)),
         SumOf(DecodedInEach(job, d, n)), n - 1 - d + Attempts(job, d, n))
  }

  /** The groups of a pass and of all that it leads to. */
  lemma {:induction false} PassGroupsAre(job: Job, d: nat, n: nat)
    requires Passes(job, n) && d < n
    ensures PassesMean(job, PassGroups(job, TextAt(job, d).raw, TextAt(job, d).segments, d), d, n)
    decreases n - d
  {
    hide RuleGroups, FoundInEach, WorkInEach, RecordsInEach, DecodedInEach, FoundIn, PassWork, PassRecords;
    hide Costs, SumOf, Concat, AllFindings, AllCharges, Works;
    var pass := TextAt(job, d);
    var hits := job.keywordHits(pass.raw);
    var here := [Group(Works(1 + |hits|), [])] + RuleGroups(job, job.rules, pass, hits);
    var later := DecodeGroups(job, pass.raw, pass.segments, d);
    PassGroupsMean(job, d);
    GroupsAppend(here, later);
    FoundFirst(job, d, n);
    WorkFirst(job, d, n);
    RecordsFirst(job, d, n);
    DecodedFirst(job, d, n);
    if d + 1 > job.maxDepth {
      NothingGrouped();
      assert Costs(AllCharges(here + later), PassWork(job, d), PassRecords(job, d), 0, 0) by {
        assert AllCharges(here) + [] == AllCharges(here);
      }
      assert AllFindings(here) + [] == AllFindings(here);
    } else {
      var decoding := job.decode(pass.raw, pass.segments, d);
      assert TextAt(job, d + 1) == Pass(decoding.output, decoding.segments, job.inherited);
      var attempt := Works(1 + decoding.work) + [Poll];
      AttemptCosts(decoding.work);
      if d + 1 == n {
        assert later == [Group(attempt, [])] + [];
        NothingGrouped();
        GroupsFirst(Group(attempt, []), []);
        assert attempt + [] == attempt && AllFindings(here) + ([] + []) == AllFindings(here);
        CostsAppend(
          AllCharges(here), attempt, PassWork(job, d), PassRecords(job, d), 0, 0, 1 + decoding.work, 0, 0, 1);
      } else {
        DecodeGroupsAre(job, d, n, decoding, later);
        CostsAppend(
          AllCharges(here), AllCharges(later), PassWork(job, d), PassRecords(job, d), 0, 0,
          1 + decoding.work + SumOf(WorkInEach(job, d + 1, n)), SumOf(RecordsInEach(job, d + 1, n)),
          |decoding.output| + SumOf(DecodedInEach(job, d + 1, n)), n - 1 - d + Attempts(job, d, n));
      }
    }
  }

  /** The groups of an attempt to decode that leads to another pass. */
  lemma {:induction false} DecodeGroupsAre(job: Job, d: nat, n: nat, decoding: Decoding, later: seq<Group>)
    requires Passes(job, n) && d + 1 < n && d < job.maxDepth
    requires decoding == job.decode(TextAt(job, d).raw, TextAt(job, d).segments, d)
    requires later == DecodeGroups(job, TextAt(job, d).raw, TextAt(job, d).segments, d)
    ensures AllFindings(later) == Concat(FoundInEach(job, d + 1, n))
    ensures Costs(
              AllCharges(later), 1 + decoding.work + SumOf(WorkInEach(job, d + 1, n)),
              SumOf(RecordsInEach(job, d + 1, n)), |decoding.output| + SumOf(DecodedInEach(job, d + 1, n)),
              n - 1 - d + Attempts(job, d, n))
    decreases n - d, 0
  {
    hide PassGroups, FoundInEach, WorkInEach, RecordsInEach, DecodedInEach;
    hide Costs, SumOf, Concat, AllFindings, AllCharges, Works;
    var attempt, charge := Works(1 + decoding.work) + [Poll], [Decoded(|decoding.output|)];
    var rest := PassGroups(job, decoding.output, decoding.segments, d + 1);
    assert TextAt(job, d + 1) == Pass(decoding.output, decoding.segments, job.inherited);
    PassGroupsAre(job, d + 1, n);
    assert later == [Group(attempt, [])] + ([Group(charge, [])] + rest);
    GroupsFirst(Group(attempt, []), [Group(charge, [])] + rest);
    GroupsFirst(Group(charge, []), rest);
    AttemptCosts(decoding.work);
    DecodedCosts(|decoding.output|);
    var w, r, b, o := SumOf(WorkInEach(job, d + 1, n)), SumOf(RecordsInEach(job, d + 1, n)),
      SumOf(DecodedInEach(job, d + 1, n)), n - 2 - d + Attempts(job, d + 1, n);
    CostsAppend(charge, AllCharges(rest), 0, 0, |decoding.output|, 1, w, r, b, o);
    CostsAppend(attempt, charge + AllCharges(rest), 1 + decoding.work, 0, 0, 1, w, r, |decoding.output| + b, 1 + o);
  }

  lemma NothingGrouped()
    ensures AllFindings([]) == [] && AllCharges([]) == []
  {
  }

  /**
   * What the groups of a scan come to is what the scan finds: in the order of its passes, what every rule that counts
   * finds in the text of the pass. Their charges are what that costs, with one look at the signal for each.
   */
  lemma ScanMeans(job: Job, n: nat)
    requires Passes(job, n)
    ensures AllFindings(ScanGroups(job)) == Found(job, n) && ScanFinds(job, AllFindings(ScanGroups(job)))
    ensures var charges, cost := AllCharges(ScanGroups(job)), Cost(job, n);
            && Total(charges, WorkUnits) == cost.0 && Total(charges, FindingRecords) == cost.1
            && Total(charges, DecodedBytes) == cost.2
            && |charges| == cost.0 + cost.1 + (if job.allowed then 1 else n + Attempts(job, 0, n))
  {
    hide PassGroups, FoundInEach, WorkInEach, RecordsInEach, DecodedInEach, SumOf, Concat;
    hide AllFindings, AllCharges;
    var passes := if job.allowed then [] else PassGroups(job, job.content, [], 0);
    NothingGrouped();
    GroupsFirst(Group([Poll], []), passes);
    PassGroupsAre(job, 0, n);
    assert [Poll][1..] == [] && [Poll] + [] == [Poll];
    if !job.allowed {
      TotalsAppend([Poll], AllCharges(passes));
      assert [] + AllFindings(passes) == AllFindings(passes);
    }
  }

  // ---------------------------------------------------------------------
  // The scan
  // ---------------------------------------------------------------------

  /** What the rest of the scan comes to, when `findings` have been committed and the scan stands at `now`. */
  ghost predicate Remaining(whole: Scanned, findings: seq<Finding>, rest: seq<Group>, now: State, control: Control) {
    var ran := RunGroups(rest, now, control);
    whole == ran.(committed := findings + ran.committed)
  }

  /** The next group is carried out, and commits its findings when it is not stopped. */
  lemma NextGroup(whole: Scanned, findings: seq<Finding>, group: Group, rest: seq<Group>, now: State, control: Control)
    requires Remaining(whole, findings, [group] + rest, now, control)
    ensures var first := Run(group.charges, now, control);
            if first.stop.Some? then whole == Scanned(first.state, first.stop, findings)
            else Remaining(whole, findings + group.findings, rest, first.state, control)
  {
    hide Run;
    assert ([group] + rest)[1..] == rest;
    assert findings + [] == findings;
    var first := Run(group.charges, now, control);
    if first.stop.None? {
      var more := RunGroups(rest, first.state, control).committed;
      assert findings + (group.findings + more) == findings + group.findings + more;
    }
  }

  /** Charges `n` units of work, as loops over keyword hits and inside the decoder do. */
  method ChargeWorks(n: nat, context: ScanContext) returns (stop: Option<Termination>)
    modifies context
    ensures Ran(context.Now(), stop) == Run(Works(n), old(context.Now()), context.control)
  {
    hide Run, Perform;
    ghost var before := context.Now();
    stop := None;
    for i := 0 to n
      invariant stop.None? && Rest(Works(n), before, Works(n - i), context.Now(), context.control)
    {
      assert Works(n - i) == [Work] + Works(n - i - 1);
      RestOne(Works(n), before, Work, Works(n - i - 1), context.Now(), context.control);
      stop := context.ChargeWork();
      if stop.Some? {
        return;
      }
    }
    RestDone(Works(n), before, context.Now(), context.control);
  }

  /** What a scan returns: the filtered findings, what was used, and why the scan stopped early if it did. */
  datatype Outcome = Outcome(findings: seq<Finding>, usage: Usage, termination: Option<Termination>)

  /** Runs the selected rules of a pass in order. Only whole rules are committed. */
  method ScanRules(
    job: Job, pass: Pass, hits: seq<nat>, findings: seq<Finding>, ghost whole: Scanned, ghost later: seq<Group>,
    context: ScanContext)
    returns (stop: Option<Termination>, committed: seq<Finding>)
    requires Remaining(whole, findings, RuleGroups(job, job.rules, pass, hits) + later, context.Now(), context.control)
    modifies context
    ensures stop.Some? ==> whole == Scanned(context.Now(), stop, committed)
    ensures stop.None? ==> Remaining(whole, committed, later, context.Now(), context.control)
  {
    hide Run, RulePlan, Remaining, Selected, RuleGroups;
    stop, committed := None, findings;
    assert job.rules[0..] == job.rules;
    for i := 0 to |job.rules|
      invariant stop.None?
      invariant Remaining(whole, committed, RuleGroups(job, job.rules[i..], pass, hits) + later, context.Now(),
                context.control)
    {
      ghost var rest := RuleGroups(job, job.rules[i + 1..], pass, hits) + later;
      RuleGroupsStep(job, pass, hits, i, later);
      if !Selected(job.rules[i], hits) {
        continue;
      }
      ghost var plan := RulePlan(job.rules, job.rules[i], pass, job.maxTarget);
      NextGroup(whole, committed, Group(plan.charges, plan.value), rest, context.Now(), context.control);
      var detected := DetectRule(job.rules, job.rules[i], pass, job.maxTarget, context);
      if detected.Err? {
        return Some(detected.error), committed;
      }
      committed := committed + detected.value;
    }
    assert job.rules[|job.rules|..] == [];
    NoRuleGroups(job, pass, hits, later);
  }

  lemma NoRuleGroups(job: Job, pass: Pass, hits: seq<nat>, later: seq<Group>)
    ensures RuleGroups(job, [], pass, hits) + later == later
  {
  }

  lemma RuleGroupsStep(job: Job, pass: Pass, hits: seq<nat>, i: nat, later: seq<Group>)
    requires i < |job.rules|
    ensures var rest := RuleGroups(job, job.rules[i + 1..], pass, hits) + later;
            var plan := RulePlan(job.rules, job.rules[i], pass, job.maxTarget);
            RuleGroups(job, job.rules[i..], pass, hits) + later ==
            if Selected(job.rules[i], hits) then [Group(plan.charges, plan.value)] + rest else rest
  {
    hide RulePlan, Selected;
    assert job.rules[i..][0] == job.rules[i] && job.rules[i..][1..] == job.rules[i + 1..];
  }

  /** A group of charges that commits nothing. */
  lemma NextCharges(
    whole: Scanned, findings: seq<Finding>, charges: seq<Charge>, rest: seq<Group>, now: State, control: Control)
    requires Remaining(whole, findings, [Group(charges, [])] + rest, now, control)
    ensures var first := Run(charges, now, control);
            if first.stop.Some? then whole == Scanned(first.state, first.stop, findings)
            else Remaining(whole, findings, rest, first.state, control)
  {
    hide Run, Remaining;
    NextGroup(whole, findings, Group(charges, []), rest, now, control);
    assert findings + [] == findings;
  }

  /** Charges an attempt at decoding: one unit to start it, those of the decoder, and a poll behind it. */
  method ChargeDecoding(decoding: Decoding, context: ScanContext) returns (stop: Option<Termination>)
    modifies context
    ensures Ran(context.Now(), stop) == Run(Works(1 + decoding.work) + [Poll], old(context.Now()), context.control)
  {
    hide Run, Perform;
    ghost var all, before := Works(1 + decoding.work) + [Poll], context.Now();
    assert all == [Work] + (Works(decoding.work) + [Poll]);
    RestStarts(all, before, context.control);
    RestOne(all, before, Work, Works(decoding.work) + [Poll], context.Now(), context.control);
    stop := context.ChargeWork();
    if stop.Some? {
      return;
    }
    RestAppend(all, before, Works(decoding.work), [Poll], context.Now(), context.control);
    stop := ChargeWorks(decoding.work, context);
    if stop.Some? {
      return;
    }
    assert [Poll] == [Poll] + [];
    RestOne(all, before, Poll, [], context.Now(), context.control);
    stop := context.CheckCancelled();
    if stop.None? {
      RestDone(all, before, context.Now(), context.control);
    }
  }

  /** Scans the content, then what it decodes to, and so on up to the depth limit. */
  method ScanPasses(job: Job, context: ScanContext) returns (stop: Option<Termination>, findings: seq<Finding>)
    modifies context
    ensures RunGroups(PassGroups(job, job.content, [], 0), old(context.Now()), context.control)
         == Scanned(context.Now(), stop, findings)
  {
    hide Run, Perform, RulePlan, Remaining, RuleGroups;
    ghost var whole := RunGroups(PassGroups(job, job.content, [], 0), context.Now(), context.control);
    var raw, segments, depth: nat := job.content, [], 0;
    findings := [];
    RemainingStarts(PassGroups(job, job.content, [], 0), context.Now(), context.control);
    while true
      invariant depth <= job.maxDepth
      invariant Remaining(whole, findings, PassGroups(job, raw, segments, depth), context.Now(), context.control)
      decreases job.maxDepth - depth
    {
      var hits := job.keywordHits(raw);
      var pass := Pass(raw, segments, job.inherited);
      ghost var ruleGroups, decodeGroups := RuleGroups(job, job.rules, pass, hits),
        DecodeGroups(job, raw, segments, depth);
      assert PassGroups(job, raw, segments, depth) == [Group(Works(1 + |hits|), [])] + (ruleGroups + decodeGroups);
      NextCharges(whole, findings, Works(1 + |hits|), ruleGroups + decodeGroups, context.Now(), context.control);
      stop := ChargeWorks(1 + |hits|, context);
      if stop.Some? {
        return;
      }
      stop, findings := ScanRules(job, pass, hits, findings, whole, decodeGroups, context);
      if stop.Some? {
        return;
      }
      if depth + 1 > job.maxDepth {
        RemainingDone(whole, findings, context.Now(), context.control);
        return;
      }
      var decoding := job.decode(raw, segments, depth);
      ghost var charges := Works(1 + decoding.work) + [Poll];
      ghost var later :=
        if decoding.segments == [] then []
        else
          [Group([Decoded(|decoding.output|)], [])]
          + PassGroups(job, decoding.output, decoding.segments, depth + 1);
      assert decodeGroups == [Group(charges, [])] + later;
      NextCharges(whole, findings, charges, later, context.Now(), context.control);
      stop := ChargeDecoding(decoding, context);
      if stop.Some? {
        return;
      }
      if decoding.segments == [] {
        RemainingDone(whole, findings, context.Now(), context.control);
        return;
      }
      var amount := |decoding.output|;
      NextCharges(whole, findings, [Decoded(amount)], PassGroups(job, decoding.output, decoding.segments, depth + 1),
        context.Now(), context.control);
      RunOne(Decoded(amount), context.Now(), context.control);
      stop := context.ChargeDecodedBytes(amount);
      if stop.Some? {
        return;
      }
      raw, segments, depth := decoding.output, decoding.segments, depth + 1;
    }
  }

  lemma RunOne(charge: Charge, s: State, control: Control)
    ensures Run([charge], s, control) == Perform(charge, s, control)
  {
    hide Perform;
    assert [charge][1..] == [];
  }

  lemma RemainingStarts(groups: seq<Group>, s: State, control: Control)
    ensures Remaining(RunGroups(groups, s, control), [], groups, s, control)
  {
    hide RunGroups;
    var committed := RunGroups(groups, s, control).committed;
    assert [] + committed == committed;
  }

  lemma RemainingDone(whole: Scanned, findings: seq<Finding>, now: State, control: Control)
    requires Remaining(whole, findings, [], now, control)
    ensures whole == Scanned(now, None, findings)
  {
    assert findings + [] == findings;
  }

  /** The committed findings, filtered in one go when the scan was stopped, and under the signal when it was not. */
  ghost predicate IsOutcome(job: Job, scanned: Scanned, control: Control, polls: nat, outcome: Outcome) {
    && outcome.usage == scanned.state.usage
    && if scanned.stop.Some? then
         outcome.findings == FilterFindings(job.filter, scanned.committed) && outcome.termination == scanned.stop
       else if outcome.termination.None? then
         && outcome.findings == FilterFindings(job.filter, scanned.committed)
         && scanned.state.polls <= polls && Quiet(control, scanned.state.polls, polls - scanned.state.polls)
       else
         && outcome.termination == Some(Cancelled) && polls > scanned.state.polls && control.cancelled(polls - 1)
         && exists n: nat ::
              n <= |scanned.committed| && outcome.findings == FilteredFirst(job.filter, scanned.committed, n)
  }

  const START: State := State(Usage(0, 0, 0), 0)

  /** The filtered findings of the first so many groups, or the first filtered findings of all of them. */
  ghost predicate FromFirstGroups(job: Job, findings: seq<Finding>) {
    var groups := ScanGroups(job);
    || (exists done: nat :: done <= |groups| && findings == FilterFindings(job.filter, AllFindings(groups[..done])))
    || (exists n: nat :: n <= |AllFindings(groups)| && findings == FilteredFirst(job.filter, AllFindings(groups), n))
  }

  /** What a caller can rely on, without knowing how far the scan got. */
  ghost predicate Promised(job: Job, budget: Budget, outcome: Outcome) {
    && WithinBudget(outcome.usage, budget) && FromFirstGroups(job, outcome.findings)
    && (outcome.termination.None? ==> outcome.findings == FilterFindings(job.filter, AllFindings(ScanGroups(job))))
  }

  lemma OutcomePromised(job: Job, control: Control, polls: nat, outcome: Outcome)
    requires IsOutcome(job, RunGroups(ScanGroups(job), START, control), control, polls, outcome)
    ensures Promised(job, control.budget, outcome)
  {
    hide Run, ScanGroups, RunGroups, FilteredFirst, WithinBudget, Quiet, FilterFindings;
    var groups := ScanGroups(job);
    var done := ControlledPrefix(job, control);
    assert groups[..|groups|] == groups;
  }

  /** A complete scan returns, filtered, what its passes find, and has used what that costs. */
  ghost predicate Finishes(job: Job, outcome: Outcome) {
    exists n: nat :: Passes(job, n)
      && outcome.findings == Concat(KeptOfEach(job.filter, Found(job, n), |Found(job, n)|))
      && outcome.usage == Usage(Cost(job, n).2, Cost(job, n).0, Cost(job, n).1)
  }

  lemma OutcomeFinishes(job: Job, control: Control, polls: nat, outcome: Outcome)
    requires IsOutcome(job, RunGroups(ScanGroups(job), START, control), control, polls, outcome)
    requires outcome.termination.None?
    ensures Finishes(job, outcome)
  {
    hide ScanGroups, RunGroups, FilteredFirst, KeptOfEach, Found, Cost, Passes, Concat, AllFindings, AllCharges;
    var n := PassesOnce(job);
    ScanMeans(job, n);
    ControlledCompletes(job, control);
    FilterKeeps(job.filter, Found(job, n), |Found(job, n)|);
    var scanned := RunGroups(ScanGroups(job), START, control);
    var charges := AllCharges(ScanGroups(job));
    assert Consumed(scanned.state.usage, DecodedBytes) == Total(charges, DecodedBytes);
    assert Consumed(scanned.state.usage, WorkUnits) == Total(charges, WorkUnits);
    assert Consumed(scanned.state.usage, FindingRecords) == Total(charges, FindingRecords);
  }

  /** The whole scan of a fragment under a control. */
  method ScanFragment(job: Job, control: Control) returns (outcome: Outcome, ghost polls: nat)
    ensures Promised(job, control.budget, outcome)
    ensures IsOutcome(job, RunGroups(ScanGroups(job), START, control), control, polls, outcome)
    ensures outcome.termination.None? ==> Finishes(job, outcome)
  {
    hide IsOutcome, Promised, Finishes;
    outcome, polls := ScanUnder(job, control);
    OutcomePromised(job, control, polls, outcome);
    if outcome.termination.None? {
      OutcomeFinishes(job, control, polls, outcome);
    }
  }

  /** The scan in the order in which the engine carries it out. */
  method ScanUnder(job: Job, control: Control) returns (outcome: Outcome, ghost polls: nat)
    ensures IsOutcome(job, RunGroups(ScanGroups(job), START, control), control, polls, outcome)
  {
    hide Run, Perform, PassGroups, RunGroups, FilteredFirst;
    var context := new ScanContext(control);
    ghost var whole, groups := RunGroups(ScanGroups(job), START, control), ScanGroups(job);
    ghost var passes := if job.allowed then [] else PassGroups(job, job.content, [], 0);
    RemainingStarts(groups, START, control);
    NextCharges(whole, [], [Poll], passes, START, control);
    RunOne(Poll, START, control);
    var stop := context.CheckCancelled();
    if stop.Some? {
      FilterNothing(job.filter);
      return Outcome([], context.usage, stop), context.polls;
    }
    if job.allowed {
      RemainingDone(whole, [], context.Now(), control);
      FilterNothing(job.filter);
      return Outcome([], context.usage, None), context.polls;
    }
    ghost var scanned := RunGroups(passes, context.Now(), control);
    assert [] + scanned.committed == scanned.committed;
    var findings;
    stop, findings := ScanPasses(job, context);
    assert whole == Scanned(context.Now(), stop, findings);
    if stop.Some? {
      return Outcome(FilterFindings(job.filter, findings), context.usage, stop), context.polls;
    }
    var kept;
    ghost var decided;
    kept, stop, decided := FilterFindingsCancellable(job.filter, findings, context);
    outcome, polls := Outcome(kept, context.usage, stop), context.polls;
    assert stop.Some? ==> decided <= |findings|;
  }

  lemma FilterNothing(filter: Filter)
    ensures FilterFindings(filter, []) == []
  {
  }

  // ---------------------------------------------------------------------
  // What limits and cancellation can do to a scan
  // ---------------------------------------------------------------------

  lemma StartsWithinBudget(budget: Budget)
    ensures WithinBudget(START.usage, budget)
  {
  }

  /**
   * Under every budget and every signal, what a scan commits are the findings of the first so many groups, whole rules
   * only, which is a prefix of what an unlimited scan commits. No counter ever exceeds its limit.
   */
  lemma ControlledPrefix(job: Job, control: Control) returns (done: nat)
    ensures var groups := ScanGroups(job);
            var scanned := RunGroups(groups, START, control);
            && done <= |groups| && scanned.committed == AllFindings(groups[..done])
            && scanned.committed <= AllFindings(groups)
            && (scanned.stop.None? <==> done == |groups|)
            && WithinBudget(scanned.state.usage, control.budget)
  {
    hide Run, PassGroups;
    var groups := ScanGroups(job);
    done := GroupsCommitted(groups, START, control);
    FindingsPrefix(groups, done);
    GroupsCharge(groups, START, control);
    StartsWithinBudget(control.budget);
    RunWithinBudget(AllCharges(groups), START, control, WorkUnits);
  }

  /**
   * A scan runs to its end if and only if the signal stays clear whenever it is polled and every budget covers what the
   * whole scan charges. It has then used exactly that and committed everything.
   */
  lemma ControlledCompletes(job: Job, control: Control)
    ensures var groups := ScanGroups(job);
            var scanned, charges := RunGroups(groups, START, control), AllCharges(groups);
            && (scanned.stop.None? <==> Quiet(control, 0, |charges|) && Covers(control.budget, START.usage, charges))
            && (scanned.stop.None? ==>
                  && scanned.committed == AllFindings(groups)
                  && forall kind :: Consumed(scanned.state.usage, kind) == Total(charges, kind))
  {
    hide Run, PassGroups, Quiet, Covers;
    var groups := ScanGroups(job);
    var charges := AllCharges(groups);
    var done := ControlledPrefix(job, control);
    GroupsCharge(groups, START, control);
    StartsWithinBudget(control.budget);
    RunCompletes(charges, START, control);
    assert groups[..|groups|] == groups;
    if Run(charges, START, control).stop.None? {
      forall kind
        ensures Consumed(Run(charges, START, control).state.usage, kind) == Total(charges, kind)
      {
        RunUses(charges, START, control, kind);
      }
    }
  }

  /** Nothing is ever cancelled. */
  ghost predicate NeverCancelled(control: Control) {
    forall k :: !control.cancelled(k)
  }

  lemma SameUsage(a: Usage, b: Usage)
    requires forall kind :: Consumed(a, kind) == Consumed(b, kind)
    ensures a == b
  {
    assert Consumed(a, DecodedBytes) == Consumed(b, DecodedBytes);
    assert Consumed(a, WorkUnits) == Consumed(b, WorkUnits);
    assert Consumed(a, FindingRecords) == Consumed(b, FindingRecords);
  }

  /** Limits that cover what an unlimited scan uses make no difference to the outcome when nothing is cancelled. */
  lemma CoveringLimitsSameOutcome(
    job: Job, control: Control, free: Control, outcome: Outcome, unlimited: Outcome, polls: nat, freePolls: nat)
    requires NeverCancelled(control) && NeverCancelled(free) && free.budget == Budget(None, None, None)
    requires IsOutcome(job, RunGroups(ScanGroups(job), START, free), free, freePolls, unlimited)
    requires IsOutcome(job, RunGroups(ScanGroups(job), START, control), control, polls, outcome)
    requires unlimited.termination.None?
    requires forall kind :: Limit(control.budget, kind).Some? ==>
               Consumed(unlimited.usage, kind) <= Limit(control.budget, kind).value
    ensures outcome == unlimited
  {
    hide Run, RunGroups, ScanGroups, AllCharges, AllFindings, FilterFindings, FilteredFirst;
    var charges := AllCharges(ScanGroups(job));
    ControlledCompletes(job, free);
    ControlledCompletes(job, control);
    var scanned := RunGroups(ScanGroups(job), START, free);
    assert Covers(control.budget, START.usage, charges) by {
      forall kind
        ensures Consumed(START.usage, kind) + Total(charges, kind) < U64_BOUND
        ensures Limit(control.budget, kind).Some? ==>
                  Consumed(START.usage, kind) + Total(charges, kind) <= Limit(control.budget, kind).value
      {
        assert Consumed(START.usage, kind) == 0;
        assert Consumed(scanned.state.usage, kind) == Total(charges, kind);
      }
    }
    SameUsage(outcome.usage, unlimited.usage);
  }
}
