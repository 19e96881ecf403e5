/** Matching review records with findings, and grouping findings for presentation. */
module Triage {
  import opened Common

  const MAX_REVIEW_RECORDS: nat := 4_096
  const MAX_TRIAGE_FINDINGS: nat := 100_000
  const MAX_REVIEW_RULE_BYTES: nat := 128

  datatype Range = Range(start: nat, end: nat)

  datatype Location = Location(startLine: nat, endLine: nat, startColumn: nat, endColumn: nat)

  /** Ranges are unknown for findings in decoded content. */
  datatype Finding = Finding(
    ruleId: seq<byte>, location: Location, matchRange: Option<Range>, secretRange: Option<Range>, secret: seq<byte>)

  datatype Options = Options(
    maxDecodeDepth: nat, maxTargetBytes: Option<nat>, redactionPercent: nat, honorAllowMarkers: bool)

  datatype Scan = Scan(identity: seq<byte>, options: Options, findings: seq<Finding>, complete: bool)

  /** An observable finding: where it was found in which source, and its position among the scan's findings. */
  datatype Occurrence = Occurrence(
    source: seq<byte>, ruleId: seq<byte>, location: Location, matchRange: Option<Range>, secretRange: Option<Range>,
    index: nat)

  datatype Reason = SyntheticFixture | AcceptedRisk | RemediationScheduled

  datatype ReviewRecord = ReviewRecord(
    policy: seq<byte>, options: Options, occurrence: Occurrence, reason: Reason, expiresAt: u64)

  datatype ReviewError = PolicyMismatch | InvalidReference | LimitExceeded | DuplicateRecord

  datatype Classification = New | Acknowledged(recordIndex: nat)

  datatype RecordState =
    | Active(findingIndex: nat)
    | StalePolicy
    | StaleOptions
    | StaleSource
    | Expired
    | StaleOccurrence
    | UnobservedInPartialScan

  datatype Review = Review(
    occurrences: seq<Occurrence>, classifications: seq<Classification>, states: seq<RecordState>, complete: bool)

  // ---------------------------------------------------------------------
  // Validation
  // ---------------------------------------------------------------------

  predicate IsReferenceByte(b: byte) {
    0x30 <= b <= 0x39 || 0x41 <= b <= 0x5a || 0x61 <= b <= 0x7a
    || b in [0x2e, 0x5f, 0x2d, 0x3a, 0x2f, 0x2b, 0x3d, 0x3b, 0x7c]
  }

  predicate IsReference(reference: seq<byte>, maximum: nat) {
    0 < |reference| <= maximum && forall b | b in reference :: IsReferenceByte(b)
  }

  /** Two records must not decide the same occurrence under the same policy and options. */
  function KeyOf(record: ReviewRecord): (seq<byte>, Options, Occurrence) {
    (record.policy, record.options, record.occurrence)
  }

  ghost predicate NoDuplicates(records: seq<ReviewRecord>) {
    forall i, j | 0 <= i < j < |records| ::
      || records[i].policy != records[j].policy || records[i].options != records[j].options
      || records[i].occurrence != records[j].occurrence
  }

  method ValidateRecords(records: seq<ReviewRecord>) returns (failure: Option<ReviewError>)
    ensures failure == if |records| > MAX_REVIEW_RECORDS then Some(LimitExceeded)
                       else if !NoDuplicates(records) then Some(DuplicateRecord)
                       else None
  {
    if |records| > MAX_REVIEW_RECORDS {
      return Some(LimitExceeded);
    }
    var seen: set<(seq<byte>, Options, Occurrence)> := {};
    for i := 0 to |records|
      invariant NoDuplicates(records[..i])
      invariant forall k :: k in seen <==> exists j :: 0 <= j < i && KeyOf(records[j]) == k
    {
      if KeyOf(records[i]) in seen {
        return Some(DuplicateRecord);
      }
      seen := seen + {KeyOf(records[i])};
    }
    assert records[..|records|] == records;
    failure := None;
  }

  function OccurrenceOf(source: seq<byte>, finding: Finding, index: nat): Occurrence {
    Occurrence(source, finding.ruleId, finding.location, finding.matchRange, finding.secretRange, index)
  }

  method FromFinding(source: seq<byte>, finding: Finding, index: nat) returns (r: Result<Occurrence, ReviewError>)
    ensures r == if !IsReference(finding.ruleId, MAX_REVIEW_RULE_BYTES) then Err(InvalidReference)
                 else if index >= MAX_TRIAGE_FINDINGS then Err(LimitExceeded)
                 else Ok(OccurrenceOf(source, finding, index))
  {
    if !IsReference(finding.ruleId, MAX_REVIEW_RULE_BYTES) {
      return Err(InvalidReference);
    }
    if index >= MAX_TRIAGE_FINDINGS {
      return Err(LimitExceeded);
    }
    r := Ok(OccurrenceOf(source, finding, index));
  }

  predicate RulesValid(findings: seq<Finding>) {
    forall i | 0 <= i < |findings| :: IsReference(findings[i].ruleId, MAX_REVIEW_RULE_BYTES)
  }

  function Occurrences(source: seq<byte>, findings: seq<Finding>): (r: seq<Occurrence>)
    ensures |r| == |findings| && forall i | 0 <= i < |findings| :: r[i] == OccurrenceOf(source, findings[i], i)
  {
    seq(|findings|, i requires 0 <= i < |findings| => OccurrenceOf(source, findings[i], i))
  }

  method Project(source: seq<byte>, findings: seq<Finding>) returns (r: Result<seq<Occurrence>, ReviewError>)
    requires |findings| <= MAX_TRIAGE_FINDINGS
    ensures r == if RulesValid(findings) then Ok(Occurrences(source, findings)) else Err(InvalidReference)
  {
    var occurrences: seq<Occurrence> := [];
    for i := 0 to |findings|
      invariant |occurrences| == i
      invariant forall j | 0 <= j < i ::
                  IsReference(findings[j].ruleId, MAX_REVIEW_RULE_BYTES)
                    && occurrences[j] == OccurrenceOf(source, findings[j], j)
    {
      var one := FromFinding(source, findings[i], i);
      if one.Err? {
        return Err(one.error);
      }
      occurrences := occurrences + [one.value];
    }
    assert occurrences == Occurrences(source, findings);
    r := Ok(occurrences);
  }

  // ---------------------------------------------------------------------
  // Reviewing
  // ---------------------------------------------------------------------

  /** A record that is current for this policy, these options and this source at this time. */
  predicate Applies(record: ReviewRecord, policy: seq<byte>, options: Options, source: seq<byte>, now: u64) {
    record.policy == policy && record.options == options && record.occurrence.source == source && now < record.expiresAt
  }

  /** The state a record must have, given the occurrences of a scan. */
  ghost predicate IsStateOf(
    state: RecordState, record: ReviewRecord, policy: seq<byte>, scan: Scan, source: seq<byte>, now: u64,
    occurrences: seq<Occurrence>)
  {
    if record.policy != policy then state == StalePolicy
    else if record.options != scan.options then state == StaleOptions
    else if record.occurrence.source != source then state == StaleSource
    else if now >= record.expiresAt then state == Expired
    else if record.occurrence in occurrences then
      state.Active? && state.findingIndex < |occurrences| && occurrences[state.findingIndex] == record.occurrence
    else state == if scan.complete then StaleOccurrence else UnobservedInPartialScan
  }

  /** The lookup table from occurrences to their positions. */
  method IndexOccurrences(occurrences: seq<Occurrence>) returns (lookup: map<Occurrence, nat>)
    requires forall i | 0 <= i < |occurrences| :: occurrences[i].index == i
    ensures forall o :: o in lookup <==> o in occurrences
    ensures forall i | 0 <= i < |occurrences| :: lookup[occurrences[i]] == i
  {
    lookup := map[];
    for i := 0 to |occurrences|
      invariant forall o :: o in lookup <==> o in occurrences[..i]
      invariant forall j | 0 <= j < i :: occurrences[j] in lookup && lookup[occurrences[j]] == j
    {
      assert occurrences[..i + 1] == occurrences[..i] + [occurrences[i]];
      lookup := lookup[occurrences[i] := i];
    }
    assert occurrences[..|occurrences|] == occurrences;
  }

  /** Every acknowledgement names an active record, and every active record acknowledges its finding. */
  ghost predicate Corresponds(classifications: seq<Classification>, states: seq<RecordState>) {
    && (forall f | 0 <= f < |classifications| && classifications[f].Acknowledged? ::
          classifications[f].recordIndex < |states| && states[classifications[f].recordIndex] == Active(f))
    && (forall r | 0 <= r < |states| && states[r].Active? ::
          states[r].findingIndex < |classifications| && classifications[states[r].findingIndex] == Acknowledged(r))
  }

  /** Classifying the records one by one. */
  ghost predicate Classified(
    policy: seq<byte>, scan: Scan, source: seq<byte>, now: u64, records: seq<ReviewRecord>,
    occurrences: seq<Occurrence>,
    classifications: seq<Classification>, states: seq<RecordState>)
  {
    && |states| <= |records| && |classifications| == |occurrences|
    && (forall r | 0 <= r < |states| :: IsStateOf(states[r], records[r], policy, scan, source, now, occurrences))
    && Corresponds(classifications, states)
  }

  /** Records that are active for the same finding have the same key. */
  lemma SameKey(
    policy: seq<byte>, scan: Scan, source: seq<byte>, now: u64, records: seq<ReviewRecord>,
    occurrences: seq<Occurrence>,
    states: seq<RecordState>, s: nat, r: nat, f: nat)
    requires s < |states| <= |records| && r < |records| && f < |occurrences| && states[s].Active?
    requires IsStateOf(states[s], records[s], policy, scan, source, now, occurrences)
    requires Applies(records[r], policy, scan.options, source, now) && records[r].occurrence == occurrences[f]
    ensures states[s].findingIndex == f ==> KeyOf(records[s]) == KeyOf(records[r])
  {
  }

  /** No record that applies overwrites the acknowledgement of an earlier one, since records differ. */
  lemma Acknowledge(
    policy: seq<byte>, scan: Scan, source: seq<byte>, now: u64, records: seq<ReviewRecord>,
    occurrences: seq<Occurrence>,
    classifications: seq<Classification>, states: seq<RecordState>, f: nat)
    requires Classified(policy, scan, source, now, records, occurrences, classifications, states)
    requires NoDuplicates(records) && |states| < |records| && f < |occurrences|
    requires Applies(records[|states|], policy, scan.options, source, now)
    requires records[|states|].occurrence == occurrences[f]
    ensures Classified(policy, scan, source, now, records, occurrences,
                       classifications[f := Acknowledged(|states|)], states + [Active(f)])
  {
    var r := |states|;
    forall s | 0 <= s < r && states[s].Active?
      ensures states[s].findingIndex != f
    {
      SameKey(policy, scan, source, now, records, occurrences, states, s, r, f);
    }
    var after := states + [Active(f)];
    forall s | 0 <= s < |after|
      ensures IsStateOf(after[s], records[s], policy, scan, source, now, occurrences)
    {
      assert s < r ==> IsStateOf(states[s], records[s], policy, scan, source, now, occurrences);
    }
  }

  lemma PassOver(
    policy: seq<byte>, scan: Scan, source: seq<byte>, now: u64, records: seq<ReviewRecord>,
    occurrences: seq<Occurrence>,
    classifications: seq<Classification>, states: seq<RecordState>, state: RecordState)
    requires Classified(policy, scan, source, now, records, occurrences, classifications, states)
    requires |states| < |records| && !state.Active?
    requires IsStateOf(state, records[|states|], policy, scan, source, now, occurrences)
    ensures Classified(policy, scan, source, now, records, occurrences, classifications, states + [state])
  {
    var after := states + [state];
    forall s | 0 <= s < |after|
      ensures IsStateOf(after[s], records[s], policy, scan, source, now, occurrences)
    {
      assert s < |states| ==> IsStateOf(states[s], records[s], policy, scan, source, now, occurrences);
    }
  }

  datatype ReviewPolicy = ReviewPolicy(identity: seq<byte>, reference: seq<byte>)

  /** What a review can be refused for, in the order in which it is checked. */
  ghost function Refusal(policy: ReviewPolicy, scan: Scan, records: seq<ReviewRecord>): Option<ReviewError> {
    if scan.identity != policy.identity then Some(PolicyMismatch)
    else if |records| > MAX_REVIEW_RECORDS then Some(LimitExceeded)
    else if !NoDuplicates(records) then Some(DuplicateRecord)
    else if |scan.findings| > MAX_TRIAGE_FINDINGS then Some(LimitExceeded)
    else if !RulesValid(scan.findings) then Some(InvalidReference)
    else None
  }

  method DoReview(policy: ReviewPolicy, scan: Scan, source: seq<byte>, records: seq<ReviewRecord>, now: u64)
    returns (r: Result<Review, ReviewError>)
    ensures var refusal := Refusal(policy, scan, records);
            if refusal.Some? then r == Err(refusal.value)
            else
              && r.Ok? && r.value.occurrences == Occurrences(source, scan.findings) && r.value.complete == scan.complete
              && |r.value.states| == |records|
              && Classified(policy.reference, scan, source, now, records, r.value.occurrences, r.value.classifications,
                 r.value.states)
  {
    if scan.identity != policy.identity {
      return Err(PolicyMismatch);
    }
    var invalid := ValidateRecords(records);
    if invalid.Some? {
      return Err(invalid.value);
    }
    if |scan.findings| > MAX_TRIAGE_FINDINGS {
      return Err(LimitExceeded);
    }
    var projected := Project(source, scan.findings);
    if projected.Err? {
      return Err(projected.error);
    }
    hide NoDuplicates, Classified, IsStateOf;
    var occurrences := projected.value;
    var lookup := IndexOccurrences(occurrences);
    var classifications: seq<Classification> := seq(|occurrences|, _ => New);
    var states: seq<RecordState> := [];
    NothingClassified(policy.reference, scan, source, now, records, occurrences, classifications);
    for k := 0 to |records|
      invariant |states| == k && |classifications| == |occurrences|
      invariant Classified(policy.reference, scan, source, now, records, occurrences, classifications, states)
    {
      var record := records[k];
      if record.occurrence in lookup && Applies(record, policy.reference, scan.options, source, now) {
        var f := lookup[record.occurrence];
        assert exists i :: 0 <= i < |occurrences| && occurrences[i] == record.occurrence;
        Acknowledge(policy.reference, scan, source, now, records, occurrences, classifications, states, f);
        classifications := classifications[f := Acknowledged(k)];
        states := states + [Active(f)];
      } else {
        var state :=
          if record.policy != policy.reference then StalePolicy
          else if record.options != scan.options then StaleOptions
          else if record.occurrence.source != source then StaleSource
          else if now >= record.expiresAt then Expired
          else if scan.complete then StaleOccurrence
          else UnobservedInPartialScan;
        StaleState(record, policy.reference, scan, source, now, occurrences, state);
        PassOver(policy.reference, scan, source, now, records, occurrences, classifications, states, state);
        states := states + [state];
      }
    }
    r := Ok(Review(occurrences, classifications, states, scan.complete));
  }

  lemma StaleState(
    record: ReviewRecord, policy: seq<byte>, scan: Scan, source: seq<byte>, now: u64, occurrences: seq<Occurrence>,
    state: RecordState)
    requires record.occurrence !in occurrences || !Applies(record, policy, scan.options, source, now)
    requires state == if record.policy != policy then StalePolicy
                      else if record.options != scan.options then StaleOptions
                      else if record.occurrence.source != source then StaleSource
                      else if now >= record.expiresAt then Expired
                      else if scan.complete then StaleOccurrence
                      else UnobservedInPartialScan
    ensures IsStateOf(state, record, policy, scan, source, now, occurrences)
  {
  }

  lemma NothingClassified(
    policy: seq<byte>, scan: Scan, source: seq<byte>, now: u64, records: seq<ReviewRecord>,
    occurrences: seq<Occurrence>,
    classifications: seq<Classification>)
    requires |classifications| == |occurrences| && forall f | 0 <= f < |classifications| :: classifications[f] == New
    ensures Classified(policy, scan, source, now, records, occurrences, classifications, [])
  {
  }

  /**
   * Finding `f` is acknowledged by record `r` if and only if `r` is active for `f`, which it is if and only if it is
   * current and names exactly the occurrence at `f`.
   */
  lemma ReviewExact(
    policy: seq<byte>, scan: Scan, source: seq<byte>, now: u64, records: seq<ReviewRecord>,
    classifications: seq<Classification>, states: seq<RecordState>, f: nat, r: nat)
    requires Classified(policy, scan, source, now, records, Occurrences(source, scan.findings), classifications, states)
    requires |states| == |records| && f < |scan.findings| && r < |records|
    ensures classifications[f] == Acknowledged(r) <==> states[r] == Active(f)
    ensures var finding := scan.findings[f];
            states[r] == Active(f)
            <==> && records[r].policy == policy && records[r].options == scan.options && now < records[r].expiresAt
                 && records[r].occurrence
                    == Occurrence(
                         source, finding.ruleId, finding.location, finding.matchRange, finding.secretRange, f)
  {
    var occurrences := Occurrences(source, scan.findings);
    assert IsStateOf(states[r], records[r], policy, scan, source, now, occurrences);
    assert occurrences[f] in occurrences;
  }

  /**
   * Why a record is not active: for the first thing about it that is out of date, and otherwise because the scan has
   * no such occurrence, which says something only if the scan is complete.
   */
  lemma StaleExact(
    policy: seq<byte>, scan: Scan, source: seq<byte>, now: u64, records: seq<ReviewRecord>,
    classifications: seq<Classification>, states: seq<RecordState>, r: nat)
    requires Classified(policy, scan, source, now, records, Occurrences(source, scan.findings), classifications, states)
    requires |states| == |records| && r < |records|
    ensures var record, state := records[r], states[r];
            && (state == StalePolicy <==> record.policy != policy)
            && (state == StaleOptions <==> record.policy == policy && record.options != scan.options)
            && (state == StaleSource
                <==> record.policy == policy && record.options == scan.options && record.occurrence.source != source)
            && (state == Expired
                <==> record.policy == policy && record.options == scan.options && record.occurrence.source == source
                     && record.expiresAt <= now)
            && (state == StaleOccurrence ==> scan.complete) && (state == UnobservedInPartialScan ==> !scan.complete)
  {
    assert IsStateOf(states[r], records[r], policy, scan, source, now, Occurrences(source, scan.findings));
  }

  /** What a review is refused for: the policy, then the records, and then the findings. */
  lemma RefusedExactly(policy: ReviewPolicy, scan: Scan, records: seq<ReviewRecord>)
    ensures Refusal(policy, scan, records) == Some(PolicyMismatch) <==> scan.identity != policy.identity
    ensures Refusal(policy, scan, records) == Some(DuplicateRecord)
       <==> scan.identity == policy.identity && |records| <= 4096 && !NoDuplicates(records)
    ensures Refusal(policy, scan, records) == Some(LimitExceeded)
       <==> && scan.identity == policy.identity
            && (|records| > 4096 || (NoDuplicates(records) && |scan.findings| > 100000))
    ensures Refusal(policy, scan, records) == Some(InvalidReference)
       <==> && scan.identity == policy.identity && |records| <= 4096 && NoDuplicates(records)
            && |scan.findings| <= 100000
            && exists f :: f in scan.findings && !IsReference(f.ruleId, 128)
  {
    hide NoDuplicates, IsReference;
    assert RulesValid(scan.findings) <==> forall f | f in scan.findings :: IsReference(f.ruleId, 128);
  }

  // ---------------------------------------------------------------------
  // Grouping for presentation
  // ---------------------------------------------------------------------

  /** Findings with the same nonempty exact span and the same secret belong together. */
  function GroupKey(finding: Finding): Option<(nat, nat, seq<byte>)> {
    if finding.secretRange.Some? && finding.secretRange.value.start != finding.secretRange.value.end then
      Some((finding.secretRange.value.start, finding.secretRange.value.end, finding.secret))
    else None
  }

  /** A finding belongs together with itself, and with those of the same secret at the same known, nonempty place. */
  predicate Together(findings: seq<Finding>, i: nat, j: nat)
    requires i < |findings| && j < |findings|
  {
    i == j
    || (&& findings[i].secretRange.Some? && findings[j].secretRange == findings[i].secretRange
        && findings[i].secretRange.value.start != findings[i].secretRange.value.end
        && findings[i].secret == findings[j].secret)
  }

  lemma TogetherByKey(findings: seq<Finding>, i: nat, j: nat)
    requires i < |findings| && j < |findings|
    ensures Together(findings, i, j)
       <==> i == j || (GroupKey(findings[i]).Some? && GroupKey(findings[i]) == GroupKey(findings[j]))
  {
  }

  predicate Increasing(s: seq<nat>) {
    forall i, j | 0 <= i < j < |s| :: s[i] < s[j]
  }

  /** `home[i]` is the group of finding `i`. */
  ghost predicate Houses(groups: seq<seq<nat>>, home: seq<nat>) {
    && (forall g, k | 0 <= g < |groups| && 0 <= k < |groups[g]| :: groups[g][k] < |home| && home[groups[g][k]] == g)
    && (forall i | 0 <= i < |home| :: home[i] < |groups| && i in groups[home[i]])
  }

  /** Groups list their findings in order, and stand in the order of their first findings. */
  ghost predicate InOrder(groups: seq<seq<nat>>) {
    && (forall g | 0 <= g < |groups| :: groups[g] != [] && Increasing(groups[g]))
    && (forall g, h | 0 <= g < h < |groups| :: groups[g][0] < groups[h][0])
  }

  ghost predicate KeyedBy(findings: seq<Finding>, home: seq<nat>, k: (nat, nat, seq<byte>), g: nat) {
    exists i :: 0 <= i < |home| <= |findings| && home[i] == g && GroupKey(findings[i]) == Some(k)
  }

  /** The table holds the group of every key seen so far. */
  ghost predicate KeysKnown(findings: seq<Finding>, keys: map<(nat, nat, seq<byte>), nat>, home: seq<nat>) {
    && |home| <= |findings|
    && (forall i | 0 <= i < |home| && GroupKey(findings[i]).Some? ::
          GroupKey(findings[i]).value in keys && home[i] == keys[GroupKey(findings[i]).value])
    && (forall k | k in keys :: KeyedBy(findings, home, k, keys[k]))
  }

  ghost predicate SameHome(findings: seq<Finding>, home: seq<nat>) {
    && |home| <= |findings|
    && forall i, j | 0 <= i < |home| && 0 <= j < |home| && home[i] == home[j] :: Together(findings, i, j)
  }

  /** The groups of the first `|home|` findings, and the key of every group that has one. */
  ghost predicate GroupState(
    findings: seq<Finding>, groups: seq<seq<nat>>, keys: map<(nat, nat, seq<byte>), nat>, home: seq<nat>)
  {
    Houses(groups, home) && InOrder(groups) && KeysKnown(findings, keys, home) && SameHome(findings, home)
  }

  lemma HousesJoin(groups: seq<seq<nat>>, home: seq<nat>, g: nat)
    requires Houses(groups, home) && InOrder(groups) && g < |groups|
    ensures Houses(groups[g := groups[g] + [|home|]], home + [g])
    ensures InOrder(groups[g := groups[g] + [|home|]])
  {
    var longer, after := groups[g] + [|home|], groups[g := groups[g] + [|home|]];
    forall i, j | 0 <= i < j < |longer|
      ensures longer[i] < longer[j]
    {
      assert i < |groups[g]| && longer[i] == groups[g][i];
    }
    forall i | 0 <= i < |home|
      ensures i in after[home[i]]
    {
      assert i in groups[home[i]];
    }
    assert longer[|groups[g]|] == |home|;
  }

  lemma HousesStart(groups: seq<seq<nat>>, home: seq<nat>)
    requires Houses(groups, home) && InOrder(groups)
    ensures Houses(groups + [[|home|]], home + [|groups|]) && InOrder(groups + [[|home|]])
  {
    var after := groups + [[|home|]];
    forall i | 0 <= i < |home|
      ensures i in after[home[i]]
    {
      assert i in groups[home[i]];
    }
  }

  lemma KeysJoin(findings: seq<Finding>, keys: map<(nat, nat, seq<byte>), nat>, home: seq<nat>)
    requires KeysKnown(findings, keys, home) && SameHome(findings, home) && |home| < |findings|
    requires GroupKey(findings[|home|]).Some? && GroupKey(findings[|home|]).value in keys
    ensures var longer := home + [keys[GroupKey(findings[|home|]).value]];
            KeysKnown(findings, keys, longer) && SameHome(findings, longer)
  {
    hide GroupKey, Together;
    var key := GroupKey(findings[|home|]).value;
    var longer := home + [keys[key]];
    forall k | k in keys
      ensures KeyedBy(findings, longer, k, keys[k])
    {
      assert KeyedBy(findings, home, k, keys[k]);
      var i :| 0 <= i < |home| && home[i] == keys[k] && GroupKey(findings[i]) == Some(k);
      assert longer[i] == keys[k];
    }
    assert KeyedBy(findings, home, key, keys[key]);
    var first :| 0 <= first < |home| && home[first] == keys[key] && GroupKey(findings[first]) == Some(key);
    forall i | 0 <= i < |home| && home[i] == keys[key]
      ensures Together(findings, i, |home|) && Together(findings, |home|, i)
    {
      assert Together(findings, i, first);
      TogetherByKey(findings, i, first);
      TogetherByKey(findings, i, |home|);
      TogetherByKey(findings, |home|, i);
    }
    TogetherByKey(findings, |home|, |home|);
  }

  lemma KeysStart(findings: seq<Finding>, keys: map<(nat, nat, seq<byte>), nat>, home: seq<nat>, g: nat)
    requires KeysKnown(findings, keys, home) && SameHome(findings, home) && |home| < |findings|
    requires GroupKey(findings[|home|]).None? || GroupKey(findings[|home|]).value !in keys
    requires forall i | 0 <= i < |home| :: home[i] < g
    ensures var key := GroupKey(findings[|home|]);
            var after := if key.Some? then keys[key.value := g] else keys;
            KeysKnown(findings, after, home + [g]) && SameHome(findings, home + [g])
  {
    var key, longer := GroupKey(findings[|home|]), home + [g];
    var after := if key.Some? then keys[key.value := g] else keys;
    forall k | k in after
      ensures KeyedBy(findings, longer, k, after[k])
    {
      if key == Some(k) {
        assert longer[|home|] == g;
      } else {
        assert KeyedBy(findings, home, k, keys[k]);
        var i :| 0 <= i < |home| && home[i] == keys[k] && GroupKey(findings[i]) == Some(k);
        assert longer[i] == keys[k];
      }
    }
  }

  /** A finding whose key has been seen joins the group of that key. */
  lemma JoinGroup(
    findings: seq<Finding>, groups: seq<seq<nat>>, keys: map<(nat, nat, seq<byte>), nat>, home: seq<nat>)
    requires GroupState(findings, groups, keys, home) && |home| < |findings|
    requires GroupKey(findings[|home|]).Some? && GroupKey(findings[|home|]).value in keys
    ensures var g := keys[GroupKey(findings[|home|]).value];
            g < |groups| && GroupState(findings, groups[g := groups[g] + [|home|]], keys, home + [g])
  {
    hide Houses, InOrder, KeysKnown, SameHome;
    var key := GroupKey(findings[|home|]).value;
    HousesFacts(groups, home);
    KeyInRange(findings, keys, home, key);
    HousesJoin(groups, home, keys[key]);
    KeysJoin(findings, keys, home);
  }

  /** Any other finding starts a group of its own. */
  lemma StartGroup(
    findings: seq<Finding>, groups: seq<seq<nat>>, keys: map<(nat, nat, seq<byte>), nat>, home: seq<nat>)
    requires GroupState(findings, groups, keys, home) && |home| < |findings|
    requires GroupKey(findings[|home|]).None? || GroupKey(findings[|home|]).value !in keys
    ensures var key := GroupKey(findings[|home|]);
            var after := if key.Some? then keys[key.value := |groups|] else keys;
            GroupState(findings, groups + [[|home|]], after, home + [|groups|])
  {
    hide Houses, InOrder, KeysKnown, SameHome;
    HousesFacts(groups, home);
    HousesStart(groups, home);
    KeysStart(findings, keys, home, |groups|);
  }

  /** The groups partition all findings, in the order of first appearance, by what belongs together. */
  ghost predicate IsGrouping(findings: seq<Finding>, groups: seq<seq<nat>>, home: seq<nat>) {
    && |home| == |findings| && Houses(groups, home) && InOrder(groups)
    && forall i, j | 0 <= i < |findings| && 0 <= j < |findings| :: home[i] == home[j] <==> Together(findings, i, j)
  }

  ghost predicate InOneGroup(groups: seq<seq<nat>>, i: nat, j: nat) {
    exists g :: 0 <= g < |groups| && i in groups[g] && j in groups[g]
  }

  /** Every finding is in exactly one group, and shares it exactly with what it belongs together with. */
  ghost predicate Partitions(findings: seq<Finding>, groups: seq<seq<nat>>) {
    && (forall i, j | 0 <= i < |findings| && 0 <= j < |findings| ::
          InOneGroup(groups, i, j) <==> Together(findings, i, j))
    && (forall i, g, h | 0 <= g < |groups| && 0 <= h < |groups| && i in groups[g] && i in groups[h] :: g == h)
    && (forall i, g | 0 <= g < |groups| && i in groups[g] :: i < |findings|)
  }

  method GroupsForScan(findings: seq<Finding>) returns (r: Result<seq<seq<nat>>, ReviewError>, ghost home: seq<nat>)
    ensures r == Err(LimitExceeded) <==> |findings| > MAX_TRIAGE_FINDINGS
    ensures r.Err? ==> r.error == LimitExceeded
    ensures r.Ok? ==> InOrder(r.value) && Partitions(findings, r.value)
    ensures r.Ok? ==> IsGrouping(findings, r.value, home)
  {
    hide KeysKnown, KeyedBy, Houses, SameHome, InOrder, Together;
    home := [];
    if |findings| > MAX_TRIAGE_FINDINGS {
      return Err(LimitExceeded), home;
    }
    hide GroupState, IsGrouping, GroupKey;
    var groups: seq<seq<nat>> := [];
    var keys: map<(nat, nat, seq<byte>), nat> := map[];
    NothingGrouped(findings);
    for i := 0 to |findings|
      invariant |home| == i && GroupState(findings, groups, keys, home)
    {
      var key := GroupKey(findings[i]);
      if key.Some? {
        if key.value in keys {
          var g := keys[key.value];
          JoinGroup(findings, groups, keys, home);
          groups, home := groups[g := groups[g] + [i]], home + [g];
          continue;
        }
      }
      StartGroup(findings, groups, keys, home);
      if key.Some? {
        keys := keys[key.value := |groups|];
      }
      home := home + [|groups|];
      groups := groups + [[i]];
    }
    GroupingComplete(findings, groups, keys, home);
    GroupingPartitions(findings, groups, home);
    r := Ok(groups);
  }

  lemma NothingGrouped(findings: seq<Finding>)
    ensures GroupState(findings, [], map[], [])
  {
  }

  lemma HousesFacts(groups: seq<seq<nat>>, home: seq<nat>)
    requires Houses(groups, home)
    ensures forall i | 0 <= i < |home| :: home[i] < |groups|
  {
  }

  lemma KeyInRange(
    findings: seq<Finding>, keys: map<(nat, nat, seq<byte>), nat>, home: seq<nat>, key: (nat, nat, seq<byte>))
    requires KeysKnown(findings, keys, home) && key in keys
    ensures exists i :: 0 <= i < |home| && home[i] == keys[key]
  {
    assert KeyedBy(findings, home, key, keys[key]);
  }

  lemma GroupingComplete(
    findings: seq<Finding>, groups: seq<seq<nat>>, keys: map<(nat, nat, seq<byte>), nat>, home: seq<nat>)
    requires GroupState(findings, groups, keys, home) && |home| == |findings|
    ensures IsGrouping(findings, groups, home)
  {
  }

  lemma GroupingPartitions(findings: seq<Finding>, groups: seq<seq<nat>>, home: seq<nat>)
    requires IsGrouping(findings, groups, home)
    ensures InOrder(groups) && Partitions(findings, groups)
  {
    hide Together;
    forall i, j | 0 <= i < |findings| && 0 <= j < |findings|
      ensures InOneGroup(groups, i, j) <==> Together(findings, i, j)
    {
      GroupedTogether(findings, groups, home, i, j);
    }
    assert forall i, g | 0 <= g < |groups| && i in groups[g] :: i < |findings| && home[i] == g;
  }

  /**
   * Two findings are shown in one group exactly if they belong together, and every finding is shown in one group
   * only.
   */
  lemma GroupedTogether(findings: seq<Finding>, groups: seq<seq<nat>>, home: seq<nat>, i: nat, j: nat)
    requires IsGrouping(findings, groups, home) && i < |findings| && j < |findings|
    ensures Together(findings, i, j) <==> exists g :: 0 <= g < |groups| && i in groups[g] && j in groups[g]
    ensures forall g, h | 0 <= g < |groups| && 0 <= h < |groups| && i in groups[g] && i in groups[h] :: g == h
  {
    hide InOrder, Together;
    assert i in groups[home[i]];
  }
}
