/** Detecting one rule in one pass over a fragment, with its required rules. */
module RuleScan {
  import opened Common
  import opened ScanControl

  /** A secret found by a required rule near a primary finding. */
  datatype RequiredFinding = RequiredFinding(ruleId: seq<byte>, startLine: nat, startColumn: nat, secret: seq<byte>)

  datatype Finding = Finding(
    ruleId: seq<byte>, startLine: nat, startColumn: nat, commit: seq<byte>, secret: seq<byte>,
    required: seq<RequiredFinding>)

  /** A rule that must match near a primary finding, and how near. Bounds may be negative in a configuration. */
  datatype RequiredRule = RequiredRule(id: seq<byte>, withinLines: Option<int>, withinColumns: Option<int>)

  datatype Segment = Segment(start: nat, end: nat)

  /**
   * A compiled rule, as far as one fragment tells: `allowed` is the verdict of its commit and path allowlists, `path`
   * of its path matcher, and `candidates` gives for each match of its expression the finding that it leads to, if
   * any.
   */
  datatype Rule = Rule(
    id: seq<byte>, keywords: seq<Option<nat>>, skipReport: bool, allowed: bool, path: Option<bool>,
    pathFinding: Option<Finding>, candidates: Option<(seq<byte>, seq<Segment>) -> seq<Option<Finding>>>,
    required: seq<RequiredRule>)

  datatype Pass = Pass(raw: seq<byte>, segments: seq<Segment>, inherited: bool)

  /** What a piece of the scan charges, and what it comes to when no charge is refused. */
  datatype Plan<T> = Plan(charges: seq<Charge>, value: T)

  // ---------------------------------------------------------------------
  // Proximity
  // ---------------------------------------------------------------------

  function Distance(a: nat, b: nat): nat { if a < b then b - a else a - b }

  predicate Within(a: nat, b: nat, bound: Option<int>) {
    bound.Some? ==> bound.value >= 0 && Distance(a, b) <= bound.value
  }

  predicate WithinProximity(primary: Finding, finding: Finding, spec: RequiredRule) {
    Within(primary.startLine, finding.startLine, spec.withinLines)
    && Within(primary.startColumn, finding.startColumn, spec.withinColumns)
  }

  function Projected(finding: Finding): RequiredFinding {
    RequiredFinding(finding.ruleId, finding.startLine, finding.startColumn, finding.secret)
  }

  // ---------------------------------------------------------------------
  // Plans
  // ---------------------------------------------------------------------

  function FindRule(rules: seq<Rule>, id: seq<byte>): Option<Rule> {
    if rules == [] then None else if rules[0].id == id then Some(rules[0]) else FindRule(rules[1..], id)
  }

  /** Every candidate is a unit of work, and every finding a record. */
  function CandidatesPlan(candidates: seq<Option<Finding>>): Plan<seq<Finding>> {
    if candidates == [] then Plan([], [])
    else
      var rest := CandidatesPlan(candidates[1..]);
      match candidates[0]
      case None => Plan([Work] + rest.charges, rest.value)
      case Some(finding) => Plan([Work, Record] + rest.charges, [finding] + rest.value)
  }

  /** The charges and findings of a rule before its required rules are looked at. */
  function PrimaryPlan(rule: Rule, pass: Pass, maxTarget: Option<nat>): Plan<seq<Finding>> {
    if rule.skipReport && !pass.inherited then Plan([], [])
    else if rule.allowed then Plan([], [])
    else if rule.path.Some? && rule.candidates.None? then
      if pass.segments == [] && rule.path.value && rule.pathFinding.Some? then Plan([Record], [rule.pathFinding.value])
      else Plan([], [])
    else if rule.path == Some(false) then Plan([], [])
    else if rule.candidates.None? then Plan([], [])
    else if maxTarget.Some? && |pass.raw| > maxTarget.value then Plan([], [])
    else CandidatesPlan(rule.candidates.value(pass.raw, pass.segments))
  }

  /** Required rules are run as inherited ones, which look at no required rules of their own. */
  function RequiredRunsPlan(
    rules: seq<Rule>, required: seq<RequiredRule>, pass: Pass, maxTarget: Option<nat>,
    found: map<seq<byte>, seq<Finding>>): Plan<map<seq<byte>, seq<Finding>>>
    decreases |required|
  {
    if required == [] then Plan([], found)
    else
      match FindRule(rules, required[0].id)
      case None =>
        var rest := RequiredRunsPlan(rules, required[1..], pass, maxTarget, found);
        Plan([Work] + rest.charges, rest.value)
      case Some(rule) =>
        var run := PrimaryPlan(rule, pass.(inherited := true), maxTarget);
        var rest := RequiredRunsPlan(rules, required[1..], pass, maxTarget, found[required[0].id := run.value]);
        Plan([Work, Work] + run.charges + rest.charges, rest.value)
  }

  function NearPlan(primary: Finding, findings: seq<Finding>, spec: RequiredRule): Plan<seq<RequiredFinding>> {
    if findings == [] then Plan([], [])
    else
      var rest := NearPlan(primary, findings[1..], spec);
      if WithinProximity(primary, findings[0], spec) then
        Plan([Work, Record] + rest.charges, [Projected(findings[0])] + rest.value)
      else Plan([Work] + rest.charges, rest.value)
  }

  /** What one required rule adds to a primary finding. */
  function NearOf(
    primary: Finding, spec: RequiredRule, found: map<seq<byte>, seq<Finding>>): Plan<seq<RequiredFinding>>
  {
    if spec.id in found then NearPlan(primary, found[spec.id], spec) else Plan([], [])
  }

  function ProjectionPlan(primary: Finding, required: seq<RequiredRule>, found: map<seq<byte>, seq<Finding>>)
    : Plan<seq<RequiredFinding>>
  {
    if required == [] then Plan([], [])
    else
      var near := NearOf(primary, required[0], found);
      var rest := ProjectionPlan(primary, required[1..], found);
      Plan([Work] + near.charges + rest.charges, near.value + rest.value)
  }

  predicate HasAll(required: seq<RequiredRule>, projected: seq<RequiredFinding>) {
    forall r | r in required :: exists f | f in projected :: f.ruleId == r.id
  }

  predicate Completes(required: seq<RequiredRule>, projected: seq<RequiredFinding>) {
    projected != [] && HasAll(required, projected)
  }

  function Kept(primary: Finding, required: seq<RequiredRule>, near: seq<RequiredFinding>): seq<Finding> {
    if Completes(required, near) then [primary.(required := primary.required + near)] else []
  }

  /** A primary finding is kept, with what was found near it, when every required rule was found near it. */
  function CompletedPlan(primaries: seq<Finding>, required: seq<RequiredRule>, found: map<seq<byte>, seq<Finding>>)
    : Plan<seq<Finding>>
  {
    if primaries == [] then Plan([], [])
    else
      var near := ProjectionPlan(primaries[0], required, found);
      var rest := CompletedPlan(primaries[1..], required, found);
      Plan(near.charges + rest.charges, Kept(primaries[0], required, near.value) + rest.value)
  }

  predicate LooksAtRequired(rule: Rule, pass: Pass, findings: seq<Finding>) {
    rule.candidates.Some? && !pass.inherited && rule.required != [] && findings != []
  }

  /** Everything a rule charges in one pass, and its findings. */
  function RulePlan(rules: seq<Rule>, rule: Rule, pass: Pass, maxTarget: Option<nat>): Plan<seq<Finding>> {
    var primary := PrimaryPlan(rule, pass, maxTarget);
    if !LooksAtRequired(rule, pass, primary.value) then Plan([Work] + primary.charges, primary.value)
    else
      var runs := RequiredRunsPlan(rules, rule.required, pass, maxTarget, map[]);
      var completed := CompletedPlan(primary.value, rule.required, runs.value);
      Plan([Work] + primary.charges + runs.charges + completed.charges, completed.value)
  }

  // ---------------------------------------------------------------------
  // Following a plan
  // ---------------------------------------------------------------------

  /** The plan has been carried out up to its end, or up to the first charge that was refused. */
  ghost predicate Follows<T>(plan: Plan<T>, before: State, control: Control, after: State, r: Result<T, Termination>) {
    var ran := Run(plan.charges, before, control);
    after == ran.state && r == if ran.stop.None? then Ok(plan.value) else Err(ran.stop.value)
  }

  /** Where a piece of work stands: the rest of its charges, from here, are all of its charges from the start. */
  ghost predicate Rest(all: seq<Charge>, before: State, rest: seq<Charge>, now: State, control: Control) {
    Run(all, before, control) == Run(rest, now, control)
  }

  lemma RestOne(all: seq<Charge>, before: State, charge: Charge, rest: seq<Charge>, now: State, control: Control)
    requires Rest(all, before, [charge] + rest, now, control)
    ensures var one := Perform(charge, now, control);
            if one.stop.Some? then Run(all, before, control) == one else Rest(all, before, rest, one.state, control)
  {
    hide Perform;
    assert ([charge] + rest)[1..] == rest;
  }

  lemma RestAppend(all: seq<Charge>, before: State, part: seq<Charge>, rest: seq<Charge>, now: State, control: Control)
    requires Rest(all, before, part + rest, now, control)
    ensures var ran := Run(part, now, control);
            if ran.stop.Some? then Run(all, before, control) == ran else Rest(all, before, rest, ran.state, control)
  {
    RunAppend(part, rest, now, control);
  }

  lemma RestDone(all: seq<Charge>, before: State, now: State, control: Control)
    requires Rest(all, before, [], now, control)
    ensures Run(all, before, control) == Ran(now, None)
  {
  }

  // ---------------------------------------------------------------------
  // Detecting
  // ---------------------------------------------------------------------

  method ScanCandidates(candidates: seq<Option<Finding>>, context: ScanContext)
    returns (r: Result<seq<Finding>, Termination>)
    modifies context
    ensures Follows(CandidatesPlan(candidates), old(context.Now()), context.control, context.Now(), r)
  {
    hide Run, Perform;
    ghost var plan, before := CandidatesPlan(candidates), context.Now();
    var findings: seq<Finding> := [];
    assert candidates[0..] == candidates;
    for i := 0 to |candidates|
      invariant Rest(plan.charges, before, CandidatesPlan(candidates[i..]).charges, context.Now(), context.control)
      invariant plan.value == findings + CandidatesPlan(candidates[i..]).value
    {
      CandidatesStep(candidates, i);
      ghost var rest := CandidatesPlan(candidates[i + 1..]);
      ghost var more := if candidates[i].Some? then [Record] + rest.charges else rest.charges;
      RestOne(plan.charges, before, Work, more, context.Now(), context.control);
      var stop := context.ChargeWork();
      if stop.Some? {
        return Err(stop.value);
      }
      if candidates[i].Some? {
        RestOne(plan.charges, before, Record, rest.charges, context.Now(), context.control);
        stop := context.ChargeFindingRecord();
        if stop.Some? {
          return Err(stop.value);
        }
        findings := findings + [candidates[i].value];
      }
    }
    assert candidates[|candidates|..] == [] && findings + [] == findings;
    RestDone(plan.charges, before, context.Now(), context.control);
    r := Ok(findings);
  }

  lemma CandidatesStep(candidates: seq<Option<Finding>>, i: nat)
    requires i < |candidates|
    ensures var all, rest := CandidatesPlan(candidates[i..]), CandidatesPlan(candidates[i + 1..]);
            && all.charges == [Work] + (if candidates[i].Some? then [Record] + rest.charges else rest.charges)
            && all.value == (if candidates[i].Some? then [candidates[i].value] else []) + rest.value
  {
    assert candidates[i..][0] == candidates[i] && candidates[i..][1..] == candidates[i + 1..];
  }

  /** Detects a rule without its required rules, behind the unit of work that every rule starts with. */
  method DetectPrimary(rule: Rule, pass: Pass, maxTarget: Option<nat>, context: ScanContext)
    returns (r: Result<seq<Finding>, Termination>)
    modifies context
    ensures Follows(PrimaryPlan(rule, pass, maxTarget), old(context.Now()), context.control, context.Now(), r)
  {
    hide Perform, CandidatesPlan;
    if rule.skipReport && !pass.inherited {
      return Ok([]);
    }
    if rule.allowed {
      return Ok([]);
    }
    if rule.path.Some? {
      if rule.candidates.None? {
        if pass.segments == [] && rule.path.value && rule.pathFinding.Some? {
          ghost var before := context.Now();
          var stop := context.ChargeFindingRecord();
          assert [Record] == [Record] + [];
          RestOne([Record], before, Record, [], before, context.control);
          if stop.Some? {
            return Err(stop.value);
          }
          return Ok([rule.pathFinding.value]);
        }
        return Ok([]);
      }
      if !rule.path.value {
        return Ok([]);
      }
    }
    if rule.candidates.None? {
      return Ok([]);
    }
    if maxTarget.Some? && |pass.raw| > maxTarget.value {
      return Ok([]);
    }
    r := ScanCandidates(rule.candidates.value(pass.raw, pass.segments), context);
  }

  /** Runs the required rules as inherited ones. */
  method RunRequired(
    rules: seq<Rule>, required: seq<RequiredRule>, pass: Pass, maxTarget: Option<nat>, context: ScanContext)
    returns (r: Result<map<seq<byte>, seq<Finding>>, Termination>)
    modifies context
    ensures Follows(RequiredRunsPlan(rules, required, pass, maxTarget, map[]), old(context.Now()), context.control,
            context.Now(), r)
  {
    hide Run, Perform, PrimaryPlan;
    ghost var plan, before := RequiredRunsPlan(rules, required, pass, maxTarget, map[]), context.Now();
    var found: map<seq<byte>, seq<Finding>> := map[];
    assert required[0..] == required;
    for i := 0 to |required|
      invariant var rest := RequiredRunsPlan(rules, required[i..], pass, maxTarget, found);
                Rest(plan.charges, before, rest.charges, context.Now(), context.control) && plan.value == rest.value
    {
      ghost var all := RequiredRunsPlan(rules, required[i..], pass, maxTarget, found);
      RequiredStep(rules, required, pass, maxTarget, found, i);
      var rule := FindRule(rules, required[i].id);
      ghost var behind := all.charges[1..];
      RestOne(plan.charges, before, Work, behind, context.Now(), context.control);
      var stop := context.ChargeWork();
      if stop.Some? {
        return Err(stop.value);
      }
      if rule.None? {
        continue;
      }
      ghost var primary := PrimaryPlan(rule.value, pass.(inherited := true), maxTarget);
      ghost var rest := RequiredRunsPlan(rules, required[i + 1..], pass, maxTarget,
        found[required[i].id := primary.value]);
      RestOne(plan.charges, before, Work, primary.charges + rest.charges, context.Now(), context.control);
      stop := context.ChargeWork();
      if stop.Some? {
        return Err(stop.value);
      }
      RestAppend(plan.charges, before, primary.charges, rest.charges, context.Now(), context.control);
      var findings := DetectPrimary(rule.value, pass.(inherited := true), maxTarget, context);
      if findings.Err? {
        return Err(findings.error);
      }
      found := found[required[i].id := findings.value];
    }
    assert required[|required|..] == [];
    RestDone(plan.charges, before, context.Now(), context.control);
    r := Ok(found);
  }

  lemma RequiredStep(
    rules: seq<Rule>, required: seq<RequiredRule>, pass: Pass, maxTarget: Option<nat>,
    found: map<seq<byte>, seq<Finding>>, i: nat)
    requires i < |required|
    ensures var all := RequiredRunsPlan(rules, required[i..], pass, maxTarget, found);
            all.charges != [] && all.charges == [Work] + all.charges[1..] &&
            match FindRule(rules, required[i].id)
            case None =>
              var rest := RequiredRunsPlan(rules, required[i + 1..], pass, maxTarget, found);
              all.charges[1..] == rest.charges && all.value == rest.value
            case Some(rule) =>
              var primary := PrimaryPlan(rule, pass.(inherited := true), maxTarget);
              var rest := RequiredRunsPlan(rules, required[i + 1..], pass, maxTarget,
                found[required[i].id := primary.value]);
              all.charges[1..] == [Work] + (primary.charges + rest.charges) && all.value == rest.value
  {
    hide PrimaryPlan, RequiredRunsPlan, FindRule;
    assert required[i..][0] == required[i] && required[i..][1..] == required[i + 1..];
    RequiredFirst(rules, required[i..], pass, maxTarget, found);
  }

  lemma RequiredFirst(
    rules: seq<Rule>, required: seq<RequiredRule>, pass: Pass, maxTarget: Option<nat>,
    found: map<seq<byte>, seq<Finding>>)
    requires required != []
    ensures var all := RequiredRunsPlan(rules, required, pass, maxTarget, found);
            all.charges != [] && all.charges == [Work] + all.charges[1..] &&
            match FindRule(rules, required[0].id)
            case None =>
              var rest := RequiredRunsPlan(rules, required[1..], pass, maxTarget, found);
              all.charges[1..] == rest.charges && all.value == rest.value
            case Some(rule) =>
              var primary := PrimaryPlan(rule, pass.(inherited := true), maxTarget);
              var rest := RequiredRunsPlan(rules, required[1..], pass, maxTarget,
                found[required[0].id := primary.value]);
              all.charges[1..] == [Work] + (primary.charges + rest.charges) && all.value == rest.value
  {
    hide PrimaryPlan, FindRule;
  }

  /** Looks for a required rule's findings near a primary one. */
  method FindNear(primary: Finding, findings: seq<Finding>, spec: RequiredRule, context: ScanContext)
    returns (r: Result<seq<RequiredFinding>, Termination>)
    modifies context
    ensures Follows(NearPlan(primary, findings, spec), old(context.Now()), context.control, context.Now(), r)
  {
    hide Run, Perform, WithinProximity;
    ghost var plan, before := NearPlan(primary, findings, spec), context.Now();
    var projected: seq<RequiredFinding> := [];
    assert findings[0..] == findings;
    for i := 0 to |findings|
      invariant Rest(plan.charges, before, NearPlan(primary, findings[i..], spec).charges, context.Now(),
                context.control)
      invariant plan.value == projected + NearPlan(primary, findings[i..], spec).value
    {
      NearStep(primary, findings, spec, i);
      ghost var rest := NearPlan(primary, findings[i + 1..], spec);
      ghost var near := WithinProximity(primary, findings[i], spec);
      RestOne(
        plan.charges, before, Work, if near then [Record] + rest.charges else rest.charges, context.Now(),
        context.control);
      var stop := context.ChargeWork();
      if stop.Some? {
        return Err(stop.value);
      }
      if WithinProximity(primary, findings[i], spec) {
        RestOne(plan.charges, before, Record, rest.charges, context.Now(), context.control);
        stop := context.ChargeFindingRecord();
        if stop.Some? {
          return Err(stop.value);
        }
        projected := projected + [Projected(findings[i])];
      }
    }
    assert findings[|findings|..] == [] && projected + [] == projected;
    RestDone(plan.charges, before, context.Now(), context.control);
    r := Ok(projected);
  }

  lemma NearStep(primary: Finding, findings: seq<Finding>, spec: RequiredRule, i: nat)
    requires i < |findings|
    ensures var all, rest := NearPlan(primary, findings[i..], spec), NearPlan(primary, findings[i + 1..], spec);
            var near := WithinProximity(primary, findings[i], spec);
            && all.charges == [Work] + (if near then [Record] + rest.charges else rest.charges)
            && all.value == (if near then [Projected(findings[i])] else []) + rest.value
  {
    hide WithinProximity;
    assert findings[i..][0] == findings[i] && findings[i..][1..] == findings[i + 1..];
  }

  method Project(
    primary: Finding, required: seq<RequiredRule>, found: map<seq<byte>, seq<Finding>>, context: ScanContext)
    returns (r: Result<seq<RequiredFinding>, Termination>)
    modifies context
    ensures Follows(ProjectionPlan(primary, required, found), old(context.Now()), context.control, context.Now(), r)
  {
    hide Run, Perform, NearPlan;
    ghost var plan, before := ProjectionPlan(primary, required, found), context.Now();
    var projected: seq<RequiredFinding> := [];
    assert required[0..] == required;
    for i := 0 to |required|
      invariant Rest(plan.charges, before, ProjectionPlan(primary, required[i..], found).charges, context.Now(),
                context.control)
      invariant plan.value == projected + ProjectionPlan(primary, required[i..], found).value
    {
      ProjectionStep(primary, required, found, i);
      ghost var near, rest := NearOf(primary, required[i], found), ProjectionPlan(primary, required[i + 1..], found);
      RestOne(plan.charges, before, Work, near.charges + rest.charges, context.Now(), context.control);
      var stop := context.ChargeWork();
      if stop.Some? {
        return Err(stop.value);
      }
      RestAppend(plan.charges, before, near.charges, rest.charges, context.Now(), context.control);
      if required[i].id !in found {
        RunNothing(context.Now(), context.control);
        assert projected + ([] + rest.value) == projected + rest.value;
        continue;
      }
      var more := FindNear(primary, found[required[i].id], required[i], context);
      if more.Err? {
        return Err(more.error);
      }
      assert projected + (more.value + rest.value) == projected + more.value + rest.value;
      projected := projected + more.value;
    }
    assert required[|required|..] == [] && projected + [] == projected;
    RestDone(plan.charges, before, context.Now(), context.control);
    r := Ok(projected);
  }

  lemma RunNothing(s: State, control: Control)
    ensures Run([], s, control) == Ran(s, None)
  {
  }

  lemma ProjectionStep(primary: Finding, required: seq<RequiredRule>, found: map<seq<byte>, seq<Finding>>, i: nat)
    requires i < |required|
    ensures var all, rest := ProjectionPlan(primary, required[i..], found),
            ProjectionPlan(primary, required[i + 1..], found);
            var near := NearOf(primary, required[i], found);
            all.charges == [Work] + (near.charges + rest.charges) && all.value == near.value + rest.value
  {
    hide NearPlan;
    assert required[i..][0] == required[i] && required[i..][1..] == required[i + 1..];
  }

  lemma CompletedStep(primaries: seq<Finding>, required: seq<RequiredRule>, found: map<seq<byte>, seq<Finding>>, i: nat)
    requires i < |primaries|
    ensures var all, rest := CompletedPlan(primaries[i..], required, found),
            CompletedPlan(primaries[i + 1..], required, found);
            var near := ProjectionPlan(primaries[i], required, found);
            all.charges == near.charges + rest.charges
              && all.value == Kept(primaries[i], required, near.value) + rest.value
  {
    hide ProjectionPlan, HasAll;
    assert primaries[i..][0] == primaries[i] && primaries[i..][1..] == primaries[i + 1..];
  }

  lemma CompletedNone(required: seq<RequiredRule>, found: map<seq<byte>, seq<Finding>>)
    ensures CompletedPlan([], required, found).charges == [] && CompletedPlan([], required, found).value == []
  {
  }

  method CompletePrimaries(
    primaries: seq<Finding>, required: seq<RequiredRule>, found: map<seq<byte>, seq<Finding>>, context: ScanContext)
    returns (r: Result<seq<Finding>, Termination>)
    modifies context
    ensures Follows(CompletedPlan(primaries, required, found), old(context.Now()), context.control, context.Now(), r)
  {
    CompletedNone(required, found);
    hide Run, ProjectionPlan, HasAll, CompletedPlan;
    ghost var plan, before := CompletedPlan(primaries, required, found), context.Now();
    var completed: seq<Finding> := [];
    assert primaries[0..] == primaries;
    for i := 0 to |primaries|
      invariant Rest(plan.charges, before, CompletedPlan(primaries[i..], required, found).charges, context.Now(),
                context.control)
      invariant plan.value == completed + CompletedPlan(primaries[i..], required, found).value
    {
      CompletedStep(primaries, required, found, i);
      ghost var near := ProjectionPlan(primaries[i], required, found);
      ghost var rest := CompletedPlan(primaries[i + 1..], required, found);
      RestAppend(plan.charges, before, near.charges, rest.charges, context.Now(), context.control);
      var projected := Project(primaries[i], required, found, context);
      if projected.Err? {
        return Err(projected.error);
      }
      ghost var kept := Kept(primaries[i], required, projected.value);
      assert completed + (kept + rest.value) == completed + kept + rest.value;
      if projected.value == [] || !HasAll(required, projected.value) {
        assert completed + kept == completed;
        continue;
      }
      completed := completed + [primaries[i].(required := primaries[i].required + projected.value)];
    }
    assert primaries[|primaries|..] == [] && completed + [] == completed;
    RestDone(plan.charges, before, context.Now(), context.control);
    r := Ok(completed);
  }

  lemma RestStarts(all: seq<Charge>, before: State, control: Control)
    ensures Rest(all, before, all, before, control)
  {
  }

  /** Detects a rule in one pass. With required rules, its findings count only once all of those are projected. */
  method DetectRule(rules: seq<Rule>, rule: Rule, pass: Pass, maxTarget: Option<nat>, context: ScanContext)
    returns (r: Result<seq<Finding>, Termination>)
    modifies context
    ensures Follows(RulePlan(rules, rule, pass, maxTarget), old(context.Now()), context.control, context.Now(), r)
  {
    hide Run, Perform, PrimaryPlan, RequiredRunsPlan, CompletedPlan;
    ghost var plan, before := RulePlan(rules, rule, pass, maxTarget), context.Now();
    ghost var primary := PrimaryPlan(rule, pass, maxTarget);
    ghost var projects := LooksAtRequired(rule, pass, primary.value);
    ghost var runs := RequiredRunsPlan(rules, rule.required, pass, maxTarget, map[]);
    ghost var completed := CompletedPlan(primary.value, rule.required, runs.value);
    ghost var later := if projects then runs.charges + completed.charges else [];
    assert plan.charges == [Work] + (primary.charges + later);
    RestStarts(plan.charges, before, context.control);
    RestOne(plan.charges, before, Work, primary.charges + later, context.Now(), context.control);
    var stop := context.ChargeWork();
    if stop.Some? {
      return Err(stop.value);
    }
    RestAppend(plan.charges, before, primary.charges, later, context.Now(), context.control);
    r := DetectPrimary(rule, pass, maxTarget, context);
    if r.Err? {
      return;
    }
    if rule.candidates.None? || pass.inherited || rule.required == [] || r.value == [] {
      RestDone(plan.charges, before, context.Now(), context.control);
      return;
    }
    RestAppend(plan.charges, before, runs.charges, completed.charges, context.Now(), context.control);
    var found := RunRequired(rules, rule.required, pass, maxTarget, context);
    if found.Err? {
      return Err(found.error);
    }
    assert completed.charges == completed.charges + [];
    RestAppend(plan.charges, before, completed.charges, [], context.Now(), context.control);
    r := CompletePrimaries(r.value, rule.required, found.value, context);
    if r.Ok? {
      RestDone(plan.charges, before, context.Now(), context.control);
    }
  }

  // ---------------------------------------------------------------------
  // What a composite rule reports
  // ---------------------------------------------------------------------

  /**
   * What is projected comes from a finding of a required rule close enough to the primary one, and nothing close is
   * missed.
   */
  lemma {:induction false} ProjectionIsNear(
    primary: Finding, required: seq<RequiredRule>, found: map<seq<byte>, seq<Finding>>, x: RequiredFinding)
    ensures x in ProjectionPlan(primary, required, found).value
       <==> exists spec :: spec in required && IsNear(primary, spec, found, x)
  {
    if required != [] {
      ProjectionIsNear(primary, required[1..], found, x);
      NearIs(primary, required[0], found, x);
      hide IsNear, NearOf;
      assert required == [required[0]] + required[1..];
    }
  }

  ghost predicate IsNear(
    primary: Finding, spec: RequiredRule, found: map<seq<byte>, seq<Finding>>, x: RequiredFinding)
  {
    && spec.id in found
    && exists f :: f in found[spec.id] && WithinProximity(primary, f, spec) && Projected(f) == x
  }

  lemma NearIs(primary: Finding, spec: RequiredRule, found: map<seq<byte>, seq<Finding>>, x: RequiredFinding)
    ensures x in NearOf(primary, spec, found).value <==> IsNear(primary, spec, found, x)
  {
    if spec.id in found {
      NearFiltered(primary, found[spec.id], spec, x);
    }
  }

  lemma {:induction false} NearFiltered(
    primary: Finding, findings: seq<Finding>, spec: RequiredRule, x: RequiredFinding)
    ensures x in NearPlan(primary, findings, spec).value
       <==> exists f :: f in findings && WithinProximity(primary, f, spec) && Projected(f) == x
  {
    hide WithinProximity, Projected;
    if findings != [] {
      NearFiltered(primary, findings[1..], spec, x);
      assert findings == [findings[0]] + findings[1..];
    }
  }

  /** Every finding a composite rule reports has, for each of its required rules, a finding of that rule close to it. */
  lemma {:induction false} CompositeHasAll(
    primaries: seq<Finding>, required: seq<RequiredRule>, found: map<seq<byte>, seq<Finding>>, finding: Finding,
    spec: RequiredRule)
    requires finding in CompletedPlan(primaries, required, found).value && spec in required
    requires forall p | p in primaries :: p.required == []
    ensures exists x :: x in finding.required && x.ruleId == spec.id
    ensures exists p :: p in primaries && finding == p.(required := ProjectionPlan(p, required, found).value)
  {
    hide ProjectionPlan;
    var near := ProjectionPlan(primaries[0], required, found).value;
    if finding in Kept(primaries[0], required, near) {
      assert primaries[0].required + near == near;
    } else {
      CompositeHasAll(primaries[1..], required, found, finding, spec);
    }
  }
}
