/** What one rule finds in one pass and what that costs, said of the rule and the text alone. */
module RuleMeaning {
  import opened Common
  import opened RuleScan
  import opened ScanControl

  // ---------------------------------------------------------------------
  // What a rule finds
  // ---------------------------------------------------------------------

  /** The values that are there, in order. */
  function Present<T>(xs: seq<Option<T>>): seq<T> {
    if xs == [] then []
    else
      var last := xs[|xs| - 1];
      Present(xs[..|xs| - 1]) + if last.Some? then [last.value] else []
  }

  /** A rule that is looked at, in a place where it may report. */
  predicate Applies(rule: Rule, inherited: bool) {
    (rule.skipReport ==> inherited) && !rule.allowed && rule.path != Some(false)
  }

  /** The expression of a rule is run over the text. */
  predicate Searches(rule: Rule, inherited: bool, text: seq<byte>, maxTarget: Option<nat>) {
    && Applies(rule, inherited) && rule.candidates.Some?
    && (maxTarget.Some? ==> |text| <= maxTarget.value)
  }

  /** What a rule finds by itself: what its matches lead to, or the path alone when it has no expression. */
  function Primaries(
    rule: Rule, inherited: bool, text: seq<byte>, segments: seq<Segment>, maxTarget: Option<nat>): seq<Finding>
  {
    if Searches(rule, inherited, text, maxTarget) then Present(rule.candidates.value(text, segments))
    else if Applies(rule, inherited) && rule.candidates.None? && rule.path.Some? && segments == [] then
      Present([rule.pathFinding])
    else []
  }

  ghost predicate FirstNamed(rules: seq<Rule>, id: seq<byte>, i: nat) {
    i < |rules| && rules[i].id == id && forall j | 0 <= j < i :: rules[j].id != id
  }

  /** The first rule of that name. */
  ghost function RuleNamed(rules: seq<Rule>, id: seq<byte>): Option<Rule> {
    if exists i: nat :: FirstNamed(rules, id, i) then
      var i: nat :| FirstNamed(rules, id, i);
      Some(rules[i])
    else None
  }

  /** What a required rule finds, which looks at no required rules of its own. */
  ghost function Required(
    rules: seq<Rule>, id: seq<byte>, text: seq<byte>, segments: seq<Segment>, maxTarget: Option<nat>): seq<Finding>
  {
    var rule := RuleNamed(rules, id);
    if rule.Some? then Primaries(rule.value, true, text, segments, maxTarget) else []
  }

  /** As many lines and columns apart as is allowed. Nothing is near within less than none. */
  predicate Near(primary: Finding, other: Finding, spec: RequiredRule) {
    && (spec.withinLines.Some? ==>
         primary.startLine - spec.withinLines.value <= other.startLine
         <= primary.startLine + spec.withinLines.value)
    && (spec.withinColumns.Some? ==>
         primary.startColumn - spec.withinColumns.value <= other.startColumn
         <= primary.startColumn + spec.withinColumns.value)
  }

  /** What another finding adds to a primary one. */
  function NearOne(primary: Finding, other: Finding, spec: RequiredRule): seq<RequiredFinding> {
    if Near(primary, other, spec) then [Shown(other)] else []
  }

  /** What each of a required rule's findings adds. */
  function NearEach(primary: Finding, others: seq<Finding>, spec: RequiredRule): seq<seq<RequiredFinding>> {
    seq(|others|, i requires 0 <= i < |others| => NearOne(primary, others[i], spec))
  }

  /** What each of the required rules adds. */
  function NearbyEach(
    primary: Finding, required: seq<RequiredRule>, found: seq<byte> -> seq<Finding>): seq<seq<RequiredFinding>>
  {
    seq(|required|, i requires 0 <= i < |required| =>
      Concat(NearEach(primary, found(required[i].id), required[i])))
  }

  /** What is found near a primary finding: by the required rules in order, each in the order of its findings. */
  function Nearby(
    primary: Finding, required: seq<RequiredRule>, found: seq<byte> -> seq<Finding>): seq<RequiredFinding>
  {
    Concat(NearbyEach(primary, required, found))
  }

  /** A required rule has this finding near the primary one. */
  ghost predicate IsNear(
    primary: Finding, required: seq<RequiredRule>, found: seq<byte> -> seq<Finding>, spec: RequiredRule, f: Finding)
  {
    spec in required && f in found(spec.id) && Near(primary, f, spec)
  }

  /** Every required rule has a finding near the primary one. */
  ghost predicate Complete(primary: Finding, required: seq<RequiredRule>, found: seq<byte> -> seq<Finding>) {
    forall r | r in required ::
      exists spec, f :: IsNear(primary, required, found, spec, f) && f.ruleId == r.id
  }

  function Shown(f: Finding): RequiredFinding {
    RequiredFinding(f.ruleId, f.startLine, f.startColumn, f.secret)
  }

  /** A primary finding that is complete, with what was found near it. */
  ghost function Composite(
    primary: Finding, required: seq<RequiredRule>, found: seq<byte> -> seq<Finding>): seq<Finding>
  {
    if Complete(primary, required, found) then
      [primary.(required := primary.required + Nearby(primary, required, found))]
    else []
  }

  ghost function CompositeEach(
    primaries: seq<Finding>, required: seq<RequiredRule>, found: seq<byte> -> seq<Finding>): seq<seq<Finding>>
  {
    seq(|primaries|, i requires 0 <= i < |primaries| => Composite(primaries[i], required, found))
  }

  ghost predicate IsComposite(rule: Rule, inherited: bool) {
    rule.candidates.Some? && !inherited && rule.required != []
  }

  /** What a rule finds in a text. */
  ghost function RuleFindings(
    rules: seq<Rule>, rule: Rule, inherited: bool, text: seq<byte>, segments: seq<Segment>, maxTarget: Option<nat>)
    : seq<Finding>
  {
    var primaries := Primaries(rule, inherited, text, segments, maxTarget);
    if IsComposite(rule, inherited) then
      Concat(CompositeEach(primaries, rule.required, id => Required(rules, id, text, segments, maxTarget)))
    else primaries
  }

  // ---------------------------------------------------------------------
  // What a rule costs
  // ---------------------------------------------------------------------

  /** A unit of work for every match. */
  function Matches(
    rule: Rule, inherited: bool, text: seq<byte>, segments: seq<Segment>, maxTarget: Option<nat>): nat
  {
    if Searches(rule, inherited, text, maxTarget) then |rule.candidates.value(text, segments)| else 0
  }

  /** What running one required rule costs: looking it up, and its own work if there is such a rule. */
  ghost function RunWork(
    rules: seq<Rule>, id: seq<byte>, text: seq<byte>, segments: seq<Segment>, maxTarget: Option<nat>): nat
  {
    var rule := RuleNamed(rules, id);
    1 + if rule.Some? then 1 + Matches(rule.value, true, text, segments, maxTarget) else 0
  }

  ghost function RunWorks(
    rules: seq<Rule>, required: seq<RequiredRule>, text: seq<byte>, segments: seq<Segment>, maxTarget: Option<nat>)
    : seq<nat>
  {
    seq(|required|, i requires 0 <= i < |required| => RunWork(rules, required[i].id, text, segments, maxTarget))
  }

  /** How many findings each required rule has. */
  ghost function Founds(
    rules: seq<Rule>, required: seq<RequiredRule>, text: seq<byte>, segments: seq<Segment>, maxTarget: Option<nat>)
    : seq<nat>
  {
    seq(|required|, i requires 0 <= i < |required| => |Required(rules, required[i].id, text, segments, maxTarget)|)
  }

  /** A unit of work for every required rule and for every finding it has. */
  ghost function LookWorks(
    rules: seq<Rule>, required: seq<RequiredRule>, text: seq<byte>, segments: seq<Segment>, maxTarget: Option<nat>)
    : seq<nat>
  {
    seq(|required|, i requires 0 <= i < |required| =>
      1 + |Required(rules, required[i].id, text, segments, maxTarget)|)
  }

  /** How many findings are near each primary one. */
  function NearCounts(
    primaries: seq<Finding>, required: seq<RequiredRule>, found: seq<byte> -> seq<Finding>): seq<nat>
  {
    seq(|primaries|, i requires 0 <= i < |primaries| => |Nearby(primaries[i], required, found)|)
  }

  /** `x` each time, `n` times. */
  function Times(n: nat, x: nat): nat { if n == 0 then 0 else x + Times(n - 1, x) }

  /** A unit of work for a rule, those of its matches, and for a composite rule those of its required rules. */
  ghost function RuleWork(
    rules: seq<Rule>, rule: Rule, inherited: bool, text: seq<byte>, segments: seq<Segment>, maxTarget: Option<nat>)
    : nat
  {
    var primaries := Primaries(rule, inherited, text, segments, maxTarget);
    1 + Matches(rule, inherited, text, segments, maxTarget)
    + if IsComposite(rule, inherited) && primaries != [] then
        SumOf(RunWorks(rules, rule.required, text, segments, maxTarget))
        + Times(|primaries|, SumOf(LookWorks(rules, rule.required, text, segments, maxTarget)))
      else 0
  }

  /** A record for every finding of the rule, of its required rules, and near one of its findings. */
  ghost function RuleRecords(
    rules: seq<Rule>, rule: Rule, inherited: bool, text: seq<byte>, segments: seq<Segment>, maxTarget: Option<nat>)
    : nat
  {
    var primaries := Primaries(rule, inherited, text, segments, maxTarget);
    |primaries|
    + if IsComposite(rule, inherited) && primaries != [] then
        SumOf(Founds(rules, rule.required, text, segments, maxTarget))
        + SumOf(NearCounts(primaries, rule.required, id => Required(rules, id, text, segments, maxTarget)))
      else 0
  }

  // ---------------------------------------------------------------------
  // The plan of a rule is what it finds
  // ---------------------------------------------------------------------

  /** Nothing is charged but units of work and records. */
  ghost predicate Plain(charges: seq<Charge>) {
    forall c | c in charges :: c == Work || c == Record
  }

  lemma PresentFirst<T>(xs: seq<Option<T>>)
    requires xs != []
    ensures Present(xs) == (if xs[0].Some? then [xs[0].value] else []) + Present(xs[1..])
  {
    if |xs| == 1 {
      assert xs[..0] == [] && xs[1..] == [];
    } else {
      PresentFirst(xs[..|xs| - 1]);
      assert xs[..|xs| - 1][1..] == xs[1..][..|xs| - 2];
    }
  }

  lemma {:induction false} CandidatesMean(candidates: seq<Option<Finding>>)
    ensures CandidatesPlan(candidates).value == Present(candidates)
    ensures Total(CandidatesPlan(candidates).charges, WorkUnits) == |candidates|
    ensures Total(CandidatesPlan(candidates).charges, FindingRecords) == |Present(candidates)|
    ensures Plain(CandidatesPlan(candidates).charges)
  {
    if candidates != [] {
      CandidatesMean(candidates[1..]);
      PresentFirst(candidates);
      var rest := CandidatesPlan(candidates[1..]).charges;
      assert ([Work] + rest)[1..] == rest && ([Work, Record] + rest)[1..] == [Record] + rest;
      assert ([Record] + rest)[1..] == rest;
    }
  }

  /** A rule by itself. */
  lemma PrimaryMeans(rule: Rule, pass: Pass, maxTarget: Option<nat>)
    ensures var plan := PrimaryPlan(rule, pass, maxTarget);
            && plan.value == Primaries(rule, pass.inherited, pass.raw, pass.segments, maxTarget)
            && Total(plan.charges, WorkUnits) == Matches(rule, pass.inherited, pass.raw, pass.segments, maxTarget)
            && Total(plan.charges, FindingRecords) == |plan.value| && Plain(plan.charges)
  {
    hide CandidatesPlan, Present;
    if rule.candidates.Some? {
      CandidatesMean(rule.candidates.value(pass.raw, pass.segments));
    }
    PresentFirst([rule.pathFinding]);
    assert [rule.pathFinding][1..] == [] && [Record][1..] == [];
    PresentNone<Finding>();
  }

  lemma PresentNone<T>()
    ensures Present<T>([]) == []
  {
  }

  /** The first rule of a name is the one that is looked up. */
  lemma {:induction false} NamedFound(rules: seq<Rule>, id: seq<byte>)
    ensures FindRule(rules, id) == RuleNamed(rules, id)
  {
    FoundFirst(rules, id);
    if FindRule(rules, id).Some? {
      var i: nat :| FirstNamed(rules, id, i) && FindRule(rules, id) == Some(rules[i]);
      assert forall j: nat | FirstNamed(rules, id, j) :: i == j;
    }
  }

  lemma {:induction false} FoundFirst(rules: seq<Rule>, id: seq<byte>)
    ensures FindRule(rules, id).None? ==> forall i: nat :: !FirstNamed(rules, id, i)
    ensures FindRule(rules, id).Some? ==>
              exists i: nat :: FirstNamed(rules, id, i) && FindRule(rules, id) == Some(rules[i])
  {
    if rules != [] {
      if rules[0].id == id {
        assert FirstNamed(rules, id, 0);
      } else {
        FoundFirst(rules[1..], id);
        forall i: nat | FirstNamed(rules, id, i)
          ensures i > 0 && FirstNamed(rules[1..], id, i - 1)
        {
        }
        if FindRule(rules[1..], id).Some? {
          var i: nat :| FirstNamed(rules[1..], id, i) && FindRule(rules[1..], id) == Some(rules[1..][i]);
          assert forall j | 1 <= j < i + 1 :: rules[j] == rules[1..][j - 1];
          assert FirstNamed(rules, id, i + 1);
        }
      }
    }
  }

  /** What has been found by required rules so far is what they find. */
  ghost predicate Faithful(
    rules: seq<Rule>, pass: Pass, maxTarget: Option<nat>, found: map<seq<byte>, seq<Finding>>)
  {
    forall id | id in found :: found[id] == Required(rules, id, pass.raw, pass.segments, maxTarget)
  }

  lemma {:induction false} RequiredMean(
    rules: seq<Rule>, required: seq<RequiredRule>, pass: Pass, maxTarget: Option<nat>,
    found: map<seq<byte>, seq<Finding>>)
    requires Faithful(rules, pass, maxTarget, found)
    ensures var plan := RequiredRunsPlan(rules, required, pass, maxTarget, found);
            && Faithful(rules, pass, maxTarget, plan.value) && found.Keys <= plan.value.Keys
            && (forall spec | spec in required :: spec.id in plan.value || RuleNamed(rules, spec.id).None?)
            && Total(plan.charges, WorkUnits) == SumOf(RunWorks(rules, required, pass.raw, pass.segments, maxTarget))
            && Total(plan.charges, FindingRecords)
               == SumOf(Founds(rules, required, pass.raw, pass.segments, maxTarget))
            && Plain(plan.charges)
    decreases |required|
  {
    hide PrimaryPlan, Primaries, Matches, RuleNamed, FindRule, Total, SumOf;
    TotalNone();
    NothingAdded();
    if required == [] {
      assert RunWorks(rules, required, pass.raw, pass.segments, maxTarget) == [];
      assert Founds(rules, required, pass.raw, pass.segments, maxTarget) == [];
    } else {
      var id, text, segments := required[0].id, pass.raw, pass.segments;
      NamedFound(rules, id);
      var works, counts := RunWorks(rules, required, text, segments, maxTarget),
        Founds(rules, required, text, segments, maxTarget);
      SumOfFirst(works);
      SumOfFirst(counts);
      assert works[1..] == RunWorks(rules, required[1..], text, segments, maxTarget);
      assert counts[1..] == Founds(rules, required[1..], text, segments, maxTarget);
      assert required == [required[0]] + required[1..];
      var rule := FindRule(rules, id);
      if rule.None? {
        RequiredMean(rules, required[1..], pass, maxTarget, found);
        TotalWork(1, RequiredRunsPlan(rules, required[1..], pass, maxTarget, found).charges);
      } else {
        var run := PrimaryPlan(rule.value, pass.(inherited := true), maxTarget);
        PrimaryMeans(rule.value, pass.(inherited := true), maxTarget);
        RequiredMean(rules, required[1..], pass, maxTarget, found[id := run.value]);
        var rest := RequiredRunsPlan(rules, required[1..], pass, maxTarget, found[id := run.value]);
        assert [Work, Work] + run.charges + rest.charges == [Work, Work] + (run.charges + rest.charges);
        TotalWork(2, run.charges + rest.charges);
        TotalsAppend(run.charges, rest.charges);
      }
    }
  }

  lemma TotalNone()
    ensures forall kind :: Total([], kind) == 0
  {
  }

  lemma TotalsAppend(a: seq<Charge>, b: seq<Charge>)
    ensures forall kind :: Total(a + b, kind) == Total(a, kind) + Total(b, kind)
  {
    forall kind
      ensures Total(a + b, kind) == Total(a, kind) + Total(b, kind)
    {
      TotalAppend(a, b, kind);
    }
  }

  lemma TotalCharge(charge: Charge, rest: seq<Charge>)
    requires charge == Work || charge == Record
    ensures Total([charge] + rest, WorkUnits) == (if charge == Work then 1 else 0) + Total(rest, WorkUnits)
    ensures Total([charge] + rest, FindingRecords) == (if charge == Work then 0 else 1) + Total(rest, FindingRecords)
    ensures Plain(rest) ==> Plain([charge] + rest)
  {
    assert ([charge] + rest)[1..] == rest;
  }

  /** Units of work in front of other charges. */
  lemma TotalWork(n: nat, rest: seq<Charge>)
    requires n <= 2
    ensures var all := seq(n, _ => Work) + rest;
            && (n == 1 ==> all == [Work] + rest) && (n == 2 ==> all == [Work, Work] + rest)
            && Total(all, WorkUnits) == n + Total(rest, WorkUnits)
            && Total(all, FindingRecords) == Total(rest, FindingRecords)
            && (Plain(rest) ==> Plain(all))
  {
    hide Total, Plain;
    var all := seq(n, _ => Work) + rest;
    if n == 0 {
      assert all == rest;
    } else {
      TotalWork(n - 1, rest);
      assert all == [Work] + (seq(n - 1, _ => Work) + rest);
      TotalCharge(Work, seq(n - 1, _ => Work) + rest);
    }
  }

  lemma NearIsWithin(primary: Finding, other: Finding, spec: RequiredRule)
    ensures Near(primary, other, spec) <==> WithinProximity(primary, other, spec)
  {
  }

  lemma NearFirst(primary: Finding, others: seq<Finding>, spec: RequiredRule)
    requires others != []
    ensures var plan, rest := NearPlan(primary, others, spec), NearPlan(primary, others[1..], spec);
            && plan.value == NearOne(primary, others[0], spec) + rest.value
            && plan.charges == [Work] + if Near(primary, others[0], spec) then [Record] + rest.charges else rest.charges
  {
    hide Near, WithinProximity;
    NearIsWithin(primary, others[0], spec);
  }

  lemma {:induction false} NearMean(primary: Finding, others: seq<Finding>, spec: RequiredRule)
    ensures var plan := NearPlan(primary, others, spec);
            && plan.value == Concat(NearEach(primary, others, spec))
            && Total(plan.charges, WorkUnits) == |others|
            && Total(plan.charges, FindingRecords) == |plan.value| && Plain(plan.charges)
  {
    if others != [] {
      NearMean(primary, others[1..], spec);
      NearFirst(primary, others, spec);
      ConcatFirst(NearEach(primary, others, spec));
      assert NearEach(primary, others, spec)[1..] == NearEach(primary, others[1..], spec);
      assert NearEach(primary, others, spec)[0] == NearOne(primary, others[0], spec);
      var rest := NearPlan(primary, others[1..], spec).charges;
      hide Near, NearPlan, NearEach, Total, Plain, Concat;
      if Near(primary, others[0], spec) {
        TotalCharge(Record, rest);
        TotalCharge(Work, [Record] + rest);
      } else {
        TotalCharge(Work, rest);
      }
    }
  }

  /** Every required rule that exists has been run. */
  ghost predicate AllRun(
    rules: seq<Rule>, required: seq<RequiredRule>, pass: Pass, maxTarget: Option<nat>,
    found: map<seq<byte>, seq<Finding>>)
  {
    && Faithful(rules, pass, maxTarget, found)
    && forall spec | spec in required :: spec.id in found || RuleNamed(rules, spec.id).None?
  }

  lemma NothingAdded()
    ensures SumOf([]) == 0 && Concat<RequiredFinding>([]) == []
  {
  }

  lemma NearOfMeans(
    rules: seq<Rule>, primary: Finding, required: seq<RequiredRule>, spec: RequiredRule, pass: Pass,
    maxTarget: Option<nat>, found: map<seq<byte>, seq<Finding>>)
    requires AllRun(rules, required, pass, maxTarget, found) && spec in required
    ensures var others := Required(rules, spec.id, pass.raw, pass.segments, maxTarget);
            var plan := NearOf(primary, spec, found);
            && plan.value == Concat(NearEach(primary, others, spec))
            && Total(plan.charges, WorkUnits) == |others|
            && Total(plan.charges, FindingRecords) == |plan.value| && Plain(plan.charges)
  {
    hide NearPlan, RuleNamed, Primaries;
    TotalNone();
    if spec.id in found {
      NearMean(primary, found[spec.id], spec);
    }
  }

  lemma {:induction false} ProjectionMeans(
    rules: seq<Rule>, primary: Finding, required: seq<RequiredRule>, pass: Pass, maxTarget: Option<nat>,
    found: map<seq<byte>, seq<Finding>>, finds: seq<byte> -> seq<Finding>)
    requires AllRun(rules, required, pass, maxTarget, found)
    requires forall id :: finds(id) == Required(rules, id, pass.raw, pass.segments, maxTarget)
    ensures var plan := ProjectionPlan(primary, required, found);
            && plan.value == Nearby(primary, required, finds)
            && Total(plan.charges, WorkUnits) == SumOf(LookWorks(rules, required, pass.raw, pass.segments, maxTarget))
            && Total(plan.charges, FindingRecords) == |plan.value| && Plain(plan.charges)
  {
    hide NearOf, NearEach, RuleNamed, Required, Total, SumOf, Concat;
    TotalNone();
    NothingAdded();
    if required != [] {
      var works := LookWorks(rules, required, pass.raw, pass.segments, maxTarget);
      var rest := ProjectionPlan(primary, required[1..], found);
      var near := NearOf(primary, required[0], found);
      NearOfMeans(rules, primary, required, required[0], pass, maxTarget, found);
      assert forall spec | spec in required[1..] :: spec in required;
      ProjectionMeans(rules, primary, required[1..], pass, maxTarget, found, finds);
      ConcatFirst(NearbyEach(primary, required, finds));
      assert NearbyEach(primary, required, finds)[1..] == NearbyEach(primary, required[1..], finds);
      SumOfFirst(works);
      assert works[1..] == LookWorks(rules, required[1..], pass.raw, pass.segments, maxTarget);
      assert [Work] + near.charges + rest.charges == [Work] + (near.charges + rest.charges);
      TotalWork(1, near.charges + rest.charges);
      TotalsAppend(near.charges, rest.charges);
    }
  }

  /** What is found near a primary finding are the near findings of the required rules. */
  lemma {:induction false} NearbyHas(
    primary: Finding, required: seq<RequiredRule>, found: seq<byte> -> seq<Finding>, x: RequiredFinding)
    ensures x in Nearby(primary, required, found) <==>
            exists spec, f :: IsNear(primary, required, found, spec, f) && x == Shown(f)
  {
    hide Near, Shown, NearEach;
    if required != [] {
      var n := |required| - 1;
      var spec := required[n];
      NearbyHas(primary, required[..n], found, x);
      assert NearbyEach(primary, required, found)[..n] == NearbyEach(primary, required[..n], found);
      EachHas(primary, found(spec.id), spec, x);
      assert required == required[..n] + [spec];
      forall s, f
        ensures IsNear(primary, required, found, s, f)
           <==> IsNear(primary, required[..n], found, s, f)
                || (s == spec && f in found(spec.id) && Near(primary, f, spec))
      {
      }
      if f :| f in found(spec.id) && Near(primary, f, spec) && x == Shown(f) {
        assert IsNear(primary, required, found, spec, f);
      }
    }
  }

  lemma {:induction false} EachHas(primary: Finding, others: seq<Finding>, spec: RequiredRule, x: RequiredFinding)
    ensures x in Concat(NearEach(primary, others, spec)) <==>
            exists f :: f in others && Near(primary, f, spec) && x == Shown(f)
  {
    hide Near, Shown;
    if others != [] {
      var n := |others| - 1;
      EachHas(primary, others[..n], spec, x);
      assert NearEach(primary, others, spec)[..n] == NearEach(primary, others[..n], spec);
      assert others == others[..n] + [others[n]];
    }
  }

  lemma HasNearOf(
    primary: Finding, required: seq<RequiredRule>, found: seq<byte> -> seq<Finding>, id: seq<byte>)
    ensures (exists x :: x in Nearby(primary, required, found) && x.ruleId == id)
       <==> exists spec, f :: IsNear(primary, required, found, spec, f) && f.ruleId == id
  {
    hide IsNear, Nearby;
    var near := Nearby(primary, required, found);
    if x :| x in near && x.ruleId == id {
      NearbyHas(primary, required, found, x);
    }
    if spec, f :| IsNear(primary, required, found, spec, f) && f.ruleId == id {
      NearbyHas(primary, required, found, Shown(f));
      assert Shown(f) in near;
    }
  }

  lemma CompleteIs(primary: Finding, required: seq<RequiredRule>, found: seq<byte> -> seq<Finding>)
    requires required != []
    ensures Complete(primary, required, found) <==> Completes(required, Nearby(primary, required, found))
  {
    hide IsNear, Nearby;
    forall r | r in required
      ensures (exists x :: x in Nearby(primary, required, found) && x.ruleId == r.id)
         <==> exists spec, f :: IsNear(primary, required, found, spec, f) && f.ruleId == r.id
    {
      HasNearOf(primary, required, found, r.id);
    }
    assert required[0] in required;
  }

  /** Keeping the primary findings that are completed. */
  lemma {:induction false} CompletedMeans(
    rules: seq<Rule>, primaries: seq<Finding>, required: seq<RequiredRule>, pass: Pass, maxTarget: Option<nat>,
    found: map<seq<byte>, seq<Finding>>, finds: seq<byte> -> seq<Finding>)
    requires AllRun(rules, required, pass, maxTarget, found) && required != []
    requires forall id :: finds(id) == Required(rules, id, pass.raw, pass.segments, maxTarget)
    ensures var plan := CompletedPlan(primaries, required, found);
            && plan.value == Concat(CompositeEach(primaries, required, finds))
            && Total(plan.charges, WorkUnits)
               == Times(|primaries|, SumOf(LookWorks(rules, required, pass.raw, pass.segments, maxTarget)))
            && Total(plan.charges, FindingRecords) == SumOf(NearCounts(primaries, required, finds))
            && Plain(plan.charges)
  {
    hide AllRun, ProjectionPlan, Nearby, Required, Complete, Completes, SumOf, Concat, LookWorks, Total;
    TotalNone();
    NothingKept();
    if primaries == [] {
      assert NearCounts(primaries, required, finds) == [] && CompositeEach(primaries, required, finds) == [];
    } else {
      var rest := CompletedPlan(primaries[1..], required, found);
      var near := ProjectionPlan(primaries[0], required, found);
      ProjectionMeans(rules, primaries[0], required, pass, maxTarget, found, finds);
      CompleteIs(primaries[0], required, finds);
      CompletedMeans(rules, primaries[1..], required, pass, maxTarget, found, finds);
      ConcatFirst(CompositeEach(primaries, required, finds));
      assert CompositeEach(primaries, required, finds)[1..] == CompositeEach(primaries[1..], required, finds);
      SumOfFirst(NearCounts(primaries, required, finds));
      assert NearCounts(primaries, required, finds)[1..] == NearCounts(primaries[1..], required, finds);
      TotalsAppend(near.charges, rest.charges);
    }
  }

  lemma NothingKept()
    ensures SumOf([]) == 0 && Concat<Finding>([]) == []
  {
  }

  /** What a rule's plan comes to is what the rule finds, and what it charges is what the rule costs. */
  lemma RuleMeans(rules: seq<Rule>, rule: Rule, pass: Pass, maxTarget: Option<nat>)
    ensures var plan := RulePlan(rules, rule, pass, maxTarget);
            && plan.value == RuleFindings(rules, rule, pass.inherited, pass.raw, pass.segments, maxTarget)
            && Total(plan.charges, WorkUnits)
               == RuleWork(rules, rule, pass.inherited, pass.raw, pass.segments, maxTarget)
            && Total(plan.charges, FindingRecords)
               == RuleRecords(rules, rule, pass.inherited, pass.raw, pass.segments, maxTarget)
            && Plain(plan.charges)
  {
    hide PrimaryPlan, RequiredRunsPlan, CompletedPlan, Primaries, Matches, Required, Total, SumOf, Concat;
    hide RunWorks, LookWorks, Founds, NearCounts;
    var text, segments, required := pass.raw, pass.segments, rule.required;
    var primary := PrimaryPlan(rule, pass, maxTarget);
    PrimaryMeans(rule, pass, maxTarget);
    NothingKept();
    if IsComposite(rule, pass.inherited) && primary.value != [] {
      var runs := RequiredRunsPlan(rules, required, pass, maxTarget, map[]);
      RequiredMean(rules, required, pass, maxTarget, map[]);
      var finds := id => Required(rules, id, text, segments, maxTarget);
      CompletedMeans(rules, primary.value, required, pass, maxTarget, runs.value, finds);
      var completed := CompletedPlan(primary.value, required, runs.value);
      var rest := primary.charges + runs.charges + completed.charges;
      assert [Work] + primary.charges + runs.charges + completed.charges == [Work] + rest;
      TotalWork(1, rest);
      TotalsAppend(primary.charges + runs.charges, completed.charges);
      TotalsAppend(primary.charges, runs.charges);
    } else {
      TotalWork(1, primary.charges);
      NothingComposite(required, id => Required(rules, id, text, segments, maxTarget));
    }
  }

  lemma NothingComposite(required: seq<RequiredRule>, found: seq<byte> -> seq<Finding>)
    ensures Concat(CompositeEach([], required, found)) == []
  {
  }
}
