/** What the scan of a fragment finds and what that costs, said of its texts and rules alone. */
module ScanMeaning {
  import opened Common
  import opened FindingFilter
  import opened RuleMeaning
  import opened RuleScan

  /** One attempt to decode a pass: how many units of work it charges, the bytes it gives and where they come from. */
  datatype Decoding = Decoding(work: nat, output: seq<byte>, segments: seq<Segment>)

  /**
   * A fragment and a configuration, as the scan sees them: `allowed` is the verdict of the global allowlists,
   * `keywordHits` lists the keywords in a text, with repetitions, and `decode` gives what a text decodes to in a
   * pass.
   */
  datatype Job = Job(
    content: seq<byte>, inherited: bool, allowed: bool, rules: seq<Rule>, keywordHits: seq<byte> -> seq<nat>,
    decode: (seq<byte>, seq<Segment>, nat) -> Decoding, maxTarget: Option<nat>, maxDepth: nat, filter: Filter)

  /**
   * The text of a pass: the content at first, and then what the text of the pass before decodes to, with the places it
   * comes from.
   */
  function TextAt(job: Job, d: nat): Pass {
    if d == 0 then Pass(job.content, [], job.inherited)
    else
      var before := TextAt(job, d - 1);
      var decoding := job.decode(before.raw, before.segments, d - 1);
      Pass(decoding.output, decoding.segments, job.inherited)
  }

  /** There are `n` passes: as many as decode to something, and at most one more than the depth allows. */
  ghost predicate Passes(job: Job, n: nat) {
    && 1 <= n <= job.maxDepth + 1
    && (forall d | 1 <= d < n :: TextAt(job, d).segments != [])
    && (n <= job.maxDepth ==> TextAt(job, n).segments == [])
  }

  lemma {:induction false} PassesFrom(job: Job, d: nat) returns (n: nat)
    requires d <= job.maxDepth && forall k | 1 <= k <= d :: TextAt(job, k).segments != []
    ensures Passes(job, n)
    decreases job.maxDepth - d
  {
    if d < job.maxDepth && TextAt(job, d + 1).segments != [] {
      n := PassesFrom(job, d + 1);
    } else {
      n := d + 1;
    }
  }

  /** There is exactly one such number. */
  lemma PassesOnce(job: Job) returns (n: nat)
    ensures forall m: nat :: Passes(job, m) <==> m == n
  {
    hide TextAt;
    n := PassesFrom(job, 0);
  }

  /** A rule is looked at when it has no keywords, or one of them was hit in the text. */
  predicate Counts(job: Job, rule: Rule, text: seq<byte>) {
    rule.keywords == [] || exists hit | hit in job.keywordHits(text) :: Some(hit) in rule.keywords
  }

  /** What a rule finds in the text of a pass. */
  ghost function FoundBy(job: Job, pass: Pass, rule: Rule): seq<Finding> {
    if Counts(job, rule, pass.raw) then
      RuleFindings(job.rules, rule, pass.inherited, pass.raw, pass.segments, job.maxTarget)
    else []
  }

  ghost function FoundByEach(job: Job, pass: Pass, rules: seq<Rule>): seq<seq<Finding>> {
    seq(|rules|, i requires 0 <= i < |rules| => FoundBy(job, pass, rules[i]))
  }

  ghost function FoundIn(job: Job, d: nat): seq<Finding> { Concat(FoundByEach(job, TextAt(job, d), job.rules)) }

  ghost function FoundInEach(job: Job, from: nat, n: nat): seq<seq<Finding>>
    requires from <= n
  {
    seq(n - from, d requires 0 <= d < n - from => FoundIn(job, from + d))
  }

  /** What `n` passes find: in the order of the passes, and in each in the order of the rules. */
  ghost function Found(job: Job, n: nat): seq<Finding> {
    if job.allowed then [] else Concat(FoundInEach(job, 0, n))
  }

  /** What a scan finds when nothing stops it. */
  ghost predicate ScanFinds(job: Job, findings: seq<Finding>) {
    exists n: nat :: Passes(job, n) && findings == Found(job, n)
  }

  // ---------------------------------------------------------------------
  // What a scan costs
  // ---------------------------------------------------------------------

  ghost function WorkOf(job: Job, pass: Pass, rule: Rule): nat {
    if Counts(job, rule, pass.raw) then
      RuleWork(job.rules, rule, pass.inherited, pass.raw, pass.segments, job.maxTarget)
    else 0
  }

  ghost function RecordsOf(job: Job, pass: Pass, rule: Rule): nat {
    if Counts(job, rule, pass.raw) then
      RuleRecords(job.rules, rule, pass.inherited, pass.raw, pass.segments, job.maxTarget)
    else 0
  }

  ghost function WorkOfEach(job: Job, pass: Pass, rules: seq<Rule>): seq<nat> {
    seq(|rules|, i requires 0 <= i < |rules| => WorkOf(job, pass, rules[i]))
  }

  ghost function RecordsOfEach(job: Job, pass: Pass, rules: seq<Rule>): seq<nat> {
    seq(|rules|, i requires 0 <= i < |rules| => RecordsOf(job, pass, rules[i]))
  }

  /** A pass takes a unit of work, one for every keyword hit, and those of the rules. */
  ghost function PassWork(job: Job, d: nat): nat {
    var pass := TextAt(job, d);
    1 + |job.keywordHits(pass.raw)| + SumOf(WorkOfEach(job, pass, job.rules))
  }

  /** Trying to decode a text takes a unit of work and those of the decoder, unless the depth is reached. */
  function DecodeWork(job: Job, d: nat): nat {
    var pass := TextAt(job, d);
    if d < job.maxDepth then 1 + job.decode(pass.raw, pass.segments, d).work else 0
  }

  ghost function StepWork(job: Job, d: nat): nat { PassWork(job, d) + DecodeWork(job, d) }

  ghost function PassRecords(job: Job, d: nat): nat { SumOf(RecordsOfEach(job, TextAt(job, d), job.rules)) }

  ghost function WorkInEach(job: Job, from: nat, n: nat): seq<nat>
    requires from <= n
  {
    seq<nat>(n - from, d requires 0 <= d < n - from => StepWork(job, from + d))
  }

  ghost function RecordsInEach(job: Job, from: nat, n: nat): seq<nat>
    requires from <= n
  {
    seq<nat>(n - from, d requires 0 <= d < n - from => PassRecords(job, from + d))
  }

  /** The lengths of the texts behind the one at `from`. */
  ghost function DecodedInEach(job: Job, from: nat, n: nat): seq<nat>
    requires from < n
  {
    seq<nat>(n - from - 1, d requires 0 <= d < n - from - 1 => |TextAt(job, from + d + 1).raw|)
  }

  /** Work units, finding records and decoded bytes of `n` passes. */
  ghost function Cost(job: Job, n: nat): (nat, nat, nat)
    requires n >= 1
  {
    if job.allowed then (0, 0, 0)
    else (SumOf(WorkInEach(job, 0, n)), SumOf(RecordsInEach(job, 0, n)), SumOf(DecodedInEach(job, 0, n)))
  }

  /** How often the signal is looked at without a charge: at the start, and behind every attempt to decode. */
  function Attempts(job: Job, from: nat, n: nat): nat
    requires from < n
  {
    if n <= job.maxDepth then n - from else n - from - 1
  }
}
