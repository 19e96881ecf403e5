/** Cancellation and budgets of a fragment scan. */
module ScanControl {
  import opened Common

  datatype BudgetKind = DecodedBytes | WorkUnits | FindingRecords

  datatype Termination =
    | Cancelled
    | BudgetExceeded(kind: BudgetKind, limit: nat, consumed: nat, requested: nat)

  datatype Budget = Budget(decodedBytes: Option<u64>, workUnits: Option<u64>, findingRecords: Option<u64>)

  datatype Usage = Usage(decodedBytes: nat, workUnits: nat, findingRecords: nat)

  /** `cancelled(n)` is what the caller's signal says when it is polled for the `n`-th time. */
  datatype Control = Control(cancelled: nat -> bool, budget: Budget)

  /** What a scan charges: one unit of work, some decoded bytes, one finding record, or nothing but a poll. */
  datatype Charge = Work | Decoded(amount: nat) | Record | Poll

  datatype State = State(usage: Usage, polls: nat)

  datatype Ran = Ran(state: State, stop: Option<Termination>)

  // ---------------------------------------------------------------------
  // Charging one counter
  // ---------------------------------------------------------------------

  /** Whether a counter may grow by `requested`: the sum must fit a `usize`, and the limit if there is one. */
  predicate Admits(consumed: nat, requested: nat, limit: Option<nat>) {
    consumed + requested < U64_BOUND && (limit.Some? ==> consumed + requested <= limit.value)
  }

  function Exceeded(consumed: nat, requested: nat, limit: Option<nat>, kind: BudgetKind): Termination {
    BudgetExceeded(kind, if limit.Some? then limit.value else U64_BOUND - 1, consumed, requested)
  }

  method ChargeCounter(consumed: nat, requested: nat, limit: Option<nat>, kind: BudgetKind)
    returns (r: Result<nat, Termination>)
    ensures r == if consumed + requested < U64_BOUND && (limit.Some? ==> consumed + requested <= limit.value) then
                   Ok(consumed + requested)
                 else Err(Exceeded(consumed, requested, limit, kind))
  {
    var next := consumed + requested;
    if next >= U64_BOUND {
      return Err(Exceeded(consumed, requested, limit, kind));
    }
    if limit.Some? && next > limit.value {
      return Err(Exceeded(consumed, requested, limit, kind));
    }
    r := Ok(next);
  }

  // ---------------------------------------------------------------------
  // Charging a scan
  // ---------------------------------------------------------------------

  function KindOf(charge: Charge): BudgetKind {
    match charge
    case Decoded(_) => DecodedBytes
    case Record => FindingRecords
    case _ => WorkUnits
  }

  function Amount(charge: Charge): nat {
    match charge
    case Poll => 0
    case Decoded(n) => n
    case _ => 1
  }

  function Consumed(usage: Usage, kind: BudgetKind): nat {
    match kind
    case DecodedBytes => usage.decodedBytes
    case WorkUnits => usage.workUnits
    case FindingRecords => usage.findingRecords
  }

  function Limit(budget: Budget, kind: BudgetKind): Option<u64> {
    match kind
    case DecodedBytes => budget.decodedBytes
    case WorkUnits => budget.workUnits
    case FindingRecords => budget.findingRecords
  }

  function Add(usage: Usage, kind: BudgetKind, amount: nat): Usage {
    match kind
    case DecodedBytes => usage.(decodedBytes := usage.decodedBytes + amount)
    case WorkUnits => usage.(workUnits := usage.workUnits + amount)
    case FindingRecords => usage.(findingRecords := usage.findingRecords + amount)
  }

  /** One charge: the signal is polled first, and then the counter must admit the amount. */
  function Perform(charge: Charge, s: State, control: Control): Ran {
    var polled := s.(polls := s.polls + 1);
    var kind, amount := KindOf(charge), Amount(charge);
    if control.cancelled(s.polls) then Ran(polled, Some(Cancelled))
    else if charge.Poll? then Ran(polled, None)
    else if Admits(Consumed(s.usage, kind), amount, Limit(control.budget, kind)) then
      Ran(polled.(usage := Add(s.usage, kind, amount)), None)
    else
      Ran(polled, Some(Exceeded(Consumed(s.usage, kind), amount, Limit(control.budget, kind), kind)))
  }

  class ScanContext {
    const control: Control
    var usage: Usage
    /** How often the signal has been polled. */
    var polls: nat

    constructor (control: Control)
      ensures this.control == control && Now() == State(Usage(0, 0, 0), 0)
    {
      this.control, usage, polls := control, Usage(0, 0, 0), 0;
    }

    function Now(): State
      reads this
    {
      State(usage, polls)
    }

    method IsCancelled() returns (cancelled: bool)
      modifies this
      ensures cancelled == control.cancelled(old(polls)) && Now() == old(Now()).(polls := old(polls) + 1)
    {
      cancelled, polls := control.cancelled(polls), polls + 1;
    }

    method CheckCancelled() returns (stop: Option<Termination>)
      modifies this
      ensures Ran(Now(), stop) == Perform(Poll, old(Now()), control)
    {
      var cancelled := IsCancelled();
      stop := if cancelled then Some(Cancelled) else None;
    }

    method ChargeWork() returns (stop: Option<Termination>)
      modifies this
      ensures Ran(Now(), stop) == Perform(Work, old(Now()), control)
    {
      stop := CheckCancelled();
      if stop.Some? {
        return;
      }
      var charged := ChargeCounter(usage.workUnits, 1, control.budget.workUnits, WorkUnits);
      if charged.Err? {
        return Some(charged.error);
      }
      usage := usage.(workUnits := charged.value);
    }

    method ChargeDecodedBytes(amount: nat) returns (stop: Option<Termination>)
      modifies this
      ensures Ran(Now(), stop) == Perform(Decoded(amount), old(Now()), control)
    {
      stop := CheckCancelled();
      if stop.Some? {
        return;
      }
      var charged := ChargeCounter(usage.decodedBytes, amount, control.budget.decodedBytes, DecodedBytes);
      if charged.Err? {
        return Some(charged.error);
      }
      usage := usage.(decodedBytes := charged.value);
    }

    method ChargeFindingRecord() returns (stop: Option<Termination>)
      modifies this
      ensures Ran(Now(), stop) == Perform(Record, old(Now()), control)
    {
      stop := CheckCancelled();
      if stop.Some? {
        return;
      }
      var charged := ChargeCounter(usage.findingRecords, 1, control.budget.findingRecords, FindingRecords);
      if charged.Err? {
        return Some(charged.error);
      }
      usage := usage.(findingRecords := charged.value);
    }
  }

  // ---------------------------------------------------------------------
  // Whole runs
  // ---------------------------------------------------------------------

  /** Charges one after the other, up to the first that is refused. */
  function Run(charges: seq<Charge>, s: State, control: Control): Ran {
    if charges == [] then Ran(s, None)
    else
      var first := Perform(charges[0], s, control);
      if first.stop.Some? then first else Run(charges[1..], first.state, control)
  }

  /** Running two lists is running the second where the first ended, unless that stopped. */
  lemma {:induction false} RunAppend(a: seq<Charge>, b: seq<Charge>, s: State, control: Control)
    ensures var first := Run(a, s, control);
            Run(a + b, s, control) == if first.stop.Some? then first else Run(b, first.state, control)
  {
    hide Perform;
    if a == [] {
      assert a + b == b;
    } else {
      assert (a + b)[1..] == a[1..] + b;
      RunAppend(a[1..], b, Perform(a[0], s, control).state, control);
    }
  }

  /** What a list of charges uses up in all. */
  function Total(charges: seq<Charge>, kind: BudgetKind): nat {
    if charges == [] then 0
    else (if KindOf(charges[0]) == kind then Amount(charges[0]) else 0) + Total(charges[1..], kind)
  }

  lemma {:induction false} TotalAppend(a: seq<Charge>, b: seq<Charge>, kind: BudgetKind)
    ensures Total(a + b, kind) == Total(a, kind) + Total(b, kind)
  {
    if a == [] {
      assert a + b == b;
    } else {
      assert (a + b)[1..] == a[1..] + b;
      TotalAppend(a[1..], b, kind);
    }
  }

  ghost predicate WithinBudget(usage: Usage, budget: Budget) {
    forall kind ::
      Consumed(usage, kind) < U64_BOUND
        && (Limit(budget, kind).Some? ==> Consumed(usage, kind) <= Limit(budget, kind).value)
  }

  /** Usage never exceeds a limit that is set, and never what the charges come to. */
  lemma {:induction false} RunWithinBudget(charges: seq<Charge>, s: State, control: Control, kind: BudgetKind)
    requires WithinBudget(s.usage, control.budget)
    ensures WithinBudget(Run(charges, s, control).state.usage, control.budget)
    ensures Consumed(s.usage, kind) <= Consumed(Run(charges, s, control).state.usage, kind)
            <= Consumed(s.usage, kind) + Total(charges, kind)
  {
    if charges != [] {
      var first := Perform(charges[0], s, control);
      PerformWithinBudget(charges[0], s, control);
      RunWithinBudget(charges[1..], first.state, control, kind);
    }
  }

  lemma PerformWithinBudget(charge: Charge, s: State, control: Control)
    requires WithinBudget(s.usage, control.budget)
    ensures WithinBudget(Perform(charge, s, control).state.usage, control.budget)
  {
    var after := Perform(charge, s, control).state.usage;
    forall kind
      ensures Consumed(after, kind) < U64_BOUND
      ensures Limit(control.budget, kind).Some? ==> Consumed(after, kind) <= Limit(control.budget, kind).value
    {
      assert Consumed(s.usage, kind) < U64_BOUND;
    }
  }

  /** The signal stays clear for the next `n` polls. */
  ghost predicate Quiet(control: Control, from: nat, n: nat) {
    forall k | from <= k < from + n :: !control.cancelled(k)
  }

  /** Every budget has room for all of the charges. */
  ghost predicate Covers(budget: Budget, usage: Usage, charges: seq<Charge>) {
    forall kind ::
      && Consumed(usage, kind) + Total(charges, kind) < U64_BOUND
      && (Limit(budget, kind).Some? ==> Consumed(usage, kind) + Total(charges, kind) <= Limit(budget, kind).value)
  }

  /** A run completes if and only if the signal stays clear at every poll and every budget covers all of its charges. */
  lemma {:induction false} RunCompletes(charges: seq<Charge>, s: State, control: Control)
    requires WithinBudget(s.usage, control.budget)
    ensures Run(charges, s, control).stop.None?
       <==> Quiet(control, s.polls, |charges|) && Covers(control.budget, s.usage, charges)
  {
    if charges == [] {
      assert forall kind :: Total(charges, kind) == 0;
    } else {
      var first := Perform(charges[0], s, control);
      PerformWithinBudget(charges[0], s, control);
      FirstCharge(charges, s, control);
      if first.stop.None? {
        RunCompletes(charges[1..], first.state, control);
      }
    }
  }

  lemma FirstCharge(charges: seq<Charge>, s: State, control: Control)
    requires charges != [] && WithinBudget(s.usage, control.budget)
    ensures var first := Perform(charges[0], s, control);
            && (first.stop.None? ==>
                 (Quiet(control, s.polls, |charges|) <==> Quiet(control, first.state.polls, |charges| - 1))
                 && (Covers(control.budget, s.usage, charges)
                    <==> Covers(control.budget, first.state.usage, charges[1..])))
            && (first.stop.Some? ==>
                 !(Quiet(control, s.polls, |charges|) && Covers(control.budget, s.usage, charges)))
  {
    var first := Perform(charges[0], s, control);
    var kind := KindOf(charges[0]);
    assert forall k ::
        Total(charges, k) == (if KindOf(charges[0]) == k then Amount(charges[0]) else 0) + Total(charges[1..], k);
    if first.stop.Some? {
      if Covers(control.budget, s.usage, charges) {
        assert Admits(Consumed(s.usage, kind), Total(charges, kind), Limit(control.budget, kind));
      }
    } else {
      assert forall k ::
          Admits(Consumed(s.usage, k), Total(charges, k), Limit(control.budget, k))
          == Admits(Consumed(first.state.usage, k), Total(charges[1..], k), Limit(control.budget, k));
    }
  }

  /** A run that completes has used exactly what its charges come to, and polled once for each. */
  lemma {:induction false} RunUses(charges: seq<Charge>, s: State, control: Control, kind: BudgetKind)
    requires Run(charges, s, control).stop.None?
    ensures Consumed(Run(charges, s, control).state.usage, kind) == Consumed(s.usage, kind) + Total(charges, kind)
    ensures Run(charges, s, control).state.polls == s.polls + |charges|
  {
    if charges != [] {
      RunUses(charges[1..], Perform(charges[0], s, control).state, control, kind);
    }
  }

  /** Why a run stopped: the last poll was answered yes, or the next amount would have gone over a limit. */
  lemma {:induction false} RunStopped(charges: seq<Charge>, s: State, control: Control)
    requires Run(charges, s, control).stop.Some?
    ensures var ran := Run(charges, s, control);
            && ran.state.polls > s.polls
            && match ran.stop.value
               case Cancelled => control.cancelled(ran.state.polls - 1)
               case BudgetExceeded(kind, limit, consumed, requested) =>
                 && consumed == Consumed(ran.state.usage, kind) && consumed + requested > limit
                 && (Limit(control.budget, kind).Some? ==> limit == Limit(control.budget, kind).value)
                 && (Limit(control.budget, kind).None? ==> limit == U64_BOUND - 1)
  {
    var first := Perform(charges[0], s, control);
    if first.stop.None? {
      RunStopped(charges[1..], first.state, control);
    }
  }
}
