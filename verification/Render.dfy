/** Rendering report templates under limits on actions, output and variables. */
module Rendering {
  import opened Common
  import opened Templates

  type Variables = seq<(Name, Value)>

  // ---------------------------------------------------------------------
  // Expressions
  // ---------------------------------------------------------------------

  /** The innermost variable of a name. */
  function Lookup(variables: Variables, name: Name): Option<Value> {
    if variables == [] then None
    else
      var last := |variables| - 1;
      if variables[last].0 == name then Some(variables[last].1) else Lookup(variables[..last], name)
  }

  function Evaluate(w: World, expr: Expr, dot: Value, variables: Variables): Result<Value, Error> {
    match expr
    case Dot => Ok(dot)
    case Field(field) => if dot.One? then Ok(w.field(dot.finding, field)) else Err(TypeMismatch)
    case Variable(name) =>
      var value := Lookup(variables, name);
      if value.Some? then Ok(value.value) else Err(MissingValue)
    case Literal(integer) => Ok(Integer(integer))
    case Text(bytes) => Ok(Bytes(bytes))
    case Call(helper, arguments) =>
      var values := EvaluateAll(w, arguments, dot, variables);
      if values.Err? then Err(values.error) else Helped(w, helper, values.value)
  }

  function EvaluateAll(w: World, arguments: seq<Expr>, dot: Value, variables: Variables): Result<seq<Value>, Error> {
    if arguments == [] then Ok([])
    else
      var first := Evaluate(w, arguments[0], dot, variables);
      if first.Err? then Err(first.error)
      else
        var rest := EvaluateAll(w, arguments[1..], dot, variables);
        if rest.Err? then rest else Ok([first.value] + rest.value)
  }

  predicate Truthy(value: Value) {
    match value
    case Findings(findings) => findings != []
    case One(_) => true
    case Tags(tags) => tags != []
    case Bytes(bytes) => bytes != []
    case Size(size) => size != 0
    case Integer(integer) => integer != 0
    case Float(float) => float != 0.0
    case Bool(flag) => flag
    case Time => true
  }

  // ---------------------------------------------------------------------
  // What rendering means
  // ---------------------------------------------------------------------

  /** `writes` counts the calls of the destination, and `peak` is the greatest number of variables there ever were. */
  datatype State = State(variables: Variables, actions: nat, output: seq<byte>, writes: nat, peak: nat)

  datatype Ran = Ran(state: State, error: Option<Error>)

  function Max(a: nat, b: nat): nat { if a < b then b else a }

  function Push(s: State, name: Name, value: Value): State {
    var variables := s.variables + [(name, value)];
    s.(variables := variables, peak := Max(s.peak, |variables|))
  }

  /** Counts an action, even the one that is refused. */
  function Tick(w: World, s: State): Ran {
    if s.actions + 1 >= U64_BOUND then Ran(s, Some(ActionLimit))
    else
      Ran(s.(actions := s.actions + 1), if s.actions + 1 > w.limits.maxActions then Some(ActionLimit) else None)
  }

  function Emit(w: World, s: State, bytes: seq<byte>): Ran {
    if |s.output| + |bytes| > w.limits.maxOutput then Ran(s, Some(OutputLimit))
    else if w.refuses(s.writes) then Ran(s.(writes := s.writes + 1), Some(Io))
    else Ran(s.(writes := s.writes + 1, output := s.output + bytes), None)
  }

  function WriteValue(w: World, s: State, value: Value): Ran {
    var text := w.printed(value);
    if text.None? then Ran(s, Some(TypeMismatch)) else Emit(w, s, text.value)
  }

  /** The items that a range goes over. */
  function Items(value: Value): Option<seq<Value>> {
    match value
    case Findings(findings) => Some(seq(|findings|, i requires 0 <= i < |findings| => One(findings[i])))
    case Tags(tags) => Some(seq(|tags|, i requires 0 <= i < |tags| => Bytes(tags[i])))
    case _ => None
  }

  /** The state with the variables of a range set, unless there are more than two of them. */
  function Bind(s: State, variables: seq<Name>, index: nat, item: Value): Option<State> {
    match |variables|
    case 0 => Some(s)
    case 1 => Some(Push(s, variables[0], item))
    case 2 => Some(Push(Push(s, variables[0], Size(index)), variables[1], item))
    case _ => None
  }

  /** Leaves a block: variables above the height at its start are dropped. */
  function Leave(s: State, height: nat): State {
    if height <= |s.variables| then s.(variables := s.variables[..height]) else s
  }

  function RenderNodes(w: World, nodes: seq<Node>, dot: Value, s: State): Ran
    decreases nodes, 2, 0
  {
    if nodes == [] then Ran(s, None)
    else
      var first := RenderNode(w, nodes, dot, s);
      if first.error.Some? then first else RenderNodes(w, nodes[1..], dot, first.state)
  }

  /** Renders the first node of a list. */
  function RenderNode(w: World, nodes: seq<Node>, dot: Value, s: State): Ran
    requires nodes != []
    decreases nodes, 1, 0
  {
    match nodes[0]
    case Verbatim(bytes) => Emit(w, s, bytes)
    case _ =>
      var ticked := Tick(w, s);
      if ticked.error.Some? then ticked
      else
        var value := Evaluate(w, nodes[0].value, dot, ticked.state.variables);
        if value.Err? then Ran(ticked.state, Some(value.error))
        else RenderValue(w, nodes, dot, value.value, ticked.state)
  }

  /** Goes on with the first node of a list once its expression has a value. */
  function RenderValue(w: World, nodes: seq<Node>, dot: Value, value: Value, s: State): Ran
    requires nodes != [] && !nodes[0].Verbatim?
    decreases nodes, 0, 0
  {
    match nodes[0]
    case Output(_) => WriteValue(w, s, value)
    case Assign(name, _) => Ran(Push(s, name, value), None)
    case Range(variables, _, body) =>
      if Items(value).None? then Ran(s, Some(TypeMismatch))
      else RenderItems(w, variables, Items(value).value, 0, body, s)
    case With(_, body) => if Truthy(value) then RenderBlock(w, body, value, s) else Ran(s, None)
    case If(_, body) => if Truthy(value) then RenderBlock(w, body, dot, s) else Ran(s, None)
  }

  /** A block leaves no variables behind. After an error it leaves those it had. */
  function RenderBlock(w: World, body: seq<Node>, dot: Value, s: State): Ran
    decreases body, 3, 0
  {
    var ran := RenderNodes(w, body, dot, s);
    if ran.error.Some? then ran else Ran(Leave(ran.state, |s.variables|), None)
  }

  function RenderItems(w: World, variables: seq<Name>, items: seq<Value>, index: nat, body: seq<Node>, s: State): Ran
    requires index <= |items|
    decreases body, 4, |items| - index
  {
    if index == |items| then Ran(s, None)
    else
      var ticked := Tick(w, s);
      if ticked.error.Some? then ticked
      else
        var item := RenderItem(w, variables, items, index, body, ticked.state);
        if item.error.Some? then item else RenderItems(w, variables, items, index + 1, body, item.state)
  }

  /** One round of a range. Its variables are dropped even after an error. */
  function RenderItem(w: World, variables: seq<Name>, items: seq<Value>, index: nat, body: seq<Node>, s: State): Ran
    requires index < |items|
    decreases body, 3, 0
  {
    var bound := Bind(s, variables, index, items[index]);
    if bound.None? then Ran(s, Some(TypeMismatch))
    else
      var ran := RenderNodes(w, body, items[index], bound.value);
      ran.(state := Leave(ran.state, |s.variables|))
  }

  // ---------------------------------------------------------------------
  // How many variables there can be
  // ---------------------------------------------------------------------

  /** The variables that a template can have at once. */
  function VariableCapacity(nodes: seq<Node>): nat {
    if nodes == [] then 0
    else
      (match nodes[0]
       case Assign(_, _) => 1
       case Range(variables, _, body) => |variables| + VariableCapacity(body)
       case With(_, body) => VariableCapacity(body)
       case If(_, body) => VariableCapacity(body)
       case _ => 0)
      + VariableCapacity(nodes[1..])
  }

  /** The part of the capacity that is for the first node. */
  ghost function Room(nodes: seq<Node>): (room: nat)
    requires nodes != []
  {
    VariableCapacity(nodes) - VariableCapacity(nodes[1..])
  }

  /** The variables that the nodes of one block leave behind. */
  function Assigns(nodes: seq<Node>): nat {
    if nodes == [] then 0 else (if nodes[0].Assign? then 1 else 0) + Assigns(nodes[1..])
  }

  /**
   * What every step keeps: variables are only added above those there were, their number never exceeds the bound,
   * output is only appended to and stays within its limit, and actions only grow, by at most one beyond their limit.
   */
  ghost predicate Keeps(w: World, s: State, ran: Ran, room: nat) {
    && s.variables <= ran.state.variables && |ran.state.variables| <= |s.variables| + room
    && ran.state.peak <= Max(s.peak, |s.variables| + room)
    && s.output <= ran.state.output && |ran.state.output| <= w.limits.maxOutput
    && s.actions <= ran.state.actions <= w.limits.maxActions + 1
    && (ran.error.None? ==> ran.state.actions <= w.limits.maxActions)
  }

  /** The state is within the limits, and the peak covers the present variables. */
  ghost predicate Within(w: World, s: State) {
    |s.variables| <= s.peak && |s.output| <= w.limits.maxOutput && s.actions <= w.limits.maxActions
  }

  lemma KeepsThen(w: World, s: State, first: Ran, second: Ran, a: nat, b: nat)
    requires Keeps(w, s, first, a) && first.error.None? && Keeps(w, first.state, second, b)
    ensures Keeps(w, s, second, a + b)
  {
  }

  lemma TickKeeps(w: World, s: State)
    requires Within(w, s)
    ensures Keeps(w, s, Tick(w, s), 0) && Tick(w, s).state.variables == s.variables
    ensures Tick(w, s).error.None? ==> Within(w, Tick(w, s).state)
  {
  }

  lemma EmitKeeps(w: World, s: State, bytes: seq<byte>)
    requires Within(w, s)
    ensures Keeps(w, s, Emit(w, s, bytes), 0) && Emit(w, s, bytes).state.variables == s.variables
    ensures Within(w, Emit(w, s, bytes).state)
  {
  }

  lemma KeepsAgain(w: World, s: State, first: Ran, second: Ran, room: nat)
    requires Keeps(w, s, first, room) && first.error.None? && first.state.variables == s.variables
    requires Keeps(w, first.state, second, room)
    ensures Keeps(w, s, second, room)
  {
  }

  /** A run of nodes that succeeds leaves behind exactly the variables assigned at its own level. */
  ghost predicate NodesDone(w: World, nodes: seq<Node>, s: State, ran: Ran) {
    && Keeps(w, s, ran, VariableCapacity(nodes))
    && (ran.error.None? ==> Within(w, ran.state) && |ran.state.variables| == |s.variables| + Assigns(nodes))
  }

  lemma {:induction false} NodesKeep(w: World, nodes: seq<Node>, dot: Value, s: State)
    requires Within(w, s)
    ensures NodesDone(w, nodes, s, RenderNodes(w, nodes, dot, s))
    decreases nodes, 2, 0
  {
    if nodes != [] {
      hide Keeps;
      var first := RenderNode(w, nodes, dot, s);
      NodeKeeps(w, nodes, dot, s);
      if first.error.None? {
        NodesKeep(w, nodes[1..], dot, first.state);
        KeepsThen(w, s, first, RenderNodes(w, nodes[1..], dot, first.state), Room(nodes), VariableCapacity(nodes[1..]));
      } else {
        KeepsMore(w, s, first, Room(nodes), VariableCapacity(nodes));
      }
    }
  }

  lemma KeepsMore(w: World, s: State, ran: Ran, a: nat, b: nat)
    requires Keeps(w, s, ran, a) && a <= b
    ensures Keeps(w, s, ran, b)
  {
  }

  /** What one node does: it fits its own room, and only an assignment leaves a variable. */
  ghost predicate NodeDone(w: World, nodes: seq<Node>, s: State, ran: Ran)
    requires nodes != []
  {
    && Keeps(w, s, ran, Room(nodes))
    && (ran.error.None? ==>
          && Within(w, ran.state)
          && (!nodes[0].Assign? ==> ran.state.variables == s.variables)
          && (nodes[0].Assign? ==> |ran.state.variables| == |s.variables| + 1))
  }

  lemma {:induction false} NodeKeeps(w: World, nodes: seq<Node>, dot: Value, s: State)
    requires nodes != [] && Within(w, s)
    ensures NodeDone(w, nodes, s, RenderNode(w, nodes, dot, s))
    decreases nodes, 1, 0
  {
    hide Keeps;
    if nodes[0].Verbatim? {
      EmitKeeps(w, s, nodes[0].bytes);
    } else {
      var ticked := Tick(w, s);
      TickKeeps(w, s);
      KeepsMore(w, s, ticked, 0, Room(nodes));
      if ticked.error.None? {
        var value := Evaluate(w, nodes[0].value, dot, ticked.state.variables);
        if value.Ok? {
          ValueKeeps(w, nodes, dot, value.value, ticked.state);
          KeepsThen(w, s, ticked, RenderValue(w, nodes, dot, value.value, ticked.state), 0, Room(nodes));
        } else {
          KeepsStop(w, s, ticked, value.error, Room(nodes));
        }
      }
    }
  }

  lemma KeepsStop(w: World, s: State, ran: Ran, error: Error, room: nat)
    requires Keeps(w, s, ran, room)
    ensures Keeps(w, s, Ran(ran.state, Some(error)), room)
  {
  }

  lemma KeepsNothing(w: World, s: State, error: Option<Error>, room: nat)
    requires Within(w, s)
    ensures Keeps(w, s, Ran(s, error), room)
  {
  }

  lemma PushKeeps(w: World, s: State, name: Name, value: Value)
    requires Within(w, s)
    ensures Keeps(w, s, Ran(Push(s, name, value), None), 1) && Within(w, Push(s, name, value))
  {
  }

  lemma {:induction false} ValueKeeps(w: World, nodes: seq<Node>, dot: Value, value: Value, s: State)
    requires nodes != [] && !nodes[0].Verbatim? && Within(w, s)
    ensures NodeDone(w, nodes, s, RenderValue(w, nodes, dot, value, s))
    decreases nodes, 0, 0
  {
    hide Keeps;
    KeepsNothing(w, s, None, Room(nodes));
    KeepsNothing(w, s, Some(TypeMismatch), Room(nodes));
    match nodes[0]
    case Output(_) =>
      if w.printed(value).Some? {
        EmitKeeps(w, s, w.printed(value).value);
      }
    case Assign(name, _) => PushKeeps(w, s, name, value);
    case Range(variables, _, body) =>
      if Items(value).Some? {
        ItemsKeep(w, variables, Items(value).value, 0, body, s);
      }
    case With(_, body) => BlockKeeps(w, body, value, s);
    case If(_, body) => BlockKeeps(w, body, dot, s);
  }

  lemma {:induction false} BlockKeeps(w: World, body: seq<Node>, dot: Value, s: State)
    requires Within(w, s)
    ensures var ran := RenderBlock(w, body, dot, s);
            && Keeps(w, s, ran, VariableCapacity(body))
            && (ran.error.None? ==> Within(w, ran.state) && ran.state.variables == s.variables)
    decreases body, 3, 0
  {
    NodesKeep(w, body, dot, s);
  }

  lemma {:induction false} ItemKeeps(
    w: World, variables: seq<Name>, items: seq<Value>, index: nat, body: seq<Node>, s: State)
    requires index < |items| && Within(w, s)
    ensures var ran := RenderItem(w, variables, items, index, body, s);
            && Keeps(w, s, ran, |variables| + VariableCapacity(body))
            && (ran.error.None? ==> Within(w, ran.state) && ran.state.variables == s.variables)
    decreases body, 3, 0
  {
    var bound := Bind(s, variables, index, items[index]);
    if bound.Some? {
      BindKeeps(w, variables, items, index, s);
      NodesKeep(w, body, items[index], bound.value);
      var ran := RenderNodes(w, body, items[index], bound.value);
      LeaveKeeps(w, s, Ran(bound.value, None), ran, |variables|, VariableCapacity(body));
    } else {
      KeepsNothing(w, s, Some(TypeMismatch), |variables| + VariableCapacity(body));
    }
  }

  lemma BindKeeps(w: World, variables: seq<Name>, items: seq<Value>, index: nat, s: State)
    requires index < |items| && Within(w, s) && Bind(s, variables, index, items[index]).Some?
    ensures var bound := Bind(s, variables, index, items[index]).value;
            Keeps(w, s, Ran(bound, None), |variables|) && Within(w, bound)
  {
  }

  lemma LeaveKeeps(w: World, s: State, first: Ran, second: Ran, a: nat, b: nat)
    requires Keeps(w, s, first, a) && first.error.None? && Keeps(w, first.state, second, b) && Within(w, s)
    ensures var left := second.(state := Leave(second.state, |s.variables|));
            && Keeps(w, s, left, a + b) && left.state.variables == s.variables
            && (second.error.None? && Within(w, second.state) ==> Within(w, left.state))
  {
  }

  lemma {:induction false} ItemsKeep(
    w: World, variables: seq<Name>, items: seq<Value>, index: nat, body: seq<Node>, s: State)
    requires index <= |items| && Within(w, s)
    ensures var ran := RenderItems(w, variables, items, index, body, s);
            && Keeps(w, s, ran, |variables| + VariableCapacity(body))
            && (ran.error.None? ==> Within(w, ran.state) && ran.state.variables == s.variables)
    decreases body, 4, |items| - index
  {
    hide Keeps;
    var room := |variables| + VariableCapacity(body);
    KeepsNothing(w, s, None, room);
    if index < |items| {
      var ticked := Tick(w, s);
      TickKeeps(w, s);
      KeepsMore(w, s, ticked, 0, room);
      if ticked.error.None? {
        var item := RenderItem(w, variables, items, index, body, ticked.state);
        ItemKeeps(w, variables, items, index, body, ticked.state);
        KeepsAgain(w, s, ticked, item, room);
        if item.error.None? {
          ItemsKeep(w, variables, items, index + 1, body, item.state);
          KeepsAgain(w, s, item, RenderItems(w, variables, items, index + 1, body, item.state), room);
        }
      }
    }
  }

  // ---------------------------------------------------------------------
  // Rendering says what the template says
  // ---------------------------------------------------------------------

  /** The innermost variables are the ones that can be seen. */
  ghost predicate Sees(variables: Variables, scope: Scope) {
    forall name :: Lookup(variables, name) == if name in scope then Some(scope[name]) else None
  }

  lemma SeesPush(variables: Variables, scope: Scope, name: Name, value: Value)
    requires Sees(variables, scope)
    ensures Sees(variables + [(name, value)], scope[name := value])
  {
    assert (variables + [(name, value)])[..|variables|] == variables;
  }

  lemma {:induction false} Evaluated(w: World, expr: Expr, dot: Value, variables: Variables, scope: Scope)
    requires Sees(variables, scope)
    ensures var r := Evaluate(w, expr, dot, variables);
            ValueOf(w, expr, dot, scope) == if r.Ok? then Some(r.value) else None
    decreases expr
  {
    match expr
    case Call(helper, arguments) =>
      AllEvaluated(w, arguments, dot, variables, scope);
      var values := seq(|arguments|, i requires 0 <= i < |arguments| => ValueOf(w, arguments[i], dot, scope));
      var r := EvaluateAll(w, arguments, dot, variables);
      if r.Ok? {
        assert seq(|values|, i requires 0 <= i < |values| => values[i].value) == r.value;
      }
    case _ =>
  }

  lemma {:induction false} AllEvaluated(
    w: World, arguments: seq<Expr>, dot: Value, variables: Variables, scope: Scope)
    requires Sees(variables, scope)
    ensures var r := EvaluateAll(w, arguments, dot, variables);
            && (r.Err? <==> exists i :: 0 <= i < |arguments| && ValueOf(w, arguments[i], dot, scope).None?)
            && (r.Ok? ==> |r.value| == |arguments|)
            && (r.Ok? ==>
                  forall i :: 0 <= i < |arguments| ==> ValueOf(w, arguments[i], dot, scope) == Some(r.value[i]))
    decreases arguments
  {
    hide ValueOf, Sees;
    if arguments != [] {
      Evaluated(w, arguments[0], dot, variables, scope);
      AllEvaluated(w, arguments[1..], dot, variables, scope);
      assert forall i :: 1 <= i < |arguments| ==> arguments[i] == arguments[1..][i - 1];
      assert forall i :: 0 <= i < |arguments| - 1 ==> arguments[1..][i] == arguments[i + 1];
    }
  }

  lemma EmptyIs(value: Value)
    ensures Truthy(value) <==> !Empty(value)
  {
  }

  lemma ItemsAre(value: Value)
    ensures Items(value) == ItemsOf(value)
  {
  }

  /** The limits have room for what is said, and no piece of it is refused by the destination. */
  ghost predicate Fits(w: World, s: State, said: Said) {
    && s.actions + said.actions <= w.limits.maxActions && |s.output| + |said.text| <= w.limits.maxOutput
    && forall n | s.writes <= n < s.writes + said.pieces :: !w.refuses(n)
  }

  /**
   * A run succeeds if and only if there is something to say that fits, and has then said exactly that. A run that
   * fails has said the beginning of it.
   */
  ghost predicate Agrees(w: World, s: State, ran: Ran, said: Option<Said>) {
    && (ran.error.None? <==> said.Some? && Fits(w, s, said.value))
    && (ran.error.None? ==>
          && ran.state.output == s.output + said.value.text
          && ran.state.actions == s.actions + said.value.actions
          && ran.state.writes == s.writes + said.value.pieces)
    && (said.Some? ==> ran.state.output <= s.output + said.value.text)
  }

  lemma FitsFirst(w: World, s: State, a: Said, b: Said)
    ensures Fits(w, s, Then(Some(a), Some(b)).value) ==> Fits(w, s, a)
  {
  }

  lemma AgreesThen(w: World, s: State, first: Ran, a: Option<Said>, second: Ran, b: Option<Said>)
    requires Agrees(w, s, first, a)
    requires if first.error.Some? then second == first else Agrees(w, first.state, second, b)
    ensures Agrees(w, s, second, Then(a, b))
  {
    if a.Some? && b.Some? {
      assert s.output + (a.value.text + b.value.text) == s.output + a.value.text + b.value.text;
      if first.error.None? {
        assert Fits(w, s, Then(a, b).value) <==> Fits(w, first.state, b.value);
      } else {
        FitsFirst(w, s, a.value, b.value);
      }
    }
  }

  lemma AgreesNothing(w: World, s: State)
    requires Within(w, s)
    ensures Agrees(w, s, Ran(s, None), Some(Said([], 0, 0)))
    ensures forall error :: Agrees(w, s, Ran(s, Some(error)), None)
  {
    assert s.output + [] == s.output;
  }

  lemma AgreesTick(w: World, s: State)
    requires Within(w, s)
    ensures Agrees(w, s, Tick(w, s), Some(Said([], 1, 0)))
  {
    assert s.output + [] == s.output;
  }

  lemma AgreesEmit(w: World, s: State, bytes: seq<byte>)
    requires Within(w, s)
    ensures Agrees(w, s, Emit(w, s, bytes), Some(Said(bytes, 0, 1)))
  {
  }

  /** Where the state stands behind a step matters only for what can be seen. */
  lemma AgreesState(w: World, s: State, ran: Ran, left: Ran, said: Option<Said>)
    requires Agrees(w, s, ran, said) && left.error == ran.error && left.state.output == ran.state.output
    requires left.state.actions == ran.state.actions && left.state.writes == ran.state.writes
    ensures Agrees(w, s, left, said)
  {
  }

  lemma AgreesFrom(w: World, s: State, from: State, ran: Ran, said: Option<Said>)
    requires Agrees(w, from, ran, said)
    requires from.output == s.output && from.actions == s.actions && from.writes == s.writes
    ensures Agrees(w, s, ran, said)
  {
  }

  lemma {:induction false} NodesSay(w: World, nodes: seq<Node>, dot: Value, s: State, scope: Scope)
    requires Within(w, s) && Sees(s.variables, scope)
    ensures Agrees(w, s, RenderNodes(w, nodes, dot, s), Says(w, nodes, dot, scope))
    decreases nodes, 2, 0
  {
    hide Agrees, Sees, Within, NodeDone;
    AgreesNothing(w, s);
    if nodes != [] {
      var first := RenderNode(w, nodes, dot, s);
      NodeKeeps(w, nodes, dot, s);
      FirstSays(w, nodes, dot, s, scope);
      var said, later := SaysFirst(w, nodes, dot, scope), ScopeBehind(w, nodes, dot, scope);
      if first.error.None? {
        FirstSees(w, nodes, dot, s, scope);
        NodesSay(w, nodes[1..], dot, first.state, later);
      }
      AgreesThen(w, s, first, said, RenderNodes(w, nodes, dot, s), Says(w, nodes[1..], dot, later));
      SaysInParts(w, nodes, dot, scope);
    }
  }

  /** What the first of several nodes says. */
  ghost function SaysFirst(w: World, nodes: seq<Node>, dot: Value, scope: Scope): Option<Said>
    requires nodes != []
  {
    if nodes[0].Verbatim? then Some(Said(nodes[0].bytes, 0, 1))
    else
      match ValueOf(w, nodes[0].value, dot, scope)
      case None => None
      case Some(value) => Then(Some(Said([], 1, 0)), SaysWith(w, nodes, dot, scope, value))
  }

  /** What can be seen behind it. */
  ghost function ScopeBehind(w: World, nodes: seq<Node>, dot: Value, scope: Scope): Scope
    requires nodes != []
  {
    if nodes[0].Assign? && ValueOf(w, nodes[0].value, dot, scope).Some? then
      scope[nodes[0].name := ValueOf(w, nodes[0].value, dot, scope).value]
    else scope
  }

  lemma SaysInParts(w: World, nodes: seq<Node>, dot: Value, scope: Scope)
    requires nodes != []
    ensures Says(w, nodes, dot, scope)
         == Then(SaysFirst(w, nodes, dot, scope), Says(w, nodes[1..], dot, ScopeBehind(w, nodes, dot, scope)))
  {
    hide ValueOf, SaysWith;
    if !nodes[0].Verbatim? && ValueOf(w, nodes[0].value, dot, scope).Some? {
      var value := ValueOf(w, nodes[0].value, dot, scope).value;
      var a, b := SaysWith(w, nodes, dot, scope, value), Says(w, nodes[1..], dot, ScopeBehind(w, nodes, dot, scope));
      if a.Some? && b.Some? {
        assert [] + (a.value.text + b.value.text) == [] + a.value.text + b.value.text;
      }
    }
  }

  lemma FirstSees(w: World, nodes: seq<Node>, dot: Value, s: State, scope: Scope)
    requires nodes != [] && Within(w, s) && Sees(s.variables, scope) && RenderNode(w, nodes, dot, s).error.None?
    ensures var after := RenderNode(w, nodes, dot, s).state;
            Within(w, after) && Sees(after.variables, ScopeBehind(w, nodes, dot, scope))
  {
    hide Sees, Keeps;
    NodeKeeps(w, nodes, dot, s);
    if nodes[0].Assign? {
      var ticked := Tick(w, s).state;
      Evaluated(w, nodes[0].value, dot, s.variables, scope);
      SeesPush(s.variables, scope, nodes[0].name, Evaluate(w, nodes[0].value, dot, s.variables).value);
    }
  }

  lemma {:induction false} FirstSays(w: World, nodes: seq<Node>, dot: Value, s: State, scope: Scope)
    requires nodes != [] && Within(w, s) && Sees(s.variables, scope)
    ensures Agrees(w, s, RenderNode(w, nodes, dot, s), SaysFirst(w, nodes, dot, scope))
    decreases nodes, 1, 0
  {
    hide Agrees, Sees, Within, SaysWith, RenderValue, Keeps, ValueOf, Evaluate;
    if nodes[0].Verbatim? {
      AgreesEmit(w, s, nodes[0].bytes);
    } else {
      var ticked := Tick(w, s);
      AgreesTick(w, s);
      TickKeeps(w, s);
      Evaluated(w, nodes[0].value, dot, s.variables, scope);
      var value := Evaluate(w, nodes[0].value, dot, s.variables);
      var tick := Some(Said([], 1, 0));
      if value.Err? {
        if ticked.error.None? {
          AgreesNothing(w, ticked.state);
          AgreesThen(w, s, ticked, tick, Ran(ticked.state, Some(value.error)), None);
        } else {
          AgreesThen(w, s, ticked, tick, ticked, None);
        }
      } else {
        var said := SaysWith(w, nodes, dot, scope, value.value);
        if ticked.error.None? {
          ValueSays(w, nodes, dot, value.value, ticked.state, scope);
          AgreesThen(w, s, ticked, tick, RenderValue(w, nodes, dot, value.value, ticked.state), said);
        } else {
          AgreesThen(w, s, ticked, tick, ticked, said);
        }
      }
    }
  }

  lemma {:induction false} ValueSays(
    w: World, nodes: seq<Node>, dot: Value, value: Value, s: State, scope: Scope)
    requires nodes != [] && !nodes[0].Verbatim? && Within(w, s) && Sees(s.variables, scope)
    ensures Agrees(w, s, RenderValue(w, nodes, dot, value, s), SaysWith(w, nodes, dot, scope, value))
    decreases nodes, 0, 0
  {
    hide Agrees, Sees, Within, Says, SaysItems, RenderNodes, RenderItems, RenderBlock, Emit;
    hide Truthy, Empty, Items, ItemsOf;
    AgreesNothing(w, s);
    EmptyIs(value);
    ItemsAre(value);
    match nodes[0]
    case Output(_) =>
      if w.printed(value).Some? {
        AgreesEmit(w, s, w.printed(value).value);
      }
    case Assign(name, _) =>
      AgreesState(w, s, Ran(s, None), Ran(Push(s, name, value), None), Some(Said([], 0, 0)));
    case Range(variables, _, body) =>
      if Items(value).Some? {
        ItemsSay(w, variables, Items(value).value, 0, body, s, scope);
      }
    case With(_, body) => BlockSays(w, body, value, s, scope);
    case If(_, body) => BlockSays(w, body, dot, s, scope);
  }

  lemma {:induction false} BlockSays(w: World, body: seq<Node>, dot: Value, s: State, scope: Scope)
    requires Within(w, s) && Sees(s.variables, scope)
    ensures Agrees(w, s, RenderBlock(w, body, dot, s), Says(w, body, dot, scope))
    decreases body, 3, 0
  {
    hide Agrees, Sees, Within, Says, RenderNodes;
    NodesSay(w, body, dot, s, scope);
    AgreesState(w, s, RenderNodes(w, body, dot, s), RenderBlock(w, body, dot, s), Says(w, body, dot, scope));
  }

  lemma SeesBound(s: State, scope: Scope, variables: seq<Name>, index: nat, item: Value)
    requires Sees(s.variables, scope)
    ensures var bound, seen := Bind(s, variables, index, item), Seen(scope, variables, index, item);
            && (bound.None? <==> seen.None?)
            && (bound.Some? ==>
                  && Sees(bound.value.variables, seen.value) && bound.value.output == s.output
                  && bound.value.actions == s.actions && bound.value.writes == s.writes)
  {
    hide Sees;
    if |variables| == 1 {
      SeesPush(s.variables, scope, variables[0], item);
    } else if |variables| == 2 {
      SeesPush(s.variables, scope, variables[0], Size(index));
      SeesPush(s.variables + [(variables[0], Size(index))], scope[variables[0] := Size(index)], variables[1], item);
    }
  }

  lemma {:induction false} ItemSays(
    w: World, variables: seq<Name>, items: seq<Value>, index: nat, body: seq<Node>, s: State, scope: Scope)
    requires index < |items| && Within(w, s) && Sees(s.variables, scope)
    ensures var seen := Seen(scope, variables, index, items[index]);
            Agrees(
              w, s, RenderItem(w, variables, items, index, body, s),
              if seen.Some? then Says(w, body, items[index], seen.value) else None)
    decreases body, 3, 0
  {
    hide Agrees, Sees, Says, RenderNodes, Bind, Keeps;
    SeesBound(s, scope, variables, index, items[index]);
    AgreesNothing(w, s);
    var bound, seen := Bind(s, variables, index, items[index]), Seen(scope, variables, index, items[index]);
    if bound.Some? {
      BindKeeps(w, variables, items, index, s);
      NodesSay(w, body, items[index], bound.value, seen.value);
      var ran, said := RenderNodes(w, body, items[index], bound.value), Says(w, body, items[index], seen.value);
      AgreesFrom(w, s, bound.value, ran, said);
      AgreesState(w, s, ran, RenderItem(w, variables, items, index, body, s), said);
    }
  }

  lemma {:induction false} ItemsSay(
    w: World, variables: seq<Name>, items: seq<Value>, index: nat, body: seq<Node>, s: State, scope: Scope)
    requires index <= |items| && Within(w, s) && Sees(s.variables, scope)
    ensures Agrees(
              w, s, RenderItems(w, variables, items, index, body, s),
              SaysItems(w, variables, items, index, body, scope))
    decreases body, 4, |items| - index
  {
    hide Agrees, Sees, Within, Says, RenderItem, Seen, Keeps;
    AgreesNothing(w, s);
    if index < |items| {
      var ticked := Tick(w, s);
      var tick := Some(Said([], 1, 0));
      AgreesTick(w, s);
      TickKeeps(w, s);
      var seen := Seen(scope, variables, index, items[index]);
      var said := if seen.Some? then Says(w, body, items[index], seen.value) else None;
      var rest := SaysItems(w, variables, items, index + 1, body, scope);
      var ran := RenderItems(w, variables, items, index, body, s);
      if ticked.error.Some? {
        AgreesThen(w, s, ticked, tick, ticked, said);
        AgreesThen(w, s, ticked, Then(tick, said), ticked, rest);
      } else {
        var item := RenderItem(w, variables, items, index, body, ticked.state);
        ItemKeeps(w, variables, items, index, body, ticked.state);
        ItemSays(w, variables, items, index, body, ticked.state, scope);
        AgreesThen(w, s, ticked, tick, item, said);
        if item.error.None? {
          ItemsSay(w, variables, items, index + 1, body, item.state, scope);
        }
        AgreesThen(w, s, item, Then(tick, said), ran, rest);
      }
    }
  }

  // ---------------------------------------------------------------------
  // The renderer
  // ---------------------------------------------------------------------

  /** Counts the bytes it passes on. `output` is what the destination has accepted. */
  class CountingWriter {
    const limit: nat
    var written: nat
    var output: seq<byte>
    var writes: nat

    ghost predicate Valid()
      reads this
    {
      written == |output|
    }

    constructor (limit: nat)
      ensures Valid() && this.limit == limit && output == [] && writes == 0
    {
      this.limit, written, output, writes := limit, 0, [], 0;
    }

    /** Passes bytes on when they fit. A refused write leaves the count as it was. */
    method EmitBytes(w: World, bytes: seq<byte>) returns (error: Option<Error>)
      requires Valid()
      modifies this
      ensures Valid()
      ensures |old(output)| + |bytes| > limit ==>
                error == Some(OutputLimit) && output == old(output) && writes == old(writes)
      ensures |old(output)| + |bytes| <= limit ==>
                && writes == old(writes) + 1
                && if w.refuses(old(writes)) then error == Some(Io) && output == old(output)
                   else error == None && output == old(output) + bytes
    {
      var total := written + |bytes|;
      if total > limit {
        return Some(OutputLimit);
      }
      writes := writes + 1;
      if w.refuses(writes - 1) {
        return Some(Io);
      }
      output := output + bytes;
      written := total;
      error := None;
    }
  }

  class RenderState {
    const limit: nat
    var variables: Variables
    var actions: nat
    ghost var peak: nat

    constructor (limit: nat)
      ensures this.limit == limit && variables == [] && actions == 0 && peak == 0
    {
      this.limit, variables, actions, peak := limit, [], 0, 0;
    }

    /** Counts an action before the limit is looked at. */
    method CountAction() returns (error: Option<Error>)
      modifies this`actions
      ensures if old(actions) + 1 >= U64_BOUND then error == Some(ActionLimit) && actions == old(actions)
              else actions == old(actions) + 1 && error == if actions > limit then Some(ActionLimit) else None
    {
      if actions + 1 >= U64_BOUND {
        return Some(ActionLimit);
      }
      actions := actions + 1;
      error := if actions > limit then Some(ActionLimit) else None;
    }

    method PushVariable(name: Name, value: Value)
      modifies this
      ensures variables == old(variables) + [(name, value)] && peak == Max(old(peak), |variables|)
      ensures actions == old(actions)
    {
      variables := variables + [(name, value)];
      peak := Max(peak, |variables|);
    }

    method Truncate(height: nat)
      modifies this`variables
      ensures variables == if height <= |old(variables)| then old(variables)[..height] else old(variables)
    {
      if height < |variables| {
        variables := variables[..height];
      }
    }
  }

  /** What a state and a writer hold together. */
  ghost function Now(state: RenderState, writer: CountingWriter): State
    reads state, writer
  {
    State(state.variables, state.actions, writer.output, writer.writes, state.peak)
  }

  ghost predicate Ready(w: World, state: RenderState, writer: CountingWriter)
    reads writer
  {
    writer.Valid() && writer.limit == w.limits.maxOutput && state.limit == w.limits.maxActions
  }

  method RenderList(w: World, nodes: seq<Node>, dot: Value, state: RenderState, writer: CountingWriter)
    returns (error: Option<Error>)
    requires Ready(w, state, writer)
    modifies state, writer
    ensures Ready(w, state, writer)
            && Ran(Now(state, writer), error) == RenderNodes(w, nodes, dot, old(Now(state, writer)))
    decreases nodes, 2, 0
  {
    hide RenderNode;
    error := None;
    assert nodes[0..] == nodes;
    for i := 0 to |nodes|
      invariant Ready(w, state, writer) && error.None?
      invariant RenderNodes(w, nodes, dot, old(Now(state, writer)))
                == RenderNodes(w, nodes[i..], dot, Now(state, writer))
    {
      assert nodes[i..][1..] == nodes[i + 1..];
      error := RenderFirst(w, nodes[i..], dot, state, writer);
      if error.Some? {
        return;
      }
    }
    assert nodes[|nodes|..] == [];
  }

  method RenderFirst(w: World, nodes: seq<Node>, dot: Value, state: RenderState, writer: CountingWriter)
    returns (error: Option<Error>)
    requires nodes != [] && Ready(w, state, writer)
    modifies state, writer
    ensures Ready(w, state, writer)
            && Ran(Now(state, writer), error) == RenderNode(w, nodes, dot, old(Now(state, writer)))
    decreases nodes, 1, 0
  {
    hide RenderValue, Evaluate;
    if nodes[0].Verbatim? {
      error := writer.EmitBytes(w, nodes[0].bytes);
      return;
    }
    error := state.CountAction();
    if error.Some? {
      return;
    }
    var value := Evaluate(w, nodes[0].value, dot, state.variables);
    if value.Err? {
      return Some(value.error);
    }
    error := RenderWithValue(w, nodes, dot, value.value, state, writer);
  }

  method RenderWithValue(
    w: World, nodes: seq<Node>, dot: Value, value: Value, state: RenderState, writer: CountingWriter)
    returns (error: Option<Error>)
    requires nodes != [] && !nodes[0].Verbatim? && Ready(w, state, writer)
    modifies state, writer
    ensures Ready(w, state, writer)
    ensures Ran(Now(state, writer), error) == RenderValue(w, nodes, dot, value, old(Now(state, writer)))
    decreases nodes, 0, 0
  {
    hide RenderItems, RenderNodes;
    error := None;
    match nodes[0]
    case Output(_) =>
      var text := w.printed(value);
      if text.None? {
        return Some(TypeMismatch);
      }
      error := writer.EmitBytes(w, text.value);
    case Assign(name, _) =>
      state.PushVariable(name, value);
    case Range(variables, _, body) =>
      var items := Items(value);
      if items.None? {
        return Some(TypeMismatch);
      }
      error := RenderRange(w, variables, items.value, body, state, writer);
    case With(_, body) =>
      if Truthy(value) {
        var scope := |state.variables|;
        error := RenderList(w, body, value, state, writer);
        if error.None? {
          state.Truncate(scope);
        }
      }
    case If(_, body) =>
      if Truthy(value) {
        var scope := |state.variables|;
        error := RenderList(w, body, dot, state, writer);
        if error.None? {
          state.Truncate(scope);
        }
      }
  }

  method RenderRange(
    w: World, variables: seq<Name>, items: seq<Value>, body: seq<Node>, state: RenderState, writer: CountingWriter)
    returns (error: Option<Error>)
    requires Ready(w, state, writer)
    modifies state, writer
    ensures Ready(w, state, writer)
    ensures Ran(Now(state, writer), error) == RenderItems(w, variables, items, 0, body, old(Now(state, writer)))
    decreases body, 4, 0
  {
    hide RenderItem;
    error := None;
    for i := 0 to |items|
      invariant Ready(w, state, writer) && error.None?
      invariant RenderItems(w, variables, items, 0, body, old(Now(state, writer)))
             == RenderItems(w, variables, items, i, body, Now(state, writer))
    {
      error := state.CountAction();
      if error.Some? {
        return;
      }
      error := RenderRangeItem(w, variables, items, i, body, state, writer);
      if error.Some? {
        return;
      }
    }
  }

  method RenderRangeItem(
    w: World, variables: seq<Name>, items: seq<Value>, index: nat, body: seq<Node>, state: RenderState,
    writer: CountingWriter)
    returns (error: Option<Error>)
    requires index < |items| && Ready(w, state, writer)
    modifies state, writer
    ensures Ready(w, state, writer)
    ensures Ran(Now(state, writer), error) == RenderItem(w, variables, items, index, body, old(Now(state, writer)))
    decreases body, 3, 0
  {
    hide RenderNodes;
    var scope := |state.variables|;
    if |variables| == 1 {
      state.PushVariable(variables[0], items[index]);
    } else if |variables| == 2 {
      state.PushVariable(variables[0], Size(index));
      state.PushVariable(variables[1], items[index]);
    } else if |variables| > 2 {
      return Some(TypeMismatch);
    }
    error := RenderList(w, body, items[index], state, writer);
    state.Truncate(scope);
  }

  /**
   * Rendering succeeds if and only if the template says something, the limits have room for it, and the destination
   * refuses no piece of it. The output is then what the template says, and otherwise the beginning of it.
   */
  ghost predicate Rendered(
    w: World, said: Option<Said>, error: Option<Error>, output: seq<byte>, actions: nat)
  {
    && (error.None? <==>
          && said.Some? && said.value.actions <= w.limits.maxActions && |said.value.text| <= w.limits.maxOutput
          && forall n | 0 <= n < said.value.pieces :: !w.refuses(n))
    && (error.None? ==> output == said.value.text && actions == said.value.actions)
    && (said.Some? ==> output <= said.value.text)
  }

  /** Renders findings from an empty state. */
  method Render(w: World, nodes: seq<Node>, findings: seq<Finding>)
    returns (error: Option<Error>, output: seq<byte>, actions: nat, ghost peak: nat)
    ensures var ran := RenderNodes(w, nodes, Findings(findings), State([], 0, [], 0, 0));
            error == ran.error && output == ran.state.output && actions == ran.state.actions && peak == ran.state.peak
    ensures peak <= VariableCapacity(nodes)
    ensures |output| <= w.limits.maxOutput
    ensures actions <= w.limits.maxActions + 1 && (error.None? ==> actions <= w.limits.maxActions)
    ensures Rendered(w, Says(w, nodes, Findings(findings), map[]), error, output, actions)
  {
    hide RenderNodes, Says;
    NodesSay(w, nodes, Findings(findings), State([], 0, [], 0, 0), map[]);
    var state := new RenderState(w.limits.maxActions);
    var writer := new CountingWriter(w.limits.maxOutput);
    NodesKeep(w, nodes, Findings(findings), Now(state, writer));
    error := RenderList(w, nodes, Findings(findings), state, writer);
    output, actions, peak := writer.output, state.actions, state.peak;
  }

  /** The capacity as the source adds it up, stopping at the largest `usize`. */
  function SaturatingCapacity(nodes: seq<Node>, count: nat): nat {
    if nodes == [] then count
    else
      var next :=
        match nodes[0]
        case Assign(_, _) => SaturatingAdd(count, 1)
        case Range(variables, _, body) => SaturatingCapacity(body, SaturatingAdd(count, |variables|))
        case With(_, body) => SaturatingCapacity(body, count)
        case If(_, body) => SaturatingCapacity(body, count)
        case _ => count;
      SaturatingCapacity(nodes[1..], next)
  }

  function SaturatingAdd(a: nat, b: nat): nat { if a + b < U64_BOUND then a + b else U64_BOUND - 1 }

  /** Saturation is the only difference. */
  lemma {:induction false} SaturatingIs(nodes: seq<Node>, count: nat)
    requires count < U64_BOUND
    ensures SaturatingCapacity(nodes, count) == SaturatingAdd(count, VariableCapacity(nodes))
    decreases nodes
  {
    if nodes != [] {
      match nodes[0]
      case Assign(_, _) => SaturatingIs(nodes[1..], SaturatingAdd(count, 1));
      case Range(variables, _, body) =>
        SaturatingIs(body, SaturatingAdd(count, |variables|));
        SaturatingIs(nodes[1..], SaturatingAdd(count, |variables| + VariableCapacity(body)));
      case With(_, body) =>
        SaturatingIs(body, count);
        SaturatingIs(nodes[1..], SaturatingAdd(count, VariableCapacity(body)));
      case If(_, body) =>
        SaturatingIs(body, count);
        SaturatingIs(nodes[1..], SaturatingAdd(count, VariableCapacity(body)));
      case _ => SaturatingIs(nodes[1..], count);
    }
  }
}
