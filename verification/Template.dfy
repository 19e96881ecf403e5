/** Report templates: what they are made of, and what they say. */
module Templates {
  import opened Common
  import opened Quoting

  type Name = seq<byte>

  datatype Helper = Len | Eq | Ne | Quote | Sub | Now | Date

  datatype Expr =
    | Dot
    | Field(field: nat)
    | Variable(name: Name)
    | Literal(integer: int)
    | Text(bytes: seq<byte>)
    | Call(helper: Helper, arguments: seq<Expr>)

  datatype Node =
    | Verbatim(bytes: seq<byte>)
    | Output(value: Expr)
    | Assign(name: Name, value: Expr)
    | Range(variables: seq<Name>, value: Expr, body: seq<Node>)
    | With(value: Expr, body: seq<Node>)
    | If(value: Expr, body: seq<Node>)

  datatype Finding = Finding(id: nat)

  /** Borrowed and owned bytes are one kind of value here, as no operation tells them apart. */
  datatype Value =
    | Findings(findings: seq<Finding>)
    | One(finding: Finding)
    | Tags(tags: seq<seq<byte>>)
    | Bytes(bytes: seq<byte>)
    | Size(size: nat)
    | Integer(integer: int)
    | Float(float: real)
    | Bool(flag: bool)
    | Time

  datatype Error = MissingValue | TypeMismatch | Arithmetic | ActionLimit | OutputLimit | Io

  datatype Limits = Limits(maxActions: u64, maxOutput: u64)

  /**
   * What rendering takes from elsewhere: the fields of a finding, the characters that quoting leaves as they are, the
   * printed form of a value if it has one, and whether the destination refuses the `n`-th write.
   */
  datatype World = World(
    limits: Limits, field: (Finding, nat) -> Value, printable: nat -> bool, printed: Value -> Option<seq<byte>>,
    refuses: nat -> bool)

  // ---------------------------------------------------------------------
  // Helpers
  // ---------------------------------------------------------------------

  /** The first value above the source's `i64`. */
  const I64_BOUND: int := 0x8000_0000_0000_0000

  function AsInteger(n: nat): Result<Value, Error> {
    if n < I64_BOUND then Ok(Integer(n)) else Err(Arithmetic)
  }

  function LengthOf(value: Value): Result<Value, Error> {
    match value
    case Findings(findings) => AsInteger(|findings|)
    case Tags(tags) => AsInteger(|tags|)
    case Bytes(bytes) => AsInteger(|bytes|)
    case _ => Err(TypeMismatch)
  }

  function ToInteger(value: Value): Result<int, Error> {
    match value
    case Integer(integer) => Ok(integer)
    case Size(size) => if size < I64_BOUND then Ok(size) else Err(Arithmetic)
    case _ => Err(TypeMismatch)
  }

  function Difference(left: Value, right: Value): Result<Value, Error> {
    var a, b := ToInteger(left), ToInteger(right);
    if a.Err? then Err(a.error)
    else if b.Err? then Err(b.error)
    else if -I64_BOUND <= a.value - b.value < I64_BOUND then Ok(Integer(a.value - b.value))
    else Err(Arithmetic)
  }

  /** Values of one kind can be compared, and numbers of both kinds. */
  function Same(left: Value, right: Value): Result<bool, Error> {
    match (left, right)
    case (Integer(a), Integer(b)) => Ok(a == b)
    case (Size(a), Size(b)) => Ok(a == b)
    case (Integer(a), Size(b)) => Ok(b < I64_BOUND && a == b)
    case (Size(a), Integer(b)) => Ok(a < I64_BOUND && a == b)
    case (Bytes(a), Bytes(b)) => Ok(a == b)
    case (Bool(a), Bool(b)) => Ok(a == b)
    case _ => Err(TypeMismatch)
  }

  function Helped(w: World, helper: Helper, values: seq<Value>): Result<Value, Error> {
    match helper
    case Len => if |values| == 1 then LengthOf(values[0]) else Err(TypeMismatch)
    case Sub => if |values| == 2 then Difference(values[0], values[1]) else Err(TypeMismatch)
    case Eq => if |values| == 2 then Compared(values[0], values[1], true) else Err(TypeMismatch)
    case Ne => if |values| == 2 then Compared(values[0], values[1], false) else Err(TypeMismatch)
    case Quote =>
      if |values| != 1 || !values[0].Bytes? then Err(TypeMismatch)
      else
        var quoted := Quoted(values[0].bytes, w.printable);
        if |quoted| <= w.limits.maxOutput then Ok(Bytes(quoted)) else Err(Error.OutputLimit)
    case Now => if values == [] then Ok(Time) else Err(TypeMismatch)
    case Date =>
      if |values| == 2 && values[0].Bytes? && values[1].Time? then Err(MissingValue) else Err(TypeMismatch)
  }

  function Compared(left: Value, right: Value, equal: bool): Result<Value, Error> {
    var same := Same(left, right);
    if same.Err? then Err(same.error) else Ok(Bool(same.value == equal))
  }

  // ---------------------------------------------------------------------
  // What a template says
  // ---------------------------------------------------------------------

  /** The variables that can be seen, each with the value it was given last. */
  type Scope = map<Name, Value>

  /** The value of an expression, if it has one. */
  function ValueOf(w: World, expr: Expr, dot: Value, scope: Scope): Option<Value> {
    match expr
    case Dot => Some(dot)
    case Field(field) => if dot.One? then Some(w.field(dot.finding, field)) else None
    case Variable(name) => if name in scope then Some(scope[name]) else None
    case Literal(integer) => Some(Integer(integer))
    case Text(bytes) => Some(Bytes(bytes))
    case Call(helper, arguments) =>
      if exists i | 0 <= i < |arguments| :: ValueOf(w, arguments[i], dot, scope).None? then None
      else
        var values := seq(|arguments|, i requires 0 <= i < |arguments| => ValueOf(w, arguments[i], dot, scope));
        var helped := Helped(w, helper, seq(|values|, i requires 0 <= i < |values| => values[i].value));
        if helped.Ok? then Some(helped.value) else None
  }

  /** The values that count as nothing. */
  predicate Empty(value: Value) {
    value in {Findings([]), Tags([]), Bytes([]), Size(0), Integer(0), Float(0.0), Bool(false)}
  }

  /** The findings or tags that a range goes over. */
  function ItemsOf(value: Value): Option<seq<Value>> {
    match value
    case Findings(findings) => Some(seq(|findings|, i requires 0 <= i < |findings| => One(findings[i])))
    case Tags(tags) => Some(seq(|tags|, i requires 0 <= i < |tags| => Bytes(tags[i])))
    case _ => None
  }

  /** What a template says, how many actions that takes, and how many pieces it is said in. */
  datatype Said = Said(text: seq<byte>, actions: nat, pieces: nat)

  /** One thing said behind another. */
  function Then(first: Option<Said>, second: Option<Said>): Option<Said> {
    if first.None? || second.None? then None
    else
      Some(Said(
        first.value.text + second.value.text, first.value.actions + second.value.actions,
        first.value.pieces + second.value.pieces))
  }

  /**
   * What a list of nodes says: a verbatim node its bytes, an output the printed form of its value, an `if` its body
   * when its value is not empty, a `with` its body with the value as dot when that is not empty, and a range its body
   * for each item in order. An assignment says nothing and is seen by the nodes behind it. Nothing is said when an
   * expression has no value, or none that can be printed or ranged over.
   */
  function Says(w: World, nodes: seq<Node>, dot: Value, scope: Scope): Option<Said>
    decreases nodes, 1, 0
  {
    if nodes == [] then Some(Said([], 0, 0))
    else if nodes[0].Verbatim? then Then(Some(Said(nodes[0].bytes, 0, 1)), Says(w, nodes[1..], dot, scope))
    else
      match ValueOf(w, nodes[0].value, dot, scope)
      case None => None
      case Some(value) =>
        var later := if nodes[0].Assign? then scope[nodes[0].name := value] else scope;
        Then(
          Some(Said([], 1, 0)),
          Then(SaysWith(w, nodes, dot, scope, value), Says(w, nodes[1..], dot, later)))
  }

  /** What the first node of a list says for the value of its expression. */
  function SaysWith(w: World, nodes: seq<Node>, dot: Value, scope: Scope, value: Value): Option<Said>
    requires nodes != [] && !nodes[0].Verbatim?
    decreases nodes, 0, 0
  {
    match nodes[0]
    case Output(_) =>
      var printed := w.printed(value);
      if printed.Some? then Some(Said(printed.value, 0, 1)) else None
    case Assign(_, _) => Some(Said([], 0, 0))
    case Range(variables, _, body) =>
      if ItemsOf(value).None? then None else SaysItems(w, variables, ItemsOf(value).value, 0, body, scope)
    case With(_, body) => if Empty(value) then Some(Said([], 0, 0)) else Says(w, body, value, scope)
    case If(_, body) => if Empty(value) then Some(Said([], 0, 0)) else Says(w, body, dot, scope)
  }

  /** What a range sees in a round: with one variable the item, with two the index and then the item. */
  function Seen(scope: Scope, variables: seq<Name>, index: nat, item: Value): Option<Scope> {
    if |variables| == 0 then Some(scope)
    else if |variables| == 1 then Some(scope[variables[0] := item])
    else if |variables| == 2 then Some(scope[variables[0] := Size(index)][variables[1] := item])
    else None
  }

  /** What the rounds of a range say, from one of its items on. Every round is an action. */
  function SaysItems(
    w: World, variables: seq<Name>, items: seq<Value>, index: nat, body: seq<Node>, scope: Scope): Option<Said>
    requires index <= |items|
    decreases body, 2, |items| - index
  {
    if index == |items| then Some(Said([], 0, 0))
    else
      match Seen(scope, variables, index, items[index])
      case None => None
      case Some(seen) =>
        Then(
          Then(Some(Said([], 1, 0)), Says(w, body, items[index], seen)),
          SaysItems(w, variables, items, index + 1, body, scope))
  }

  // ---------------------------------------------------------------------
  // A list with separators
  // ---------------------------------------------------------------------

  const COMMA: byte := 0x2c

  /**
   * The nodes of `{{ $last := (sub (len .Tags) 1) }}{{ range $j, $tag := .Tags }}{{ quote . }}{{ if ne $j $last }},`
   * `{{ end }}{{ end }}`, with which the JSON template lists the tags of a finding.
   */
  function TagList(tags: nat, last: Name, j: Name, tag: Name): seq<Node> {
    [Assign(last, Call(Sub, [Call(Len, [Field(tags)]), Literal(1)])), Range([j, tag], Field(tags), TagRound(last, j))]
  }

  function TagRound(last: Name, j: Name): seq<Node> {
    [Output(Call(Quote, [Dot])), If(Call(Ne, [Variable(j), Variable(last)]), [Verbatim([COMMA])])]
  }

  /** Texts with a comma between any two. */
  function Separated(texts: seq<seq<byte>>): seq<byte> {
    if texts == [] then [] else if |texts| == 1 then texts[0] else texts[0] + [COMMA] + Separated(texts[1..])
  }

  lemma CallOne(w: World, helper: Helper, argument: Expr, dot: Value, scope: Scope)
    requires ValueOf(w, argument, dot, scope).Some?
    ensures var helped := Helped(w, helper, [ValueOf(w, argument, dot, scope).value]);
            ValueOf(w, Call(helper, [argument]), dot, scope) == if helped.Ok? then Some(helped.value) else None
  {
    hide Helped;
    var arguments := [argument];
    var values := seq(|arguments|, i requires 0 <= i < |arguments| => ValueOf(w, arguments[i], dot, scope));
    assert seq(|values|, i requires 0 <= i < |values| => values[i].value) == [ValueOf(w, argument, dot, scope).value];
  }

  lemma CallTwo(w: World, helper: Helper, left: Expr, right: Expr, dot: Value, scope: Scope)
    requires ValueOf(w, left, dot, scope).Some? && ValueOf(w, right, dot, scope).Some?
    ensures var helped :=
              Helped(w, helper, [ValueOf(w, left, dot, scope).value, ValueOf(w, right, dot, scope).value]);
            ValueOf(w, Call(helper, [left, right]), dot, scope) == if helped.Ok? then Some(helped.value) else None
  {
    hide Helped;
    var arguments := [left, right];
    var values := seq(|arguments|, i requires 0 <= i < |arguments| => ValueOf(w, arguments[i], dot, scope));
    assert values == [ValueOf(w, left, dot, scope), ValueOf(w, right, dot, scope)];
    assert seq(|values|, i requires 0 <= i < |values| => values[i].value) == [values[0].value, values[1].value];
  }

  /** What a node adds to the text of those behind it. */
  lemma TextStep(w: World, node: Node, rest: seq<Node>, dot: Value, scope: Scope)
    requires node.Verbatim? || ValueOf(w, node.value, dot, scope).Some?
    ensures var said := Says(w, [node] + rest, dot, scope);
            if node.Verbatim? then
              var later := Says(w, rest, dot, scope);
              && (said.Some? <==> later.Some?) && (later.Some? ==> said.value.text == node.bytes + later.value.text)
            else
              var value := ValueOf(w, node.value, dot, scope).value;
              var first := SaysWith(w, [node] + rest, dot, scope, value);
              var later := Says(w, rest, dot, if node.Assign? then scope[node.name := value] else scope);
              && (said.Some? <==> first.Some? && later.Some?)
              && (said.Some? ==> said.value.text == first.value.text + later.value.text)
  {
    hide ValueOf, SaysWith;
    assert ([node] + rest)[0] == node && ([node] + rest)[1..] == rest;
  }

  lemma NothingSaid(w: World, dot: Value, scope: Scope)
    ensures Says(w, [], dot, scope) == Some(Said([], 0, 0))
  {
  }

  /** Bytes are printed as they are. */
  ghost predicate PrintsBytes(w: World) {
    forall bytes :: w.printed(Bytes(bytes)) == Some(bytes)
  }

  lemma TagRoundSays(w: World, last: Name, j: Name, tag: seq<byte>, index: nat, count: nat, scope: Scope)
    requires PrintsBytes(w) && index < count < I64_BOUND && |Quoted(tag, w.printable)| <= w.limits.maxOutput
    requires j in scope && scope[j] == Size(index) && last in scope && scope[last] == Integer(count - 1)
    ensures var said := Says(w, TagRound(last, j), Bytes(tag), scope);
            && said.Some?
            && said.value.text == Quoted(tag, w.printable) + if index == count - 1 then [] else [COMMA]
  {
    hide Quoted, Says;
    var round, dot := TagRound(last, j), Bytes(tag);
    CallOne(w, Quote, Dot, dot, scope);
    CallTwo(w, Ne, Variable(j), Variable(last), dot, scope);
    NothingSaid(w, dot, scope);
    var output, separator, comma := round[0], round[1], Verbatim([COMMA]);
    TextStep(w, comma, [], dot, scope);
    TextStep(w, separator, [], dot, scope);
    TextStep(w, output, [separator], dot, scope);
    assert [comma] + [] == [comma] && [separator] + [] == [separator] && [output] + [separator] == round;
    assert Says(w, [comma], dot, scope).value.text == [COMMA];
    assert Says(w, [separator], dot, scope).value.text == if index == count - 1 then [] else [COMMA];
  }

  lemma NextSeparated(w: World, tags: seq<seq<byte>>)
    requires tags != []
    ensures Separated(AllQuoted(w, tags))
         == Quoted(tags[0], w.printable) + (if |tags| == 1 then [] else [COMMA]) + Separated(AllQuoted(w, tags[1..]))
  {
    hide Quoted;
    assert AllQuoted(w, tags)[1..] == AllQuoted(w, tags[1..]);
  }

  lemma NoneSeparated(w: World)
    ensures Separated(AllQuoted(w, [])) == []
  {
  }

  lemma {:induction false} TagItemsSay(
    w: World, last: Name, j: Name, tag: Name, tags: seq<seq<byte>>, index: nat, scope: Scope)
    requires PrintsBytes(w) && index <= |tags| < I64_BOUND && last !in {j, tag} && j != tag
    requires forall i | 0 <= i < |tags| :: |Quoted(tags[i], w.printable)| <= w.limits.maxOutput
    requires last in scope && scope[last] == Integer(|tags| - 1)
    ensures var said := SaysItems(w, [j, tag], ItemsOf(Tags(tags)).value, index, TagRound(last, j), scope);
            && said.Some? && said.value.text == Separated(AllQuoted(w, tags[index..]))
    decreases |tags| - index
  {
    hide Quoted, Says, TagRound, Separated, AllQuoted;
    NoneSeparated(w);
    if index < |tags| {
      var seen := Seen(scope, [j, tag], index, Bytes(tags[index])).value;
      TagRoundSays(w, last, j, tags[index], index, |tags|, seen);
      TagItemsSay(w, last, j, tag, tags, index + 1, scope);
      NextSeparated(w, tags[index..]);
      assert tags[index..][1..] == tags[index + 1..];
    } else {
      assert tags[index..] == [];
    }
  }

  function AllQuoted(w: World, texts: seq<seq<byte>>): seq<seq<byte>> {
    seq(|texts|, i requires 0 <= i < |texts| => Quoted(texts[i], w.printable))
  }

  /** The tags of a finding are listed in their quoted forms, with a comma between any two and none at the end. */
  lemma TagListSays(
    w: World, finding: Finding, field: nat, tags: seq<seq<byte>>, last: Name, j: Name, tag: Name, scope: Scope)
    requires PrintsBytes(w) && w.field(finding, field) == Tags(tags) && |tags| < I64_BOUND
    requires last !in {j, tag} && j != tag
    requires forall i | 0 <= i < |tags| :: |Quoted(tags[i], w.printable)| <= w.limits.maxOutput
    ensures var said := Says(w, TagList(field, last, j, tag), One(finding), scope);
            said.Some? && said.value.text == Separated(AllQuoted(w, tags))
  {
    hide Quoted, SaysItems, Separated, Says;
    var nodes, dot := TagList(field, last, j, tag), One(finding);
    var seen := scope[last := Integer(|tags| - 1)];
    CallOne(w, Len, Field(field), dot, scope);
    CallTwo(w, Sub, Call(Len, [Field(field)]), Literal(1), dot, scope);
    NothingSaid(w, dot, seen);
    TextStep(w, nodes[1], [], dot, seen);
    TextStep(w, nodes[0], [nodes[1]], dot, scope);
    assert [nodes[1]] + [] == [nodes[1]] && [nodes[0]] + [nodes[1]] == nodes;
    TagItemsSay(w, last, j, tag, tags, 0, seen);
    assert tags[0..] == tags;
  }
}
