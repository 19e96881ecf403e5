/** Validation of the coder graph of a 7z block: stream bindings, and a topological sort over linked edge lists. */
module TopologicalSort {
  import opened Common

  /** A bind pair, seen as an edge between the coders that own its streams. */
  datatype Edge = Edge(source: nat, destination: nat)

  predicate InRange(edges: seq<Edge>, n: nat) {
    forall e | 0 <= e < |edges| :: edges[e].source < n && edges[e].destination < n
  }

  ghost predicate Upward(edges: seq<Edge>, rank: seq<nat>, e: nat)
    requires e < |edges| && InRange(edges, |rank|)
  {
    rank[edges[e].source] < rank[edges[e].destination]
  }

  ghost predicate IsRank(edges: seq<Edge>, rank: seq<nat>)
    requires InRange(edges, |rank|)
  {
    forall e | 0 <= e < |edges| :: Upward(edges, rank, e)
  }

  /** The graph has a strict topological rank. */
  ghost predicate Acyclic(edges: seq<Edge>, n: nat)
    requires InRange(edges, n)
  {
    exists rank: seq<nat> :: |rank| == n && IsRank(edges, rank)
  }

  // ---------------------------------------------------------------------
  // Linked edge lists
  // ---------------------------------------------------------------------

  /** The last edge below `k` that leaves `coder`. */
  function LastEdge(edges: seq<Edge>, coder: nat, k: nat): (e: Option<nat>)
    requires k <= |edges|
    ensures e.Some? ==> e.value < k && edges[e.value].source == coder
    ensures forall i | (if e.Some? then e.value + 1 else 0) <= i < k :: edges[i].source != coder
  {
    if k == 0 then None
    else if edges[k - 1].source == coder then Some(k - 1)
    else LastEdge(edges, coder, k - 1)
  }

  ghost predicate FirstEdges(edges: seq<Edge>, first: seq<Option<nat>>, k: nat)
    requires k <= |edges|
  {
    forall c | 0 <= c < |first| :: first[c] == LastEdge(edges, c, k)
  }

  ghost predicate NextEdges(edges: seq<Edge>, next: seq<Option<nat>>) {
    |next| <= |edges| &&
    forall e | 0 <= e < |next| :: next[e] == LastEdge(edges, edges[e].source, e)
  }

  lemma NextEdgeOf(edges: seq<Edge>, next: seq<Option<nat>>, e: nat)
    requires NextEdges(edges, next) && e < |next|
    ensures next[e] == LastEdge(edges, edges[e].source, e)
  {
  }

  lemma FirstEdgeOf(edges: seq<Edge>, first: seq<Option<nat>>, coder: nat)
    requires FirstEdges(edges, first, |edges|) && coder < |first|
    ensures first[coder] == LastEdge(edges, coder, |edges|)
  {
  }

  // ---------------------------------------------------------------------
  // Counting incoming edges
  // ---------------------------------------------------------------------

  /** How many edges below `k` in `live` enter `coder`. */
  ghost function InCount(edges: seq<Edge>, live: set<nat>, coder: nat, k: nat): nat
    requires k <= |edges|
  {
    if k == 0 then 0
    else InCount(edges, live, coder, k - 1) + if k - 1 in live && edges[k - 1].destination == coder then 1 else 0
  }

  lemma {:induction false} InCountRemove(edges: seq<Edge>, live: set<nat>, e: nat, coder: nat, k: nat)
    requires k <= |edges| && e < |edges| && e in live
    ensures InCount(edges, live, coder, k)
         == InCount(edges, live - {e}, coder, k) + if e < k && edges[e].destination == coder then 1 else 0
  {
    if k > 0 {
      InCountRemove(edges, live, e, coder, k - 1);
    }
  }

  lemma {:induction false} InCountZero(edges: seq<Edge>, live: set<nat>, coder: nat, k: nat)
    requires k <= |edges|
    ensures InCount(edges, live, coder, k) == 0 <==>
            forall e | 0 <= e < k && e in live :: edges[e].destination != coder
  {
    if k > 0 {
      InCountZero(edges, live, coder, k - 1);
    }
  }

  // ---------------------------------------------------------------------
  // The state of the sort
  // ---------------------------------------------------------------------

  /** `incoming` counts the live edges into every coder. */
  ghost predicate Counts(edges: seq<Edge>, incoming: seq<nat>, live: set<nat>) {
    forall d | 0 <= d < |incoming| :: incoming[d] == InCount(edges, live, d, |edges|)
  }

  /** The stack holds exactly the coders not yet visited that no live edge enters, each once. */
  ghost predicate Stack(ready: seq<nat>, incoming: seq<nat>, done: set<nat>) {
    && (forall i, j | 0 <= i < j < |ready| :: ready[i] != ready[j])
    && (forall c | c in ready :: c < |incoming|)
    && (forall c | 0 <= c < |incoming| :: c in ready <==> c !in done && incoming[c] == 0)
  }

  /** Visited coders are ranked in the order of their visit, below the number visited. */
  ghost predicate Ranked(edges: seq<Edge>, rank: seq<nat>, done: set<nat>, n: nat)
    requires InRange(edges, |rank|)
  {
    && (forall c | c in done :: c < |rank| && rank[c] < n)
    && (forall e | 0 <= e < |edges| && edges[e].destination in done ::
          edges[e].source in done && Upward(edges, rank, e))
  }

  /** Edges out of visited coders are gone, except those of `coder` below `k`. */
  ghost predicate LiveEdges(edges: seq<Edge>, live: set<nat>, done: set<nat>, coder: nat, k: nat) {
    && (forall e | e in live :: e < |edges| && edges[e].destination !in done)
    && (forall e | 0 <= e < |edges| ::
          e in live <==> edges[e].source !in done || (edges[e].source == coder && e < k))
  }

  /** Everything between two visits; `k` is zero then, and bounds the edges left to remove during one. */
  ghost predicate SortState(
    edges: seq<Edge>, incoming: seq<nat>, ready: seq<nat>, done: set<nat>, live: set<nat>, rank: seq<nat>,
    visited: nat, coder: nat, k: nat)
  {
    && |rank| == |incoming| && InRange(edges, |incoming|)
    && |done| == visited
    && Counts(edges, incoming, live)
    && Stack(ready, incoming, done)
    && Ranked(edges, rank, done, visited)
    && LiveEdges(edges, live, done, coder, k)
  }

  /** Popping a coder visits it: nothing live enters it, so all its sources are ranked already. */
  lemma Pop(
    edges: seq<Edge>, incoming: seq<nat>, ready: seq<nat>, done: set<nat>, live: set<nat>, rank: seq<nat>,
    visited: nat, last: nat)
    requires SortState(edges, incoming, ready, done, live, rank, visited, last, 0) && ready != []
    ensures var coder := ready[|ready| - 1];
            && coder < |incoming| && coder < |rank| && coder !in done
            && SortState(edges, incoming, ready[..|ready| - 1], done + {coder}, live, rank[coder := visited],
                         visited + 1, coder, |edges|)
  {
    var coder := ready[|ready| - 1];
    assert coder in ready;
    InCountZero(edges, live, coder, |edges|);
    PopRank(edges, live, done, rank, visited, coder, last);
    PopStack(ready, incoming, done);
  }

  lemma PopStack(ready: seq<nat>, incoming: seq<nat>, done: set<nat>)
    requires Stack(ready, incoming, done) && ready != []
    ensures Stack(ready[..|ready| - 1], incoming, done + {ready[|ready| - 1]})
  {
    var rest, coder := ready[..|ready| - 1], ready[|ready| - 1];
    assert ready == rest + [coder];
    assert forall c :: c in ready <==> c in rest || c == coder;
  }

  lemma PopRank(
    edges: seq<Edge>, live: set<nat>, done: set<nat>, rank: seq<nat>, visited: nat, coder: nat, last: nat)
    requires InRange(edges, |rank|) && coder < |rank| && coder !in done
    requires Ranked(edges, rank, done, visited) && LiveEdges(edges, live, done, last, 0)
    requires forall e | 0 <= e < |edges| && e in live :: edges[e].destination != coder
    ensures Ranked(edges, rank[coder := visited], done + {coder}, visited + 1)
    ensures LiveEdges(edges, live, done + {coder}, coder, |edges|)
  {
    var rank' := rank[coder := visited];
    forall e | 0 <= e < |edges| && edges[e].destination in done + {coder}
      ensures edges[e].source in done + {coder} && Upward(edges, rank', e)
    {
      if edges[e].destination == coder {
        assert e !in live;
      } else {
        assert Upward(edges, rank, e);
      }
    }
  }

  lemma VisitedFits(
    edges: seq<Edge>, incoming: seq<nat>, ready: seq<nat>, done: set<nat>, live: set<nat>, rank: seq<nat>,
    visited: nat, coder: nat, k: nat)
    requires SortState(edges, incoming, ready, done, live, rank, visited, coder, k)
    ensures |done| == visited <= |incoming|
  {
    SubsetOfAll(done, |incoming|);
  }

  /** Removing one edge of the visited coder; its destination is pushed when nothing else enters it. */
  lemma RemoveEdge(
    edges: seq<Edge>, incoming: seq<nat>, ready: seq<nat>, done: set<nat>, live: set<nat>, rank: seq<nat>,
    visited: nat, coder: nat, k: nat, e: nat)
    requires SortState(edges, incoming, ready, done, live, rank, visited, coder, k)
    requires k <= |edges| && LastEdge(edges, coder, k) == Some(e) && coder in done
    ensures var d := edges[e].destination;
            && d < |incoming| && incoming[d] > 0
            && var incoming' := incoming[d := incoming[d] - 1];
            && var ready' := if incoming'[d] == 0 then ready + [d] else ready;
            && SortState(edges, incoming', ready', done, live - {e}, rank, visited, coder, e)
  {
    hide Stack, InCount, LastEdge;
    assert e in live;
    forall c | 0 <= c < |incoming|
      ensures incoming[c] == InCount(edges, live - {e}, c, |edges|) + if edges[e].destination == c then 1 else 0
    {
      InCountRemove(edges, live, e, c, |edges|);
    }
    var d := edges[e].destination;
    assert d !in done;
    RemoveStack(ready, incoming, done, d);
  }

  lemma RemoveStack(ready: seq<nat>, incoming: seq<nat>, done: set<nat>, d: nat)
    requires Stack(ready, incoming, done) && d < |incoming| && incoming[d] > 0 && d !in done
    ensures var incoming' := incoming[d := incoming[d] - 1];
            Stack(if incoming'[d] == 0 then ready + [d] else ready, incoming', done)
  {
    assert d !in ready;
    assert forall c :: c in ready + [d] <==> c in ready || c == d;
  }

  /** The visited coder's edges are all gone. */
  lemma EdgesDone(
    edges: seq<Edge>, incoming: seq<nat>, ready: seq<nat>, done: set<nat>, live: set<nat>, rank: seq<nat>,
    visited: nat, coder: nat, k: nat)
    requires k <= |edges| && LastEdge(edges, coder, k) == None
    requires SortState(edges, incoming, ready, done, live, rank, visited, coder, k)
    ensures SortState(edges, incoming, ready, done, live, rank, visited, coder, 0)
  {
  }

  ghost function Below(n: nat): (s: set<nat>)
    ensures |s| == n && forall c: nat :: c in s <==> c < n
  {
    if n == 0 then {} else Below(n - 1) + {n - 1}
  }

  lemma SubsetOfAll(done: set<nat>, n: nat)
    requires forall c | c in done :: c < n
    ensures |done| <= n
    ensures |done| == n <==> forall c | 0 <= c < n :: c in done
  {
    SubsetSize(done, Below(n));
    if forall c | 0 <= c < n :: c in done {
      assert done == Below(n);
    }
  }

  lemma SubsetSize(a: set<nat>, b: set<nat>)
    requires a <= b
    ensures |a| <= |b| && (|a| == |b| ==> a == b)
  {
    assert b == a + (b - a);
  }

  /** With the stack empty, every unvisited coder is entered from another unvisited one. */
  lemma StuckSource(
    edges: seq<Edge>, incoming: seq<nat>, done: set<nat>, live: set<nat>, rank: seq<nat>, visited: nat,
    last: nat, c: nat) returns (e: nat)
    requires SortState(edges, incoming, [], done, live, rank, visited, last, 0)
    requires c < |incoming| && c !in done
    ensures e < |edges| && edges[e].destination == c && edges[e].source !in done
  {
    assert c !in [];
    InCountZero(edges, live, c, |edges|);
    e :| 0 <= e < |edges| && e in live && edges[e].destination == c;
  }

  lemma {:induction false} StuckIsCyclic(
    edges: seq<Edge>, incoming: seq<nat>, done: set<nat>, live: set<nat>, rank: seq<nat>, visited: nat,
    last: nat, order: seq<nat>, c: nat)
    requires SortState(edges, incoming, [], done, live, rank, visited, last, 0)
    requires |order| == |incoming| && IsRank(edges, order)
    ensures c < |incoming| ==> c in done
    decreases if c < |order| then order[c] else 0
  {
    if c < |incoming| && c !in done {
      var e := StuckSource(edges, incoming, done, live, rank, visited, last, c);
      assert Upward(edges, order, e);
      StuckIsCyclic(edges, incoming, done, live, rank, visited, last, order, edges[e].source);
    }
  }

  /** When the stack runs empty, all coders were visited if and only if the graph is acyclic. */
  lemma SortDecides(
    edges: seq<Edge>, incoming: seq<nat>, done: set<nat>, live: set<nat>, rank: seq<nat>, visited: nat, last: nat)
    requires SortState(edges, incoming, [], done, live, rank, visited, last, 0)
    ensures visited <= |incoming|
    ensures visited == |incoming| <==> Acyclic(edges, |incoming|)
  {
    SubsetOfAll(done, |incoming|);
    if visited == |incoming| {
      forall e | 0 <= e < |edges|
        ensures Upward(edges, rank, e)
      {
      }
      assert IsRank(edges, rank);
    }
    if Acyclic(edges, |incoming|) {
      var order: seq<nat> :| |order| == |incoming| && IsRank(edges, order);
      forall c | 0 <= c < |incoming|
        ensures c in done
      {
        StuckIsCyclic(edges, incoming, done, live, rank, visited, last, order, c);
      }
    }
  }

  /** The coders no edge enters, in order. */
  method InitialStack(incoming: array<nat>) returns (ready: seq<nat>)
    ensures Stack(ready, incoming[..], {})
  {
    ready := [];
    for index := 0 to incoming.Length
      invariant forall i, j | 0 <= i < j < |ready| :: ready[i] < ready[j]
      invariant forall c | c in ready :: c < index
      invariant forall c | 0 <= c < index :: c in ready <==> incoming[c] == 0
    {
      if incoming[index] == 0 {
        assert forall c :: c in ready + [index] <==> c in ready || c == index;
        assert forall i | 0 <= i < |ready| :: ready[i] in ready;
        ready := ready + [index];
      }
    }
  }

  lemma StartState(edges: seq<Edge>, incoming: seq<nat>, ready: seq<nat>, live: set<nat>, rank: seq<nat>)
    requires |rank| == |incoming| && InRange(edges, |incoming|) && Stack(ready, incoming, {})
    requires Counts(edges, incoming, live) && live == Below(|edges|)
    ensures SortState(edges, incoming, ready, {}, live, rank, 0, 0, 0)
  {
  }

  method Decrement(counts: array<nat>, i: nat)
    requires i < counts.Length && counts[i] > 0
    modifies counts
    ensures counts[..] == old(counts[..])[i := old(counts[i]) - 1]
  {
    counts[i] := counts[i] - 1;
  }

  /** Removes the edges of a visited coder, last first, pushing the coders that nothing enters any more. */
  method RemoveEdges(
    edges: seq<Edge>, incoming: array<nat>, stack: seq<nat>, first: seq<Option<nat>>, next: seq<Option<nat>>,
    coder: nat, ghost done: set<nat>, ghost before: set<nat>, ghost rank: seq<nat>, ghost visited: nat)
    returns (ready: seq<nat>, ghost live: set<nat>)
    requires |first| == incoming.Length && |next| == |edges| && coder < incoming.Length && coder in done
    requires FirstEdges(edges, first, |edges|) && NextEdges(edges, next)
    requires SortState(edges, incoming[..], stack, done, before, rank, visited, coder, |edges|)
    modifies incoming
    ensures SortState(edges, incoming[..], ready, done, live, rank, visited, coder, 0)
  {
    hide SortState, FirstEdges, NextEdges;
    ready, live := stack, before;
    FirstEdgeOf(edges, first, coder);
    var edge := first[coder];
    ghost var k: nat := |edges|;
    while edge.Some?
      invariant k <= |edges| && edge == LastEdge(edges, coder, k)
      invariant SortState(edges, incoming[..], ready, done, live, rank, visited, coder, k)
      decreases k
    {
      var index := edge.value;
      RemoveEdge(edges, incoming[..], ready, done, live, rank, visited, coder, k, index);
      var destination := edges[index].destination;
      Decrement(incoming, destination);
      if incoming[destination] == 0 {
        ready := ready + [destination];
      }
      NextEdgeOf(edges, next, index);
      live, k := live - {index}, index;
      edge := next[index];
    }
    EdgesDone(edges, incoming[..], ready, done, live, rank, visited, coder, k);
  }

  /** Visits coders as their last source is visited; `incoming` is used up. */
  method VisitAll(edges: seq<Edge>, incoming: array<nat>, first: seq<Option<nat>>, next: seq<Option<nat>>)
    returns (visited: nat)
    requires InRange(edges, incoming.Length) && |first| == incoming.Length && |next| == |edges|
    requires FirstEdges(edges, first, |edges|) && NextEdges(edges, next)
    requires Counts(edges, incoming[..], Below(|edges|))
    modifies incoming
    ensures visited <= incoming.Length
    ensures visited == incoming.Length <==> Acyclic(edges, incoming.Length)
  {
    hide SortState, Acyclic, Below, InCount, NextEdges, LiveEdges;
    var ready := InitialStack(incoming);
    visited := 0;
    ghost var done: set<nat>, live, last: nat := {}, Below(|edges|), 0;
    ghost var rank: seq<nat> := seq(incoming.Length, _ => 0);
    StartState(edges, incoming[..], ready, live, rank);
    while ready != []
      invariant SortState(edges, incoming[..], ready, done, live, rank, visited, last, 0)
      decreases incoming.Length - |done|
    {
      Pop(edges, incoming[..], ready, done, live, rank, visited, last);
      var coder := ready[|ready| - 1];
      ready := ready[..|ready| - 1];
      done, rank, last := done + {coder}, rank[coder := visited], coder;
      visited := visited + 1;
      VisitedFits(edges, incoming[..], ready, done, live, rank, visited, coder, |edges|);
      ready, live := RemoveEdges(edges, incoming, ready, first, next, coder, done, live, rank, visited);
    }
    SortDecides(edges, incoming[..], done, live, rank, visited, last);
  }
}
