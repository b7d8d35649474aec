/** The check that a requirement set's dependencies contain no directed cycle. */
module DependencyGraph {
  import opened Collections
  import opened Digraphs

  /** A dependency as the caller writes it: one-based item positions. */
  datatype Edge = Edge(sourceItemNumber: int, targetItemNumber: int)

  datatype Verdict = Accepted | OutOfRange | SelfDependency | Circular

  predicate InRange(itemCount: nat, edge: Edge) {
    && 1 <= edge.sourceItemNumber <= itemCount
    && 1 <= edge.targetItemNumber <= itemCount
  }

  ghost function Links(edges: seq<Edge>): set<(int, int)> {
    set e | e in edges :: (e.sourceItemNumber, e.targetItemNumber)
  }

  /** The first edge that is malformed by itself, in input order. */
  function FirstFault(itemCount: nat, edges: seq<Edge>): (fault: Option<Verdict>)
    ensures fault.Some? ==> fault.value == OutOfRange || fault.value == SelfDependency
  {
    if edges == [] then None
    else if !InRange(itemCount, edges[0]) then Some(OutOfRange)
    else if edges[0].sourceItemNumber == edges[0].targetItemNumber then Some(SelfDependency)
    else FirstFault(itemCount, edges[1..])
  }

  /** What the check must answer: a malformed edge first, otherwise the absence of cycles. */
  ghost function Judgement(itemCount: nat, edges: seq<Edge>): Verdict {
    match FirstFault(itemCount, edges)
    case Some(fault) => fault
    case None => if Acyclic(Links(edges)) then Accepted else Circular
  }

  lemma {:induction false} NoFaultMeansWellFormed(itemCount: nat, edges: seq<Edge>)
    ensures FirstFault(itemCount, edges).None? <==>
            forall e | e in edges :: InRange(itemCount, e) && e.sourceItemNumber != e.targetItemNumber
  {
    if edges == [] {
    } else {
      NoFaultMeansWellFormed(itemCount, edges[1..]);
      assert edges == [edges[0]] + edges[1..];
    }
  }

  lemma {:induction false} FaultIgnoresRest(itemCount: nat, before: seq<Edge>, rest: seq<Edge>)
    requires FirstFault(itemCount, before).None?
    ensures FirstFault(itemCount, before + rest) == FirstFault(itemCount, rest)
  {
    if before == [] {
      assert before + rest == rest;
    } else {
      assert (before + rest)[1..] == before[1..] + rest;
      FaultIgnoresRest(itemCount, before[1..], rest);
    }
  }

  // ---------------------------------------------------------------- the depth-first search

  type Adjacency = seq<seq<nat>>

  ghost predicate InBounds(graph: Adjacency) {
    forall v, k :: 0 <= v < |graph| && 0 <= k < |graph[v]| ==> graph[v][k] < |graph|
  }

  ghost function Arcs(graph: Adjacency): set<(nat, nat)> {
    set v: nat, w: nat | v < |graph| && w in graph[v] :: (v, w)
  }

  ghost function White(state: seq<nat>): set<nat> {
    set v: nat | v < |state| && state[v] == 0
  }

  /** The colours during a search: grey (1) is the walk to the current node, black (2) is closed under
      successors and touches no cycle. */
  ghost predicate Coloured(graph: Adjacency, state: seq<nat>, grey: seq<nat>) {
    && |state| == |graph|
    && (forall v: nat :: v < |graph| ==> state[v] <= 2)
    && IsWalk(Arcs(graph), grey)
    && (forall v | v in grey :: v < |graph|)
    && (forall v: nat :: v < |graph| ==> (state[v] == 1 <==> v in grey))
    && (forall v: nat, k: nat :: v < |graph| && k < |graph[v]| && state[v] == 2 ==> graph[v][k] < |graph| && state[graph[v][k]] == 2)
    && (forall walk: seq<nat> :: IsCycle(Arcs(graph), walk) ==> walk[0] < |graph| && state[walk[0]] != 2)
  }

  lemma GreyHitClosesCycle(graph: Adjacency, grey: seq<nat>, node: nat)
    requires IsWalk(Arcs(graph), grey) && node in grey
    requires (grey[|grey| - 1], node) in Arcs(graph)
    ensures !Acyclic(Arcs(graph))
  {
    var i :| 0 <= i < |grey| && grey[i] == node;
    var walk := grey[i..] + [node];
    forall k | 0 <= k < |walk| - 1 ensures (walk[k], walk[k + 1]) in Arcs(graph) {
      if k + 1 < |grey| - i {
        assert (grey[i + k], grey[i + k + 1]) in Arcs(graph);
      }
    }
    assert IsCycle(Arcs(graph), walk);
  }

  lemma FinishedNodeTouchesNoCycle(graph: Adjacency, state: seq<nat>, grey: seq<nat>, node: nat, walk: seq<nat>)
    requires node < |graph| && Coloured(graph, state, grey)
    requires forall k :: 0 <= k < |graph[node]| ==> graph[node][k] < |graph| && state[graph[node][k]] == 2
    requires IsCycle(Arcs(graph), walk)
    ensures walk[0] != node
  {
    if walk[0] == node {
      assert (walk[0], walk[1]) in Arcs(graph);
      assert state[(walk[1..] + [walk[1]])[0]] == 2;
      CycleRotates(Arcs(graph), walk);
      assert false;
    }
  }

  lemma EnteringColours(graph: Adjacency, state: seq<nat>, grey: seq<nat>, node: nat)
    requires Coloured(graph, state, grey) && node < |graph| && state[node] == 0
    requires grey == [] || (grey[|grey| - 1], node) in Arcs(graph)
    ensures Coloured(graph, state[node := 1], grey + [node]) && node !in grey
    ensures White(state[node := 1]) < White(state)
  {
    var next, path := state[node := 1], grey + [node];
    assert IsWalk(Arcs(graph), path);
    assert forall v :: v in path <==> v in grey || v == node;
    assert node in White(state) && node !in White(next);
  }

  lemma LeavingColours(graph: Adjacency, state: seq<nat>, grey: seq<nat>, node: nat)
    requires Coloured(graph, state, grey + [node]) && node < |graph| && node !in grey
    requires forall k :: 0 <= k < |graph[node]| ==> graph[node][k] < |graph| && state[graph[node][k]] == 2
    ensures Coloured(graph, state[node := 2], grey)
  {
    var next, path := state[node := 2], grey + [node];
    assert forall v :: v in path <==> v in grey || v == node;
    forall walk: seq<nat> | IsCycle(Arcs(graph), walk) ensures walk[0] < |graph| && next[walk[0]] != 2 {
      FinishedNodeTouchesNoCycle(graph, state, path, node, walk);
    }
    forall k | 0 <= k < |grey| - 1 ensures (grey[k], grey[k + 1]) in Arcs(graph) {
      assert (path[k], path[k + 1]) in Arcs(graph);
    }
  }

  lemma FewerWhite(before: seq<nat>, after: seq<nat>, node: nat)
    requires |before| == |after| && node < |before| && before[node] == 0 && after[node] != 0
    requires forall v: nat :: v < |before| && before[v] != 0 ==> after[v] == before[v]
    ensures White(after) < White(before)
  {
    assert node in White(before) && node !in White(after);
  }

  method Visit(graph: Adjacency, state: array<nat>, node: nat, ghost grey: seq<nat>) returns (circular: bool)
    requires InBounds(graph) && node < |graph|
    requires Coloured(graph, state[..], grey)
    requires grey == [] || (grey[|grey| - 1], node) in Arcs(graph)
    modifies state
    ensures circular ==> !Acyclic(Arcs(graph))
    ensures !circular ==> Coloured(graph, state[..], grey) && state[node] == 2
    ensures !circular ==> forall v: nat :: v < |graph| && old(state[v]) != 0 ==> state[v] == old(state[v])
    decreases White(state[..])
  {
    if state[node] == 1 {
      GreyHitClosesCycle(graph, grey, node);
      return true;
    }
    if state[node] == 2 {
      return false;
    }
    ghost var before := state[..];
    state[node] := 1;
    assert state[..] == before[node := 1];
    ghost var path := grey + [node];
    EnteringColours(graph, before, grey, node);
    var i := 0;
    while i < |graph[node]|
      invariant 0 <= i <= |graph[node]|
      invariant Coloured(graph, state[..], path)
      invariant forall k :: 0 <= k < i ==> state[graph[node][k]] == 2
      invariant state[node] == 1
      invariant forall v: nat :: v < |graph| && before[v] != 0 ==> state[v] == before[v]
    {
      FewerWhite(before, state[..], node);
      assert (node, graph[node][i]) in Arcs(graph);
      var found := Visit(graph, state, graph[node][i], path);
      if found {
        return true;
      }
      i := i + 1;
    }
    LeavingColours(graph, state[..], grey, node);
    ghost var done := state[..][node := 2];
    state[node] := 2;
    assert state[..] == done;
    return false;
  }

  method HasCycle(graph: Adjacency) returns (circular: bool)
    requires InBounds(graph)
    ensures circular <==> !Acyclic(Arcs(graph))
  {
    var state := new nat[|graph|](_ => 0);
    forall walk: seq<nat> | IsCycle(Arcs(graph), walk) ensures walk[0] < |graph| {
      assert (walk[0], walk[1]) in Arcs(graph);
    }
    var node := 0;
    while node < |graph|
      invariant 0 <= node <= |graph|
      invariant Coloured(graph, state[..], [])
      invariant forall v :: 0 <= v < node ==> state[v] == 2
    {
      var found := Visit(graph, state, node, []);
      if found {
        return true;
      }
      node := node + 1;
    }
    return false;
  }

  /** The one-based edge between two zero-based nodes. */
  function EdgeBetween(source: nat, target: nat): Edge {
    Edge(source + 1, target + 1)
  }

  function NodeAt(position: int): nat {
    if position >= 1 then position - 1 else 0
  }

  ghost predicate Represents(graph: Adjacency, itemCount: nat, edges: seq<Edge>) {
    && |graph| == itemCount
    && forall v: nat, w: nat :: v < itemCount ==> (w in graph[v] <==> EdgeBetween(v, w) in edges)
  }

  lemma AdjacencyAcyclic(graph: Adjacency, edges: seq<Edge>)
    requires Represents(graph, |graph|, edges) && Acyclic(Links(edges))
    ensures Acyclic(Arcs(graph))
  {
    var arcs, links := Arcs(graph), Links(edges);
    var ends := (set a | a in arcs :: a.0) + (set a | a in arcs :: a.1);
    var naming: map<nat, int> := map v | v in ends :: EdgeBetween(v, v).sourceItemNumber;
    forall a | a in arcs ensures a.0 in naming && a.1 in naming && (naming[a.0], naming[a.1]) in links {
      assert EdgeBetween(a.0, a.1) in edges;
    }
    ImageAcyclicImpliesAcyclic(arcs, links, naming);
  }

  lemma EdgesAcyclic(graph: Adjacency, edges: seq<Edge>)
    requires Represents(graph, |graph|, edges) && Acyclic(Arcs(graph))
    requires forall e | e in edges :: InRange(|graph|, e)
    ensures Acyclic(Links(edges))
  {
    var arcs, links := Arcs(graph), Links(edges);
    var naming: map<int, nat> := map p | p in (set l | l in links :: l.0) + (set l | l in links :: l.1) :: NodeAt(p);
    forall l | l in links ensures l.0 in naming && l.1 in naming && (naming[l.0], naming[l.1]) in arcs {
      assert EdgeBetween(NodeAt(l.0), NodeAt(l.1)) in edges;
    }
    ImageAcyclicImpliesAcyclic(links, arcs, naming);
  }

  method ValidateDependencyGraph(itemCount: nat, dependencies: seq<Edge>) returns (verdict: Verdict)
    ensures verdict == Judgement(itemCount, dependencies)
  {
    var graph: Adjacency := seq(itemCount, _ => []);
    for i := 0 to |dependencies|
      invariant InBounds(graph) && Represents(graph, itemCount, dependencies[..i])
      invariant FirstFault(itemCount, dependencies[..i]).None?
    {
      var edge := dependencies[i];
      assert dependencies == dependencies[..i] + dependencies[i..];
      FaultIgnoresRest(itemCount, dependencies[..i], dependencies[i..]);
      var source, target := edge.sourceItemNumber - 1, edge.targetItemNumber - 1;
      if source < 0 || target < 0 || source >= itemCount || target >= itemCount {
        return OutOfRange;
      }
      if source == target {
        return SelfDependency;
      }
      graph := graph[source := graph[source] + [target]];
      assert dependencies[..i + 1] == dependencies[..i] + [edge];
      FaultIgnoresRest(itemCount, dependencies[..i], [edge]);
    }
    assert dependencies[..|dependencies|] == dependencies;
    NoFaultMeansWellFormed(itemCount, dependencies);
    var circular := HasCycle(graph);
    if circular {
      if Acyclic(Links(dependencies)) {
        AdjacencyAcyclic(graph, dependencies);
      }
      return Circular;
    }
    EdgesAcyclic(graph, dependencies);
    return Accepted;
  }
}
