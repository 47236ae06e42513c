/** The node order of `Genome.determine_activation_order`: a topological order of the
    input-only subgraph, followed by repeated passes over the remaining node ids that
    place every node whose other sources are already placed. */
module ActivationOrder {
  import opened NeatTypes
  import opened Seqs

  /** Which sources a node must wait for before it is placed. */
  datatype Rule =
    /** The input-only subgraph: every input node with an edge into the node, the node
        itself included (an input self-loop is a cycle there). */
    | InputEdges(inputIds: seq<int>)
    /** The main loop: every other node with an edge into the node, enabled or not. */
    | OtherSources

  predicate Waits(rule: Rule, p: int, n: int) {
    match rule
    case InputEdges(ids) => p in ids
    case OtherSources => p != n
  }

  /** Every source that `n` waits for under `rule` is already in `placed`. */
  predicate Ready(connections: seq<Connection>, rule: Rule, n: int, placed: seq<int>) {
    forall k :: 0 <= k < |connections| ==>
      (connections[k].outputNode == n && Waits(rule, connections[k].inputNode, n)
       ==> connections[k].inputNode in placed)
  }

  /** One scan over `scan`: each ready node is appended to `placed` at once (later nodes
      of the same scan see it); the result is the grown order and the nodes left over. */
  function Pass(connections: seq<Connection>, rule: Rule, scan: seq<int>, placed: seq<int>)
    : (r: (seq<int>, seq<int>))
    ensures |r.0| >= |placed| && r.0[..|placed|] == placed
    ensures |r.0| + |r.1| == |placed| + |scan|
    decreases |scan|
  {
    if scan == [] then (placed, [])
    else if Ready(connections, rule, scan[0], placed) then
      var r := Pass(connections, rule, scan[1..], placed + [scan[0]]);
      assert r.0[..|placed|] == (r.0[..|placed| + 1])[..|placed|];
      r
    else
      var r := Pass(connections, rule, scan[1..], placed);
      (r.0, [scan[0]] + r.1)
  }

  /** Passes repeated while nodes remain; a pass that places nothing ends the loop with
      the left-over nodes (the source then loops for ever). */
  function Passes(connections: seq<Connection>, rule: Rule, remaining: seq<int>, placed: seq<int>)
    : (r: (seq<int>, seq<int>))
    ensures |r.0| >= |placed| && r.0[..|placed|] == placed
    decreases |remaining|
  {
    if remaining == [] then (placed, [])
    else
      var p := Pass(connections, rule, remaining, placed);
      if |p.0| == |placed| then (placed, remaining)
      else
        var r := Passes(connections, rule, p.1, p.0);
        assert r.0[..|placed|] == (r.0[..|p.0|])[..|placed|];
        r
  }

  /** A pass only moves nodes from the scan to the order: nothing is lost or duplicated. */
  lemma {:induction false} PassPermutes(connections: seq<Connection>, rule: Rule, scan: seq<int>,
                                        placed: seq<int>)
    ensures var r := Pass(connections, rule, scan, placed);
      multiset(r.0) + multiset(r.1) == multiset(placed) + multiset(scan)
    decreases |scan|
  {
    if scan != [] {
      assert scan == [scan[0]] + scan[1..];
      if Ready(connections, rule, scan[0], placed) {
        PassPermutes(connections, rule, scan[1..], placed + [scan[0]]);
      } else {
        var q := Pass(connections, rule, scan[1..], placed);
        PassPermutes(connections, rule, scan[1..], placed);
        calc {
          multiset(q.0) + multiset([scan[0]] + q.1);
          multiset(q.0) + (multiset([scan[0]]) + multiset(q.1));
          (multiset(q.0) + multiset(q.1)) + multiset([scan[0]]);
          (multiset(placed) + multiset(scan[1..])) + multiset([scan[0]]);
          multiset(placed) + (multiset([scan[0]]) + multiset(scan[1..]));
        }
      }
    }
  }

  /** The whole loop only moves nodes from the remaining ones to the order. */
  lemma {:induction false} PassesPermutes(connections: seq<Connection>, rule: Rule,
                                          remaining: seq<int>, placed: seq<int>)
    ensures var r := Passes(connections, rule, remaining, placed);
      multiset(r.0) + multiset(r.1) == multiset(placed) + multiset(remaining)
    decreases |remaining|
  {
    if remaining != [] {
      var p := Pass(connections, rule, remaining, placed);
      PassPermutes(connections, rule, remaining, placed);
      if |p.0| != |placed| {
        PassesPermutes(connections, rule, p.1, p.0);
      }
    }
  }

  /** A pass places each node only once all its awaited sources precede it, and when it
      places nothing, none of the scanned nodes is ready. */
  lemma {:induction false} PassSpec(connections: seq<Connection>, rule: Rule, scan: seq<int>,
                                    placed: seq<int>)
    ensures var r := Pass(connections, rule, scan, placed);
      && (forall i :: |placed| <= i < |r.0| ==> Ready(connections, rule, r.0[i], r.0[..i]))
      && (|r.0| == |placed| ==>
            r.1 == scan && forall j :: 0 <= j < |scan| ==> !Ready(connections, rule, scan[j], placed))
    decreases |scan|
  {
    if scan != [] {
      assert scan == [scan[0]] + scan[1..];
      var r := Pass(connections, rule, scan, placed);
      if Ready(connections, rule, scan[0], placed) {
        var placed' := placed + [scan[0]];
        PassSpec(connections, rule, scan[1..], placed');
        assert r.0[..|placed'|] == placed';
        forall i | |placed| <= i < |r.0| ensures Ready(connections, rule, r.0[i], r.0[..i]) {
          if i == |placed| {
            assert r.0[i] == placed'[i] && r.0[..i] == placed'[..i];
            assert placed'[i] == scan[0] && placed'[..i] == placed;
          }
        }
      } else {
        PassSpec(connections, rule, scan[1..], placed);
      }
    }
  }

  /** The placement half of `PassesSpec`, for the order grown by `Passes`. */
  lemma {:induction false} PassesPlacesReady(connections: seq<Connection>, rule: Rule,
                                             remaining: seq<int>, placed: seq<int>, i: int)
    requires |placed| <= i < |Passes(connections, rule, remaining, placed).0|
    ensures var order := Passes(connections, rule, remaining, placed).0;
      Ready(connections, rule, order[i], order[..i])
    decreases |remaining|
  {
    var p := Pass(connections, rule, remaining, placed);
    var r := Passes(connections, rule, p.1, p.0);
    PassSpec(connections, rule, remaining, placed);
    if i < |p.0| {
      assert r.0[..|p.0|] == p.0;
      assert r.0[i] == p.0[i] && r.0[..i] == p.0[..i];
    } else {
      PassesPlacesReady(connections, rule, p.1, p.0, i);
    }
  }

  /** The left-over half of `PassesSpec`. */
  lemma {:induction false} PassesLeavesUnready(connections: seq<Connection>, rule: Rule,
                                               remaining: seq<int>, placed: seq<int>, j: int)
    requires 0 <= j < |Passes(connections, rule, remaining, placed).1|
    ensures var r := Passes(connections, rule, remaining, placed);
      !Ready(connections, rule, r.1[j], r.0)
    decreases |remaining|
  {
    var p := Pass(connections, rule, remaining, placed);
    PassSpec(connections, rule, remaining, placed);
    if |p.0| != |placed| {
      PassesLeavesUnready(connections, rule, p.1, p.0, j);
    }
  }

  /** Every node the passes place has all its awaited sources before it; every node left
      over waits for a source that was never placed. */
  lemma {:induction false} PassesSpec(connections: seq<Connection>, rule: Rule,
                                      remaining: seq<int>, placed: seq<int>)
    ensures var r := Passes(connections, rule, remaining, placed);
      && (forall i :: |placed| <= i < |r.0| ==> Ready(connections, rule, r.0[i], r.0[..i]))
      && (forall j :: 0 <= j < |r.1| ==> !Ready(connections, rule, r.1[j], r.0))
    decreases |remaining|
  {
    var r := Passes(connections, rule, remaining, placed);
    forall i | |placed| <= i < |r.0| ensures Ready(connections, rule, r.0[i], r.0[..i]) {
      PassesPlacesReady(connections, rule, remaining, placed, i);
    }
    forall j | 0 <= j < |r.1| ensures !Ready(connections, rule, r.1[j], r.0) {
      PassesLeavesUnready(connections, rule, remaining, placed, j);
    }
  }

  /** One scan of the source's `for node_id in list(remaining_nodes)`, computing `Pass`. */
  method ScanOnce(connections: seq<Connection>, rule: Rule, scan: seq<int>, placed: seq<int>)
    returns (next: seq<int>, left: seq<int>)
    ensures (next, left) == Pass(connections, rule, scan, placed)
  {
    next, left := placed, [];
    var i := 0;
    assert scan[i..] == scan;
    while i < |scan|
      invariant 0 <= i <= |scan|
      invariant Pass(connections, rule, scan[i..], next).0 == Pass(connections, rule, scan, placed).0
      invariant left + Pass(connections, rule, scan[i..], next).1 == Pass(connections, rule, scan, placed).1
      decreases |scan| - i
    {
      assert scan[i..] == [scan[i]] + scan[i + 1..];
      assert scan[i..][1..] == scan[i + 1..];
      if Ready(connections, rule, scan[i], next) {
        next := next + [scan[i]];
      } else {
        assert left + [scan[i]] + Pass(connections, rule, scan[i + 1..], next).1
            == left + ([scan[i]] + Pass(connections, rule, scan[i + 1..], next).1);
        left := left + [scan[i]];
      }
      i := i + 1;
    }
    assert scan[i..] == [];
    assert Pass(connections, rule, scan[i..], next) == (next, []);
    assert left + [] == left;
  }

  /** The source's `while remaining_nodes` loop, computing `Passes`; where the source
      would spin for ever on a pass that places nothing, this returns the left-overs. */
  method PlaceByPasses(connections: seq<Connection>, rule: Rule, remaining: seq<int>, placed: seq<int>)
    returns (order: seq<int>, stuck: seq<int>)
    ensures (order, stuck) == Passes(connections, rule, remaining, placed)
  {
    order := placed;
    var rem := remaining;
    while rem != []
      invariant Passes(connections, rule, rem, order) == Passes(connections, rule, remaining, placed)
      decreases |rem|
    {
      var next, left := ScanOnce(connections, rule, rem, order);
      if |next| == |order| {
        stuck := rem;
        return;
      }
      order, rem := next, left;
    }
    stuck := [];
  }

  /** The ids of the input-type nodes, in node-list order. */
  function InputIds(nodes: seq<Node>): seq<int> {
    if nodes == [] then []
    else if nodes[0].nodeType == Input then [nodes[0].nodeId] + InputIds(nodes[1..])
    else InputIds(nodes[1..])
  }

  lemma {:induction false} InputIdsAreNodeIds(nodes: seq<Node>, x: int)
    requires x in InputIds(nodes)
    ensures HasNode(nodes, x)
  {
    if !(nodes[0].nodeType == Input && nodes[0].nodeId == x) {
      InputIdsAreNodeIds(nodes[1..], x);
      var i :| 0 <= i < |nodes[1..]| && nodes[1..][i].nodeId == x;
      assert nodes[i + 1].nodeId == x;
    }
  }

  /** `n` is an endpoint of an edge between two input nodes. */
  predicate InSubgraph(connections: seq<Connection>, inputIds: seq<int>, n: int) {
    && n in inputIds
    && exists k :: 0 <= k < |connections| &&
         ((connections[k].inputNode == n && connections[k].outputNode in inputIds)
          || (connections[k].outputNode == n && connections[k].inputNode in inputIds))
  }

  /** The nodes of the input-only subgraph, each once. */
  function SubgraphNodes(nodes: seq<Node>, connections: seq<Connection>): seq<int> {
    var ids := InputIds(nodes);
    Filter(Dedup(ids), n => InSubgraph(connections, ids, n))
  }

  /** Topological sort of the input-only subgraph: (order, nodes on or behind a cycle). */
  function InputPasses(nodes: seq<Node>, connections: seq<Connection>): (seq<int>, seq<int>) {
    Passes(connections, InputEdges(InputIds(nodes)), SubgraphNodes(nodes, connections), [])
  }

  /** Every distinct node id not placed by the input sort, in node-list order. */
  function MainRemaining(nodes: seq<Node>, connections: seq<Connection>): seq<int> {
    var inputOrder := InputPasses(nodes, connections).0;
    Filter(Dedup(NodeIds(nodes)), n => n !in inputOrder)
  }

  /** The main loop, started from the input order: (order, nodes it can never place). */
  function MainPasses(nodes: seq<Node>, connections: seq<Connection>): (seq<int>, seq<int>) {
    Passes(connections, OtherSources, MainRemaining(nodes, connections), InputPasses(nodes, connections).0)
  }

  datatype OrderError =
    /** `nx.topological_sort` raises on a cycle among input nodes. */
    | InputCycle
    /** A pass of the main loop places nothing; the source then loops for ever. */
    | Stalled

  /** The activation order of a genome, or why the source does not produce one. */
  function OrderOf(nodes: seq<Node>, connections: seq<Connection>): Result<seq<int>, OrderError> {
    if InputPasses(nodes, connections).1 != [] then Failure(InputCycle)
    else if MainPasses(nodes, connections).1 != [] then Failure(Stalled)
    else Success(MainPasses(nodes, connections).0)
  }

  /** Node ids and types are all the order reads of the node list: changing a bias or an
      activation function leaves it as it is. */
  lemma OrderOfByIdsAndTypes(nodes: seq<Node>, nodes': seq<Node>, connections: seq<Connection>)
    requires SameIdsAndTypes(nodes, nodes')
    ensures OrderOf(nodes', connections) == OrderOf(nodes, connections)
  {
    assert NodeIds(nodes) == NodeIds(nodes');
    InputIdsByIdsAndTypes(nodes, nodes');
  }

  lemma {:induction false} InputIdsByIdsAndTypes(nodes: seq<Node>, nodes': seq<Node>)
    requires SameIdsAndTypes(nodes, nodes')
    ensures InputIds(nodes) == InputIds(nodes')
    decreases |nodes|
  {
    if nodes != [] {
      InputIdsByIdsAndTypes(nodes[1..], nodes'[1..]);
    }
  }

  lemma HasNodeIffInNodeIds(nodes: seq<Node>, x: int)
    ensures HasNode(nodes, x) <==> x in NodeIds(nodes)
  {
    if HasNode(nodes, x) {
      var i :| 0 <= i < |nodes| && nodes[i].nodeId == x;
      assert NodeIds(nodes)[i] == x;
    }
  }

  /** The input sort places each subgraph node exactly once when it succeeds. */
  lemma InputOrderFacts(nodes: seq<Node>, connections: seq<Connection>)
    requires InputPasses(nodes, connections).1 == []
    ensures NoDups(InputPasses(nodes, connections).0)
    ensures forall x :: x in InputPasses(nodes, connections).0 <==> x in SubgraphNodes(nodes, connections)
  {
    var sub := InputPasses(nodes, connections);
    var subNodes := SubgraphNodes(nodes, connections);
    PassesPermutes(connections, InputEdges(InputIds(nodes)), subNodes, []);
    assert multiset(sub.0) + multiset(sub.1) == multiset(subNodes);
    assert multiset(sub.0) == multiset(subNodes);
    NoDupsByMultiset(subNodes, sub.0);
    forall x ensures x in sub.0 <==> x in subNodes {
      assert x in sub.0 <==> x in multiset(subNodes);
    }
  }

  /** When the order exists it holds every node id of the genome exactly once. */
  lemma OrderCoversEveryNodeOnce(nodes: seq<Node>, connections: seq<Connection>)
    requires OrderOf(nodes, connections).Success?
    ensures NoDups(OrderOf(nodes, connections).value)
    ensures forall x :: x in OrderOf(nodes, connections).value <==> HasNode(nodes, x)
  {
    var sub := InputPasses(nodes, connections);
    var rest := MainRemaining(nodes, connections);
    var main := MainPasses(nodes, connections);
    InputOrderFacts(nodes, connections);
    NoDupsConcat(sub.0, rest);
    PassesPermutes(connections, OtherSources, rest, sub.0);
    assert multiset(main.0) == multiset(sub.0 + rest);
    NoDupsByMultiset(sub.0 + rest, main.0);
    forall x ensures x in main.0 <==> HasNode(nodes, x) {
      HasNodeIffInNodeIds(nodes, x);
      assert x in main.0 <==> x in multiset(sub.0 + rest);
      if x in sub.0 {
        InputIdsAreNodeIds(nodes, x);
      }
    }
  }

  /** The order starts with the input sort, in which each input node follows every input
      node with an edge into it; every later node follows all its other sources. */
  lemma OrderIsTopological(nodes: seq<Node>, connections: seq<Connection>)
    requires OrderOf(nodes, connections).Success?
    ensures var order := OrderOf(nodes, connections).value;
      var inputOrder := InputPasses(nodes, connections).0;
      && |inputOrder| <= |order| && order[..|inputOrder|] == inputOrder
      && (forall i :: 0 <= i < |inputOrder| ==>
            Ready(connections, InputEdges(InputIds(nodes)), order[i], order[..i]))
      && (forall i :: |inputOrder| <= i < |order| ==>
            Ready(connections, OtherSources, order[i], order[..i]))
  {
    TwoStageTopological(connections, InputIds(nodes), SubgraphNodes(nodes, connections),
                        MainRemaining(nodes, connections));
  }

  /** `OrderIsTopological` for any two chained stages of passes. */
  lemma TwoStageTopological(connections: seq<Connection>, ids: seq<int>, first: seq<int>, rest: seq<int>)
    ensures var inputOrder := Passes(connections, InputEdges(ids), first, []).0;
      var order := Passes(connections, OtherSources, rest, inputOrder).0;
      && |inputOrder| <= |order| && order[..|inputOrder|] == inputOrder
      && (forall i :: 0 <= i < |inputOrder| ==> Ready(connections, InputEdges(ids), order[i], order[..i]))
      && (forall i :: |inputOrder| <= i < |order| ==> Ready(connections, OtherSources, order[i], order[..i]))
  {
    var inputOrder := Passes(connections, InputEdges(ids), first, []).0;
    var order := Passes(connections, OtherSources, rest, inputOrder).0;
    PassesSpec(connections, InputEdges(ids), first, []);
    PassesSpec(connections, OtherSources, rest, inputOrder);
    forall i | 0 <= i < |inputOrder| ensures Ready(connections, InputEdges(ids), order[i], order[..i]) {
      assert order[i] == inputOrder[i] && order[..i] == inputOrder[..i];
    }
  }

  /** Some connection runs from `p` into `n`. */
  predicate HasEdge(connections: seq<Connection>, p: int, n: int) {
    exists k :: 0 <= k < |connections| && connections[k].inputNode == p && connections[k].outputNode == n
  }

  /** `stuck[j]` waits, under `rule`, for a node that has an edge into it and is also in `stuck`. */
  predicate WaitsOnLeftover(connections: seq<Connection>, rule: Rule, stuck: seq<int>, j: int)
    requires 0 <= j < |stuck|
  {
    exists m :: 0 <= m < |stuck| && HasEdge(connections, stuck[m], stuck[j]) && Waits(rule, stuck[m], stuck[j])
  }

  /** When every source a node may wait for is itself among the nodes handled, each
      node left over waits for another left-over node. */
  lemma LeftoversWaitOnLeftovers(connections: seq<Connection>, rule: Rule, handled: seq<int>,
                                 order: seq<int>, stuck: seq<int>)
    requires multiset(order) + multiset(stuck) == multiset(handled)
    requires forall j :: 0 <= j < |stuck| ==> !Ready(connections, rule, stuck[j], order)
    requires forall k :: 0 <= k < |connections| && connections[k].outputNode in handled
               && Waits(rule, connections[k].inputNode, connections[k].outputNode)
               ==> connections[k].inputNode in handled
    ensures forall j :: 0 <= j < |stuck| ==> WaitsOnLeftover(connections, rule, stuck, j)
  {
    forall j | 0 <= j < |stuck| ensures WaitsOnLeftover(connections, rule, stuck, j) {
      var n := stuck[j];
      assert n in multiset(handled);
      assert !Ready(connections, rule, n, order);
      var k :| 0 <= k < |connections| && connections[k].outputNode == n
        && Waits(rule, connections[k].inputNode, n) && connections[k].inputNode !in order;
      var p := connections[k].inputNode;
      assert p in multiset(order) + multiset(stuck);
      var m :| 0 <= m < |stuck| && stuck[m] == p;
      assert HasEdge(connections, stuck[m], stuck[j]);
    }
  }

  /** When the main loop stalls, every node it leaves over has an edge from another node
      that is itself left over: the left-overs contain a cycle. */
  lemma StallLeavesCycle(nodes: seq<Node>, connections: seq<Connection>)
    requires ConnectionsResolve(nodes, connections)
    requires OrderOf(nodes, connections) == Failure(Stalled)
    ensures var stuck := MainPasses(nodes, connections).1;
      && stuck != []
      && forall j :: 0 <= j < |stuck| ==> WaitsOnLeftover(connections, OtherSources, stuck, j)
  {
    var sub := InputPasses(nodes, connections);
    var rest := MainRemaining(nodes, connections);
    forall k | 0 <= k < |connections| && connections[k].outputNode in sub.0 + rest
      ensures connections[k].inputNode in sub.0 + rest
    {
      HasNodeIffInNodeIds(nodes, connections[k].inputNode);
    }
    var main := MainPasses(nodes, connections);
    PassesSpec(connections, OtherSources, rest, sub.0);
    PassesPermutes(connections, OtherSources, rest, sub.0);
    LeftoversWaitOnLeftovers(connections, OtherSources, sub.0 + rest, main.0, main.1);
  }

  /** When the input sort fails, every input node it leaves over has an edge from an input
      node that is itself left over (possibly itself, through a self-loop). */
  lemma InputCycleLeavesCycle(nodes: seq<Node>, connections: seq<Connection>)
    requires OrderOf(nodes, connections) == Failure(InputCycle)
    ensures var stuck := InputPasses(nodes, connections).1;
      && stuck != []
      && forall j :: 0 <= j < |stuck| ==> WaitsOnLeftover(connections, InputEdges(InputIds(nodes)), stuck, j)
  {
    var ids := InputIds(nodes);
    var subNodes := SubgraphNodes(nodes, connections);
    forall k | 0 <= k < |connections| && connections[k].outputNode in subNodes
               && Waits(InputEdges(ids), connections[k].inputNode, connections[k].outputNode)
      ensures connections[k].inputNode in subNodes
    {
      assert InSubgraph(connections, ids, connections[k].inputNode);
    }
    var sub := InputPasses(nodes, connections);
    PassesSpec(connections, InputEdges(ids), subNodes, []);
    PassesPermutes(connections, InputEdges(ids), subNodes, []);
    LeftoversWaitOnLeftovers(connections, InputEdges(ids), subNodes, sub.0, sub.1);
  }
}
