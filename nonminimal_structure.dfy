/** The generator of a non-minimal starting genome for the chess bot
    (`create_chessbot_nonminimal_structure.py`): 285 input nodes, one output node and 73
    hidden nodes wired in fixed groups, written as the node and connection records that
    `json_to_genome` reads. The random weights, biases and activation functions are drawn
    from a stream supplied by the caller. */
module NonminimalStructure {
  import opened NeatTypes
  import opened JsonConverter

  /** The fixed sizes of the generated genome. */
  const InputCount: nat := 285
  const OutputNode: int := 285
  /** The hidden node that gates some connections and feeds the output directly. */
  const GateNode: int := 286
  /** The first hidden node of the first layer, fed by inputs 1..256 in groups of four. */
  const FirstLayerStart: int := 287
  /** The node that sums the 64 first-layer nodes. */
  const Aggregator: int := 351
  const NodeCount: nat := 359
  const ConnectionCount: nat := 358

  /** A draw of `random.uniform(-1, 1)`. */
  type Unit = r: real | -1.0 <= r <= 1.0

  /** The random stream: the n-th call to `random` answers `uniform(n)` when it is
      `random.uniform(-1, 1)` and `choice(n)` when it is `random.choice` over the
      activation functions. */
  datatype Rng = Rng(uniform: nat -> Unit, choice: nat -> ActivationFunction)

  /** Endpoints and gater of a connection, by node id. */
  datatype Wire = Wire(input: int, gater: Option<int>, output: int)

  /** The k-th connection appended by the script. */
  function Wiring(k: nat): Wire
    requires k < ConnectionCount
  {
    if k == 0 then Wire(0, None, GateNode)
    else if k == 1 then Wire(GateNode, None, OutputNode)
    else if k < 258 then
      // group g of the inputs 1..256, gated on its first input
      var g, j := (k - 2) / 4, (k - 2) % 4;
      Wire(1 + 4 * g + j, if j == 0 then Some(GateNode) else None, FirstLayerStart + g)
    else if k < 322 then Wire(FirstLayerStart + (k - 258), None, Aggregator)
    else if k == 322 then Wire(Aggregator, None, OutputNode)
    else if k < 343 then
      // group g of the inputs 257..276
      var g, j := (k - 323) / 4, (k - 323) % 4;
      Wire(257 + 4 * g + j, None, 352 + g)
    else if k < 348 then Wire(352 + (k - 343), None, OutputNode)
    else if k < 356 then
      // group g of the inputs 277..284, gated on its first and last input
      var g, j := (k - 348) / 4, (k - 348) % 4;
      Wire(277 + 4 * g + j, if j == 0 || j == 3 then Some(GateNode) else None, 357 + g)
    else Wire(357 + (k - 356), None, OutputNode)
  }

  /** The record of node i: inputs carry the identity and bias 0.0, the output tanh, and
      every bias drawn lies in [-1, 1]. */
  predicate NodeOk(r: NodeRecord, i: nat) {
    && r.nodeId == i
    && r.nodeType == (if i < InputCount then Input else if i == OutputNode then Output else Hidden)
    && (i < InputCount ==> r.activation == Identity && r.bias == 0.0)
    && (i == OutputNode ==> r.activation == Tanh)
    && -1.0 <= r.bias <= 1.0
  }

  /** The record of connection k: id k + 1, wired as `Wiring(k)`, enabled, with a weight
      in [-1, 1]. */
  predicate ConnectionOk(c: ConnectionRecord, k: nat)
    requires k < ConnectionCount
  {
    && c.connectionId == k + 1
    && c.inputNode == Wiring(k).input && c.gaterNode == Wiring(k).gater && c.outputNode == Wiring(k).output
    && c.isEnabled
    && -1.0 <= c.weight <= 1.0
  }

  predicate NodesUpTo(ns: seq<NodeRecord>, n: nat) {
    |ns| == n && forall i :: 0 <= i < n ==> NodeOk(ns[i], i)
  }

  predicate ConnectionsUpTo(cs: seq<ConnectionRecord>, n: nat)
    requires n <= ConnectionCount
  {
    |cs| == n && forall k :: 0 <= k < n ==> ConnectionOk(cs[k], k)
  }

  /** The whole generated genome. */
  predicate Generated(data: GenomeData) {
    NodesUpTo(data.nodes, NodeCount) && ConnectionsUpTo(data.connections, ConnectionCount)
  }

  /** `connection_id = len(new_connections) + 1`. */
  function Append(cs: seq<ConnectionRecord>, weight: real, input: int, gater: Option<int>, output: int): seq<ConnectionRecord> {
    cs + [ConnectionRecord(|cs| + 1, weight, input, gater, output, true)]
  }

  /** One genome of the script's `for genome_id in range(200)` loop, without the file
      write. */
  method CreateStructure(rng: Rng) returns (data: GenomeData)
    ensures Generated(data)
  {
    var nodes := InputNodes();
    var calls: nat := 0;
    nodes := nodes + [NodeRecord(OutputNode, Output, Tanh, rng.uniform(calls))];
    calls := calls + 1;
    var activation := rng.choice(calls);
    nodes := nodes + [NodeRecord(GateNode, Hidden, activation, rng.uniform(calls + 1))];
    calls := calls + 2;
    var cs: seq<ConnectionRecord> := [];
    cs := Append(cs, rng.uniform(calls), 0, None, GateNode);
    cs := Append(cs, rng.uniform(calls + 1), GateNode, None, OutputNode);
    calls := calls + 2;
    var nextNodeId;
    nodes, cs, calls, nextNodeId := FirstLayer(rng, calls, nodes, cs);
    nodes, cs, calls, nextNodeId := AggregatorLayer(rng, calls, nodes, cs, nextNodeId);
    nodes, cs, calls, nextNodeId := SecondLayer(rng, calls, nodes, cs, nextNodeId);
    nodes, cs, calls, nextNodeId := ThirdLayer(rng, calls, nodes, cs, nextNodeId);
    data := GenomeData(nodes, cs);
  }

  /** The 285 input nodes. */
  method InputNodes() returns (nodes: seq<NodeRecord>)
    ensures NodesUpTo(nodes, InputCount)
  {
    nodes := [];
    for i := 0 to InputCount
      invariant NodesUpTo(nodes, i)
    {
      nodes := nodes + [NodeRecord(i, Input, Identity, 0.0)];
    }
  }

  /** Inputs 1..256 in 64 groups of four, each group feeding a new hidden node; the first
      input of each group is gated by node 286. */
  method FirstLayer(rng: Rng, calls0: nat, nodes0: seq<NodeRecord>, cs0: seq<ConnectionRecord>)
    returns (nodes: seq<NodeRecord>, cs: seq<ConnectionRecord>, calls: nat, nextNodeId: int)
    requires NodesUpTo(nodes0, 287) && ConnectionsUpTo(cs0, 2)
    ensures NodesUpTo(nodes, 351) && ConnectionsUpTo(cs, 258) && nextNodeId == 351
  {
    nodes, cs, calls := nodes0, cs0, calls0;
    nextNodeId := FirstLayerStart;
    for g := 0 to 64
      invariant nextNodeId == FirstLayerStart + g
      invariant NodesUpTo(nodes, nextNodeId) && ConnectionsUpTo(cs, 2 + 4 * g)
    {
      var i := 1 + 4 * g;
      var activation := rng.choice(calls);
      nodes := nodes + [NodeRecord(nextNodeId, Hidden, activation, rng.uniform(calls + 1))];
      calls := calls + 2;
      for j := 0 to 4
        invariant ConnectionsUpTo(cs, 2 + 4 * g + j)
      {
        assert (2 + 4 * g + j - 2) / 4 == g && (2 + 4 * g + j - 2) % 4 == j;
        cs := Append(cs, rng.uniform(calls), i + j, if j != 0 then None else Some(GateNode), nextNodeId);
        calls := calls + 1;
      }
      nextNodeId := nextNodeId + 1;
    }
  }

  /** The aggregator node 351, fed by every first-layer node and feeding the output. */
  method AggregatorLayer(rng: Rng, calls0: nat, nodes0: seq<NodeRecord>, cs0: seq<ConnectionRecord>, next0: int)
    returns (nodes: seq<NodeRecord>, cs: seq<ConnectionRecord>, calls: nat, nextNodeId: int)
    requires NodesUpTo(nodes0, 351) && ConnectionsUpTo(cs0, 258) && next0 == 351
    ensures NodesUpTo(nodes, 352) && ConnectionsUpTo(cs, 323) && nextNodeId == 352
  {
    nodes, cs, calls, nextNodeId := nodes0, cs0, calls0, next0;
    var activation := rng.choice(calls);
    nodes := nodes + [NodeRecord(nextNodeId, Hidden, activation, rng.uniform(calls + 1))];
    calls := calls + 2;
    for i := FirstLayerStart to nextNodeId
      invariant ConnectionsUpTo(cs, 258 + (i - FirstLayerStart))
    {
      cs := Append(cs, rng.uniform(calls), i, None, nextNodeId);
      calls := calls + 1;
    }
    nextNodeId := nextNodeId + 1;
    cs := Append(cs, rng.uniform(calls), nextNodeId - 1, None, OutputNode);
    calls := calls + 1;
  }

  /** Inputs 257..276 in five groups of four, each feeding a new hidden node, and those
      five nodes feeding the output. */
  method SecondLayer(rng: Rng, calls0: nat, nodes0: seq<NodeRecord>, cs0: seq<ConnectionRecord>, next0: int)
    returns (nodes: seq<NodeRecord>, cs: seq<ConnectionRecord>, calls: nat, nextNodeId: int)
    requires NodesUpTo(nodes0, 352) && ConnectionsUpTo(cs0, 323) && next0 == 352
    ensures NodesUpTo(nodes, 357) && ConnectionsUpTo(cs, 348) && nextNodeId == 357
  {
    nodes, cs, calls, nextNodeId := nodes0, cs0, calls0, next0;
    for g := 0 to 5
      invariant nextNodeId == 352 + g
      invariant NodesUpTo(nodes, nextNodeId) && ConnectionsUpTo(cs, 323 + 4 * g)
    {
      var i := 257 + 4 * g;
      var activation := rng.choice(calls);
      nodes := nodes + [NodeRecord(nextNodeId, Hidden, activation, rng.uniform(calls + 1))];
      calls := calls + 2;
      for j := 0 to 4
        invariant ConnectionsUpTo(cs, 323 + 4 * g + j)
      {
        assert (323 + 4 * g + j - 323) / 4 == g && (323 + 4 * g + j - 323) % 4 == j;
        cs := Append(cs, rng.uniform(calls), i + j, None, nextNodeId);
        calls := calls + 1;
      }
      nextNodeId := nextNodeId + 1;
    }
    for i := nextNodeId - 5 to nextNodeId
      invariant ConnectionsUpTo(cs, 343 + (i - 352))
    {
      cs := Append(cs, rng.uniform(calls), i, None, OutputNode);
      calls := calls + 1;
    }
  }

  /** Inputs 277..284 in two groups of four, gated on the first and last input of each
      group, each feeding a new hidden node, and those two nodes feeding the output. */
  method ThirdLayer(rng: Rng, calls0: nat, nodes0: seq<NodeRecord>, cs0: seq<ConnectionRecord>, next0: int)
    returns (nodes: seq<NodeRecord>, cs: seq<ConnectionRecord>, calls: nat, nextNodeId: int)
    requires NodesUpTo(nodes0, 357) && ConnectionsUpTo(cs0, 348) && next0 == 357
    ensures NodesUpTo(nodes, NodeCount) && ConnectionsUpTo(cs, ConnectionCount) && nextNodeId == NodeCount
  {
    nodes, cs, calls, nextNodeId := nodes0, cs0, calls0, next0;
    for g := 0 to 2
      invariant nextNodeId == 357 + g
      invariant NodesUpTo(nodes, nextNodeId) && ConnectionsUpTo(cs, 348 + 4 * g)
    {
      var i := 277 + 4 * g;
      var activation := rng.choice(calls);
      nodes := nodes + [NodeRecord(nextNodeId, Hidden, activation, rng.uniform(calls + 1))];
      calls := calls + 2;
      for j := 0 to 4
        invariant ConnectionsUpTo(cs, 348 + 4 * g + j)
      {
        assert (348 + 4 * g + j - 348) / 4 == g && (348 + 4 * g + j - 348) % 4 == j;
        cs := Append(cs, rng.uniform(calls), i + j, if j !in [0, 3] then None else Some(GateNode), nextNodeId);
        calls := calls + 1;
      }
      nextNodeId := nextNodeId + 1;
    }
    for i := nextNodeId - 2 to nextNodeId
      invariant ConnectionsUpTo(cs, 356 + (i - 357))
    {
      cs := Append(cs, rng.uniform(calls), i, None, OutputNode);
      calls := calls + 1;
    }
  }

  // ---------------------------------------------------------------- properties

  /** Every connection runs from an existing node into a non-input node, never out of the
      output node, and its gater, if any, is node 286. */
  lemma WiringInRange(k: nat)
    requires k < ConnectionCount
    ensures 0 <= Wiring(k).input < NodeCount && Wiring(k).input != OutputNode
    ensures InputCount <= Wiring(k).output < NodeCount
    ensures Wiring(k).gater.Some? ==> Wiring(k).gater == Some(GateNode)
  {
  }

  /** The gated connections are exactly those out of inputs 1, 5, ..., 253 (the first of
      each group of four in 1..256) and out of inputs 277, 280, 281 and 284. */
  lemma GatedInputs(k: nat)
    requires k < ConnectionCount
    ensures Wiring(k).gater.Some? <==>
      var x := Wiring(k).input;
      (1 <= x <= 256 && x % 4 == 1) || x == 277 || x == 280 || x == 281 || x == 284
  {
  }

  /** Each first-layer node 287..350 feeds the aggregator node 351. */
  lemma AggregatorFed(h: int)
    requires FirstLayerStart <= h < Aggregator
    ensures Wiring(258 + (h - FirstLayerStart)) == Wire(h, None, Aggregator)
  {
  }

  /** The generated records load: every endpoint names a loaded node, and every gater is
      kept. */
  lemma GeneratedLoads(data: GenomeData)
    requires Generated(data)
    ensures LoadConnections(LoadNodes(data.nodes), data.connections).Success?
    ensures forall k :: 0 <= k < ConnectionCount ==>
      LoadConnections(LoadNodes(data.nodes), data.connections).value[k].gaterNode == data.connections[k].gaterNode
  {
    var nodes := LoadNodes(data.nodes);
    forall k | 0 <= k < ConnectionCount
      ensures LoadConnection(nodes, data.connections[k]).Success?
      ensures LoadConnection(nodes, data.connections[k]).value.gaterNode == data.connections[k].gaterNode
    {
      var c := data.connections[k];
      assert ConnectionOk(c, k);
      WiringInRange(k);
      assert nodes[c.inputNode].nodeId == c.inputNode && nodes[c.outputNode].nodeId == c.outputNode;
      assert nodes[GateNode].nodeId == GateNode;
    }
  }

  /** Node ids are the positions 0..358, so no two nodes share one; connection ids are
      1..358 in order. */
  lemma GeneratedIds(data: GenomeData)
    requires Generated(data)
    ensures forall i, j :: 0 <= i < j < NodeCount ==> data.nodes[i].nodeId != data.nodes[j].nodeId
    ensures forall k :: 0 <= k < ConnectionCount ==> data.connections[k].connectionId == k + 1
  {
    assert forall i :: 0 <= i < NodeCount ==> NodeOk(data.nodes[i], i);
    assert forall k :: 0 <= k < ConnectionCount ==> ConnectionOk(data.connections[k], k);
  }
}
