/** The serialiser (`json_converter.py`): a genome becomes a record of node records and
    connection records, and a record becomes a compiled genome again. */
module JsonConverter {
  import opened NeatTypes
  import opened Innovation
  import opened ActivationOrder
  import opened GenomeModel

  /** One entry of `genome_data['nodes']`. */
  datatype NodeRecord = NodeRecord(nodeId: int, nodeType: NodeType, activation: ActivationFunction, bias: real)

  /** One entry of `genome_data['connections']`: endpoints and gater by node id. */
  datatype ConnectionRecord = ConnectionRecord(
    connectionId: int,
    weight: real,
    inputNode: int,
    gaterNode: Option<int>,
    outputNode: int,
    isEnabled: bool)

  /** The dictionary `genome_to_json` returns. */
  datatype GenomeData = GenomeData(nodes: seq<NodeRecord>, connections: seq<ConnectionRecord>)

  /** Why `json_to_genome` stops: an endpoint id no loaded node carries (`next` raises
      `StopIteration`), or no activation order for the loaded graph. */
  datatype LoadError = MissingNode(nodeId: int) | NoPhenotype(error: OrderError)

  // ---------------------------------------------------------------- genome to records

  function NodeData(n: Node): NodeRecord {
    NodeRecord(n.nodeId, n.nodeType, n.activation, n.bias)
  }

  function ConnectionData(c: Connection): ConnectionRecord {
    ConnectionRecord(c.connectionId, c.weight, c.inputNode, c.gaterNode, c.outputNode, c.isEnabled)
  }

  /** `genome_to_json`: the records of the nodes and of the connections, in list order. */
  method GenomeToJson(g: Genome) returns (data: GenomeData)
    ensures |data.nodes| == |g.nodes| && |data.connections| == |g.connections|
    ensures forall i :: 0 <= i < |g.nodes| ==> data.nodes[i] == NodeData(g.nodes[i])
    ensures forall k :: 0 <= k < |g.connections| ==> data.connections[k] == ConnectionData(g.connections[k])
  {
    var nodes: seq<NodeRecord> := [];
    for i := 0 to |g.nodes|
      invariant |nodes| == i && forall j :: 0 <= j < i ==> nodes[j] == NodeData(g.nodes[j])
    {
      nodes := nodes + [NodeData(g.nodes[i])];
    }
    var connections: seq<ConnectionRecord> := [];
    for k := 0 to |g.connections|
      invariant |connections| == k && forall j :: 0 <= j < k ==> connections[j] == ConnectionData(g.connections[j])
    {
      connections := connections + [ConnectionData(g.connections[k])];
    }
    data := GenomeData(nodes, connections);
  }

  // ---------------------------------------------------------------- records to genome

  function LoadNode(r: NodeRecord): Node {
    Node(r.nodeId, r.nodeType, r.activation, r.bias)
  }

  /** The nodes `json_to_genome` adds, with their stored ids, in record order. */
  function LoadNodes(rs: seq<NodeRecord>): (nodes: seq<Node>)
    ensures |nodes| == |rs| && forall i :: 0 <= i < |rs| ==> nodes[i] == LoadNode(rs[i])
  {
    if rs == [] then [] else LoadNodes(rs[..|rs| - 1]) + [LoadNode(rs[|rs| - 1])]
  }

  /** One connection record against the loaded nodes: the input lookup raises first, then
      the output lookup; a gater id no node carries becomes no gater. */
  function LoadConnection(nodes: seq<Node>, r: ConnectionRecord): (c: Result<Connection, LoadError>)
    ensures c.Success? <==> HasNode(nodes, r.inputNode) && HasNode(nodes, r.outputNode)
    ensures c.Failure? ==> c.error == MissingNode(if HasNode(nodes, r.inputNode) then r.outputNode else r.inputNode)
    ensures c.Success? ==>
      && c.value.connectionId == r.connectionId && c.value.weight == r.weight
      && c.value.inputNode == r.inputNode && c.value.outputNode == r.outputNode
      && c.value.isEnabled == r.isEnabled
      && (c.value.gaterNode.Some? <==> r.gaterNode.Some? && HasNode(nodes, r.gaterNode.value))
      && (c.value.gaterNode.Some? ==> c.value.gaterNode == r.gaterNode)
  {
    if !HasNode(nodes, r.inputNode) then Failure(MissingNode(r.inputNode))
    else if !HasNode(nodes, r.outputNode) then Failure(MissingNode(r.outputNode))
    else
      var gater := if r.gaterNode.Some? && HasNode(nodes, r.gaterNode.value) then r.gaterNode else None;
      Success(Connection(r.connectionId, r.weight, r.inputNode, gater, r.outputNode, r.isEnabled))
  }

  /** The connection loop of `json_to_genome`, stopping at the first record that raises. */
  function LoadConnections(nodes: seq<Node>, rs: seq<ConnectionRecord>): (r: Result<seq<Connection>, LoadError>)
    ensures r.Success? <==> forall k :: 0 <= k < |rs| ==> LoadConnection(nodes, rs[k]).Success?
    ensures r.Success? ==> |r.value| == |rs|
    ensures r.Success? ==> forall k :: 0 <= k < |rs| ==> LoadConnection(nodes, rs[k]) == Success(r.value[k])
  {
    if rs == [] then Success([])
    else
      var n := |rs| - 1;
      assert forall k :: 0 <= k < n ==> rs[..n][k] == rs[k];
      match LoadConnections(nodes, rs[..n])
      case Failure(e) => Failure(e)
      case Success(cs) =>
        match LoadConnection(nodes, rs[n])
        case Failure(e) => Failure(e)
        case Success(c) => Success(cs + [c])
  }

  /** The error is that of the first record that fails. */
  lemma {:induction false} LoadConnectionsFirstError(nodes: seq<Node>, rs: seq<ConnectionRecord>, k: nat)
    requires k < |rs| && LoadConnection(nodes, rs[k]).Failure?
    requires forall j :: 0 <= j < k ==> LoadConnection(nodes, rs[j]).Success?
    ensures LoadConnections(nodes, rs) == Failure(LoadConnection(nodes, rs[k]).error)
    decreases |rs|
  {
    var n := |rs| - 1;
    if k < n {
      assert rs[..n][k] == rs[k];
      assert forall j :: 0 <= j < k ==> rs[..n][j] == rs[j];
      LoadConnectionsFirstError(nodes, rs[..n], k);
    } else {
      assert forall j :: 0 <= j < k ==> rs[..n][j] == rs[j];
    }
  }

  /** What `json_to_genome` builds from `data`: the loaded nodes and connections, provided
      every endpoint resolves and the graph has an activation order. */
  function Load(data: GenomeData): (r: Result<(seq<Node>, seq<Connection>), LoadError>)
    ensures r.Success? ==> ConnectionsResolve(r.value.0, r.value.1)
    ensures r.Success? ==> r.value.0 == LoadNodes(data.nodes) && OrderOf(r.value.0, r.value.1).Success?
  {
    var nodes := LoadNodes(data.nodes);
    match LoadConnections(nodes, data.connections)
    case Failure(e) => Failure(e)
    case Success(cs) =>
      assert ConnectionsResolve(nodes, cs) by {
        forall k | 0 <= k < |cs|
          ensures HasNode(nodes, cs[k].inputNode) && HasNode(nodes, cs[k].outputNode)
          ensures cs[k].gaterNode.Some? ==> HasNode(nodes, cs[k].gaterNode.value)
        {
          assert LoadConnection(nodes, data.connections[k]) == Success(cs[k]);
        }
      }
      var order := OrderOf(nodes, cs);
      if order.Failure? then Failure(NoPhenotype(order.error)) else Success((nodes, cs))
  }

  /** `json_to_genome`: adds every node with its stored id, then every connection with its
      stored id and enabled flag (so the registry hands out nothing), then compiles. */
  method JsonToGenome(data: GenomeData, reg: InnovationHandler) returns (r: Result<Genome, LoadError>)
    requires reg.Valid()
    modifies reg
    ensures reg.Valid() && reg.State() == old(reg.State())
    ensures r.Success? <==> Load(data).Success?
    ensures r.Failure? ==> r.error == Load(data).error
    ensures r.Success? ==> fresh(r.value) && r.value.Valid() && r.value.Compiled()
    ensures r.Success? ==> (r.value.nodes, r.value.connections) == Load(data).value
  {
    var g := new Genome();
    AddNodeRecords(g, data.nodes, reg);
    var failed := AddConnectionRecords(g, data.connections, reg);
    if failed.Some? {
      return Failure(failed.value);
    }
    var order := g.CreatePhenotype();
    if order.Failure? {
      return Failure(NoPhenotype(order.error));
    }
    r := Success(g);
  }

  /** The node loop of `json_to_genome`, on a genome with no connections yet. */
  method AddNodeRecords(g: Genome, rs: seq<NodeRecord>, reg: InnovationHandler)
    requires reg.Valid() && g.nodes == [] && g.connections == []
    modifies g, reg
    ensures g.Valid() && reg.Valid() && reg.State() == old(reg.State())
    ensures g.nodes == LoadNodes(rs) && g.connections == []
  {
    for i := 0 to |rs|
      invariant reg.Valid() && reg.State() == old(reg.State())
      invariant g.nodes == LoadNodes(rs[..i]) && g.connections == []
    {
      var rec := rs[i];
      var node := g.AddNode(reg, rec.nodeType, rec.activation, rec.bias, None, Some(rec.nodeId));
      assert rs[..i + 1][..i] == rs[..i];
    }
    assert rs[..|rs|] == rs;
  }

  /** The connection loop of `json_to_genome`: the error of the first record whose input or
      output id is unknown, or none when every record was added. */
  method AddConnectionRecords(g: Genome, rs: seq<ConnectionRecord>, reg: InnovationHandler)
    returns (failed: Option<LoadError>)
    requires reg.Valid() && g.Valid() && g.connections == []
    modifies g, reg
    ensures g.Valid() && reg.Valid() && reg.State() == old(reg.State())
    ensures g.nodes == old(g.nodes)
    ensures failed.None? <==> LoadConnections(g.nodes, rs).Success?
    ensures failed.Some? ==> LoadConnections(g.nodes, rs) == Failure(failed.value)
    ensures failed.None? ==> LoadConnections(g.nodes, rs) == Success(g.connections)
  {
    for k := 0 to |rs|
      invariant g.Valid() && reg.Valid() && reg.State() == old(reg.State())
      invariant g.nodes == old(g.nodes) && LoadConnections(g.nodes, rs[..k]) == Success(g.connections)
    {
      assert forall j :: 0 <= j < k ==> rs[..k][j] == rs[j];
      var loaded := AddConnectionRecord(g, rs[k], reg);
      if loaded.Failure? {
        LoadConnectionsFirstError(g.nodes, rs, k);
        return Some(loaded.error);
      }
      assert rs[..k + 1][..k] == rs[..k];
    }
    assert rs[..|rs|] == rs;
    failed := None;
  }

  /** One pass of the connection loop: the connection the record loads to is added, or the
      genome is left as it was. */
  method AddConnectionRecord(g: Genome, rec: ConnectionRecord, reg: InnovationHandler)
    returns (loaded: Result<Connection, LoadError>)
    requires reg.Valid() && g.Valid()
    modifies g, reg
    ensures g.Valid() && reg.Valid() && reg.State() == old(reg.State())
    ensures loaded == LoadConnection(old(g.nodes), rec) && g.nodes == old(g.nodes)
    ensures loaded.Success? ==> g.connections == old(g.connections) + [loaded.value]
    ensures loaded.Failure? ==> g.connections == old(g.connections)
  {
    loaded := LoadConnection(g.nodes, rec);
    if loaded.Success? {
      var c := loaded.value;
      var added := g.AddConnection(reg, c.weight, c.inputNode, c.gaterNode, c.outputNode, c.isEnabled,
                                   Some(c.connectionId));
    }
  }

  // ---------------------------------------------------------------- round trip

  /** Loading the records of connections that all resolve gives back those connections,
      in order, field for field. */
  lemma ConnectionsRoundTrip(nodes: seq<Node>, connections: seq<Connection>, data: seq<ConnectionRecord>)
    requires ConnectionsResolve(nodes, connections)
    requires |data| == |connections| && forall k :: 0 <= k < |connections| ==> data[k] == ConnectionData(connections[k])
    ensures LoadConnections(nodes, data) == Success(connections)
  {
    forall k | 0 <= k < |data| ensures LoadConnection(nodes, data[k]) == Success(connections[k]) {
      var c := connections[k];
      assert HasNode(nodes, c.inputNode) && HasNode(nodes, c.outputNode);
    }
  }

  /** The round trip of a valid genome: loading its records gives back its node and
      connection lists exactly when they have an activation order, and otherwise fails
      with the order's error. */
  lemma RoundTrip(nodes: seq<Node>, connections: seq<Connection>, data: GenomeData)
    requires ConnectionsResolve(nodes, connections)
    requires |data.nodes| == |nodes| && forall i :: 0 <= i < |nodes| ==> data.nodes[i] == NodeData(nodes[i])
    requires |data.connections| == |connections|
    requires forall k :: 0 <= k < |connections| ==> data.connections[k] == ConnectionData(connections[k])
    ensures OrderOf(nodes, connections).Success? ==> Load(data) == Success((nodes, connections))
    ensures OrderOf(nodes, connections).Failure? ==>
              Load(data) == Failure(NoPhenotype(OrderOf(nodes, connections).error))
  {
    assert LoadNodes(data.nodes) == nodes;
    ConnectionsRoundTrip(nodes, connections, data.connections);
  }
}
