/** Value types shared by the genome, the mutation operators, crossover and the serialiser. */
module NeatTypes {

  datatype Option<+T> = None | Some(value: T)

  datatype Result<+T, +E> = Success(value: T) | Failure(error: E)

  /** The role of a node in the network. */
  datatype NodeType = Input | Output | Hidden

  /** The closed set of activation functions a node may carry.  What each one computes is
      left abstract: wherever a value is pushed through one, the model takes an
      uninterpreted `apply` function as a parameter. */
  datatype ActivationFunction = Identity | Sigmoid | Relu | LeakyRelu | Tanh

  /** A neuron: its innovation id, its role, its activation function and its bias. */
  datatype Node = Node(nodeId: int, nodeType: NodeType, activation: ActivationFunction, bias: real)

  /** A weighted edge between two nodes, named by node id, optionally gated by a third. */
  datatype Connection = Connection(
    connectionId: int,
    weight: real,
    inputNode: int,
    gaterNode: Option<int>,
    outputNode: int,
    isEnabled: bool)

  /** The node ids of a node list, position by position. */
  function NodeIds(nodes: seq<Node>): (ids: seq<int>)
    ensures |ids| == |nodes|
    ensures forall i :: 0 <= i < |nodes| ==> ids[i] == nodes[i].nodeId
  {
    if nodes == [] then [] else [nodes[0].nodeId] + NodeIds(nodes[1..])
  }

  /** True when some node of the list carries `id`. */
  predicate HasNode(nodes: seq<Node>, id: int) {
    exists i :: 0 <= i < |nodes| && nodes[i].nodeId == id
  }

  /** Every endpoint and every gater of every connection names a node of the list. */
  predicate ConnectionsResolve(nodes: seq<Node>, connections: seq<Connection>) {
    forall k :: 0 <= k < |connections| ==>
      && HasNode(nodes, connections[k].inputNode)
      && HasNode(nodes, connections[k].outputNode)
      && (connections[k].gaterNode.Some? ==> HasNode(nodes, connections[k].gaterNode.value))
  }

  /** Nothing but the weight, bias, activation function, enabled flag and gater differ:
      the same node ids and types in the same order, the same connection endpoints. */
  predicate SameSkeleton(nodes: seq<Node>, connections: seq<Connection>,
                         nodes': seq<Node>, connections': seq<Connection>) {
    && |nodes| == |nodes'|
    && (forall i :: 0 <= i < |nodes| ==>
          nodes[i].nodeId == nodes'[i].nodeId && nodes[i].nodeType == nodes'[i].nodeType)
    && |connections| == |connections'|
    && (forall k :: 0 <= k < |connections| ==>
          connections[k].inputNode == connections'[k].inputNode
          && connections[k].outputNode == connections'[k].outputNode)
  }

  /** The same node ids and types, position by position; biases and activation functions
      may differ. */
  predicate SameIdsAndTypes(nodes: seq<Node>, nodes': seq<Node>) {
    && |nodes| == |nodes'|
    && forall i :: 0 <= i < |nodes| ==>
         nodes[i].nodeId == nodes'[i].nodeId && nodes[i].nodeType == nodes'[i].nodeType
  }

  /** How many nodes of the list have type `t`. */
  function CountNodes(nodes: seq<Node>, t: NodeType): (n: nat)
    ensures n <= |nodes|
  {
    if nodes == [] then 0
    else (if nodes[0].nodeType == t then 1 else 0) + CountNodes(nodes[1..], t)
  }
}
