/** The genome (`genome.py`): a node list and a connection list, grown by `AddNode` and
    `AddConnection`, compiled by `CreatePhenotype` and run by `Activate`. */
module GenomeModel {
  import opened NeatTypes
  import opened Seqs
  import opened Innovation
  import opened ActivationOrder
  import opened Phenotype

  /** `activate` raises when the inputs do not match the input nodes. */
  datatype ActivateError = InputSizeMismatch(given: nat, expected: nat)

  /** What a successful order gives the phenotype: every node id has an index below the
      number of nodes, and every index is the index of a node id. */
  lemma OrderIndexFacts(nodes: seq<Node>, connections: seq<Connection>)
    requires OrderOf(nodes, connections).Success?
    ensures var order := OrderOf(nodes, connections).value;
      && NoDups(order)
      && |order| <= |nodes|
      && (forall x :: x in GenoToPheno(order) <==> HasNode(nodes, x))
      && (forall x :: x in GenoToPheno(order) ==> GenoToPheno(order)[x] < |order|)
  {
    var order := OrderOf(nodes, connections).value;
    OrderCoversEveryNodeOnce(nodes, connections);
    forall x | x in order ensures x in NodeIds(nodes) {
      HasNodeIffInNodeIds(nodes, x);
    }
    NoDupsSubsetLength(order, NodeIds(nodes));
    PhenoGenoInverse(order);
  }

  /** A resolved genome's connections have indices below n once every node id has one. */
  lemma ResolvedIsIndexed(nodes: seq<Node>, connections: seq<Connection>, g2p: map<int, nat>, n: nat)
    requires ConnectionsResolve(nodes, connections)
    requires forall x :: HasNode(nodes, x) ==> x in g2p && g2p[x] < n
    ensures IndexedBelow(connections, g2p, n)
  {
  }

  /** `order`, `p2g`, `g2p`, `weights` and `gates` are what `create_phenotype` computes for
      these node and connection lists; every node id and every id of the order has an index
      below the number of nodes. */
  predicate IsPhenotype(nodes: seq<Node>, connections: seq<Connection>, order: seq<int>,
                        p2g: map<nat, int>, g2p: map<int, nat>,
                        weights: seq<seq<real>>, gates: seq<seq<Option<nat>>>) {
    && OrderOf(nodes, connections) == Success(order)
    && p2g == PhenoToGeno(order)
    && g2p == GenoToPheno(order)
    && IsSquare(weights, |nodes|) && IsSquare(gates, |nodes|) && GatesBelow(gates, |nodes|)
    && (forall r, col :: 0 <= r < |nodes| && 0 <= col < |nodes| ==>
          weights[r][col] == CellWeight(connections, g2p, r, col) &&
          gates[r][col] == CellGate(connections, g2p, r, col))
    && (forall i :: 0 <= i < |nodes| ==> nodes[i].nodeId in g2p && g2p[nodes[i].nodeId] < |nodes|)
    && (forall i :: 0 <= i < |order| ==> order[i] in g2p && g2p[order[i]] < |nodes|)
  }

  /** A compiled phenotype stays the phenotype of the genome when only biases and activation
      functions change, since the order, the maps and the matrix read node ids and types
      only; connections keep resolving too. */
  lemma PhenotypeByIdsAndTypes(nodes: seq<Node>, nodes': seq<Node>, connections: seq<Connection>,
                               order: seq<int>, p2g: map<nat, int>, g2p: map<int, nat>,
                               weights: seq<seq<real>>, gates: seq<seq<Option<nat>>>)
    requires SameIdsAndTypes(nodes, nodes')
    ensures ConnectionsResolve(nodes, connections) ==> ConnectionsResolve(nodes', connections)
    ensures IsPhenotype(nodes, connections, order, p2g, g2p, weights, gates) ==>
              IsPhenotype(nodes', connections, order, p2g, g2p, weights, gates)
  {
    OrderOfByIdsAndTypes(nodes, nodes', connections);
    forall x | HasNode(nodes, x) ensures HasNode(nodes', x) {
      var i :| 0 <= i < |nodes| && nodes[i].nodeId == x;
      assert nodes'[i].nodeId == x;
    }
  }

  /** `torch.zeros(n)`. */
  function Zeros(n: nat): (z: seq<real>)
    ensures |z| == n && forall i :: 0 <= i < n ==> z[i] == 0.0
  {
    if n == 0 then [] else Zeros(n - 1) + [0.0]
  }

  class Genome {
    var nodes: seq<Node>
    var connections: seq<Connection>
    /** The compiled phenotype: the order, the two id/index maps, the matrix channels. */
    var activationOrder: seq<int>
    var phenoToGeno: map<nat, int>
    var genoToPheno: map<int, nat>
    var weights: seq<seq<real>>
    var gates: seq<seq<Option<nat>>>
    /** The recurrent state, one value per node index. */
    var activations: seq<real>

    /** Every connection names nodes of this genome by id. */
    predicate Valid()
      reads this
    {
      ConnectionsResolve(nodes, connections)
    }

    /** The phenotype fields are those `create_phenotype` computes from the node and
        connection lists, and there is one activation per node. */
    predicate Compiled()
      reads this
    {
      && IsPhenotype(nodes, connections, activationOrder, phenoToGeno, genoToPheno, weights, gates)
      && |activations| == |nodes|
    }

    /** `Genome()`: no nodes, no connections, no activations. */
    constructor ()
      ensures Valid()
      ensures nodes == [] && connections == [] && activations == []
    {
      nodes, connections, activations := [], [], [];
      activationOrder, phenoToGeno, genoToPheno := [], map[], map[];
      weights, gates := [], [];
    }

    /** `add_node`: appends one node; its id is `nodeId` when given, and otherwise the
        registry's id for `source` (the id of the split connection, or none). */
    method AddNode(reg: InnovationHandler, nodeType: NodeType, activation: ActivationFunction,
                   bias: real, source: Option<int>, nodeId: Option<int>) returns (node: Node)
      requires reg.Valid()
      modifies this, reg
      ensures reg.Valid()
      ensures nodeId.Some? ==> node.nodeId == nodeId.value && reg.State() == old(reg.State())
      ensures nodeId.None? ==> (reg.State(), node.nodeId) == AssignNodeIdStep(old(reg.State()), source)
      ensures node.nodeType == nodeType && node.activation == activation && node.bias == bias
      ensures nodes == old(nodes) + [node] && connections == old(connections)
      ensures old(Valid()) ==> Valid()
      ensures activations == old(activations)
    {
      var id: int;
      if nodeId.Some? {
        id := nodeId.value;
      } else {
        id := reg.AssignNodeId(source);
      }
      node := Node(id, nodeType, activation, bias);
      nodes := nodes + [node];
      assert forall x :: HasNode(old(nodes), x) ==> HasNode(nodes, x) by {
        forall x | HasNode(old(nodes), x) ensures HasNode(nodes, x) {
          var i :| 0 <= i < |old(nodes)| && old(nodes)[i].nodeId == x;
          assert nodes[i] == old(nodes)[i];
        }
      }
    }

    /** `add_connection`: appends one connection between two nodes of the genome; its id is
        `connectionId` when given, and otherwise the registry's id for the ordered pair
        (input id, output id). */
    method AddConnection(reg: InnovationHandler, weight: real, inputNode: int, gaterNode: Option<int>,
                         outputNode: int, isEnabled: bool, connectionId: Option<int>)
      returns (c: Connection)
      requires reg.Valid()
      requires HasNode(nodes, inputNode) && HasNode(nodes, outputNode)
      requires gaterNode.Some? ==> HasNode(nodes, gaterNode.value)
      modifies this, reg
      ensures reg.Valid()
      ensures connectionId.Some? ==> c.connectionId == connectionId.value && reg.State() == old(reg.State())
      ensures connectionId.None? ==>
        (reg.State(), c.connectionId) == AssignConnectionIdStep(old(reg.State()), (inputNode, outputNode))
      ensures c == Connection(c.connectionId, weight, inputNode, gaterNode, outputNode, isEnabled)
      ensures connections == old(connections) + [c] && nodes == old(nodes)
      ensures old(Valid()) ==> Valid()
      ensures activations == old(activations)
    {
      var id: int;
      if connectionId.Some? {
        id := connectionId.value;
      } else {
        id := reg.AssignConnectionId((inputNode, outputNode));
      }
      c := Connection(id, weight, inputNode, gaterNode, outputNode, isEnabled);
      connections := connections + [c];
    }

    /** `determine_activation_order`: the input sort, then the passes of the main loop; the
        order is stored only when both succeed. */
    method DetermineActivationOrder() returns (r: Result<seq<int>, OrderError>)
      modifies this
      ensures r == OrderOf(nodes, connections)
      ensures r.Success? ==> activationOrder == r.value
      ensures r.Failure? ==> activationOrder == old(activationOrder)
      ensures nodes == old(nodes) && connections == old(connections)
      ensures phenoToGeno == old(phenoToGeno) && genoToPheno == old(genoToPheno)
      ensures weights == old(weights) && gates == old(gates) && activations == old(activations)
    {
      r := ComputeOrder(nodes, connections);
      if r.Success? {
        activationOrder := r.value;
      }
    }

    /** `create_phenotype`: the order, the maps, the matrix and zeroed activations; when the
        order cannot be built nothing changes (the source raises or never returns). */
    method CreatePhenotype() returns (r: Result<seq<int>, OrderError>)
      requires Valid()
      modifies this
      ensures r == OrderOf(nodes, connections)
      ensures nodes == old(nodes) && connections == old(connections)
      ensures r.Success? ==> Compiled() && activations == Zeros(|nodes|)
      ensures r.Failure? ==> unchanged(this)
    {
      var p2g, g2p, w, g;
      r, p2g, g2p, w, g := Compile(nodes, connections);
      if r.Success? {
        Install(r.value, p2g, g2p, w, g);
      }
    }

    /** Stores a compiled phenotype and zeroes the activations. */
    method Install(order: seq<int>, p2g: map<nat, int>, g2p: map<int, nat>,
                   w: seq<seq<real>>, g: seq<seq<Option<nat>>>)
      requires IsPhenotype(nodes, connections, order, p2g, g2p, w, g)
      modifies this
      ensures nodes == old(nodes) && connections == old(connections)
      ensures activationOrder == order && phenoToGeno == p2g && genoToPheno == g2p
      ensures weights == w && gates == g && activations == Zeros(|nodes|)
      ensures Compiled()
    {
      activationOrder, phenoToGeno, genoToPheno, weights, gates := order, p2g, g2p, w, g;
      activations := Zeros(|nodes|);
    }

    /** `activate`: the inputs go to the input nodes' indices, then `maxIterations` sweeps
        run, and the output nodes' values come back in node-list order; with
        `simulateOnly` the activations are restored afterwards. */
    method Activate(inputs: seq<real>, maxIterations: nat, simulateOnly: bool,
                    apply: (ActivationFunction, real) -> real)
      returns (r: Result<seq<real>, ActivateError>)
      requires Valid() && Compiled()
      modifies this
      ensures Valid() && Compiled()
      ensures nodes == old(nodes) && connections == old(connections)
      ensures activationOrder == old(activationOrder) && genoToPheno == old(genoToPheno)
      ensures weights == old(weights) && gates == old(gates)
      ensures r.Failure? <==> |inputs| != CountNodes(nodes, Input)
      ensures r.Failure? ==> activations == old(activations)
      ensures r.Success? ==>
        var before := InjectInputs(nodes, genoToPheno, old(activations), inputs);
        var after := Sweeps(maxIterations, nodes, activationOrder, genoToPheno, weights, gates, apply, before);
        && |r.value| == CountNodes(nodes, Output)
        && r.value == OutputValues(nodes, genoToPheno, after)
        && activations == (if simulateOnly then old(activations) else after)
    {
      if |inputs| != CountNodes(nodes, Input) {
        return Failure(InputSizeMismatch(|inputs|, CountNodes(nodes, Input)));
      }
      var outputs, a := Run(nodes, activationOrder, genoToPheno, weights, gates, apply,
                            activations, inputs, maxIterations);
      if !simulateOnly {
        activations := a;
      }
      r := Success(outputs);
    }

    /** `reset_state`: one zero per node. */
    method ResetState()
      modifies this`activations
      ensures activations == Zeros(|nodes|)
    {
      activations := Zeros(|nodes|);
    }

    /** `clone` (its body is not in `genome.py`): a new genome with every field copied. */
    method Clone() returns (g: Genome)
      ensures fresh(g)
      ensures g.nodes == nodes && g.connections == connections && g.activationOrder == activationOrder
      ensures g.phenoToGeno == phenoToGeno && g.genoToPheno == genoToPheno
      ensures g.weights == weights && g.gates == gates && g.activations == activations
      ensures Valid() ==> g.Valid()
      ensures Compiled() ==> g.Compiled()
    {
      g := new Genome();
      g.nodes, g.connections, g.activationOrder := nodes, connections, activationOrder;
      g.phenoToGeno, g.genoToPheno := phenoToGeno, genoToPheno;
      g.weights, g.gates, g.activations := weights, gates, activations;
    }
  }

  /** The two stages of `determine_activation_order` on the node and connection lists. */
  method ComputeOrder(nodes: seq<Node>, connections: seq<Connection>) returns (r: Result<seq<int>, OrderError>)
    ensures r == OrderOf(nodes, connections)
  {
    var inputOrder, cycle := PlaceByPasses(connections, InputEdges(InputIds(nodes)),
                                           SubgraphNodes(nodes, connections), []);
    if cycle != [] {
      return Failure(InputCycle);
    }
    var order, stuck := PlaceByPasses(connections, OtherSources, MainRemaining(nodes, connections), inputOrder);
    if stuck != [] {
      return Failure(Stalled);
    }
    r := Success(order);
  }

  /** What `create_phenotype` computes from the node and connection lists, on values. */
  method Compile(nodes: seq<Node>, connections: seq<Connection>)
    returns (r: Result<seq<int>, OrderError>, p2g: map<nat, int>, g2p: map<int, nat>,
             weights: seq<seq<real>>, gates: seq<seq<Option<nat>>>)
    requires ConnectionsResolve(nodes, connections)
    ensures r == OrderOf(nodes, connections)
    ensures r.Success? ==> IsPhenotype(nodes, connections, r.value, p2g, g2p, weights, gates)
  {
    p2g, g2p, weights, gates := map[], map[], [], [];
    r := ComputeOrder(nodes, connections);
    if r.Failure? {
      return;
    }
    var order := r.value;
    g2p := GenoToPheno(order);
    OrderIndexFacts(nodes, connections);
    forall i | 0 <= i < |nodes| ensures nodes[i].nodeId in g2p && g2p[nodes[i].nodeId] < |nodes| {
      assert HasNode(nodes, nodes[i].nodeId);
    }
    ResolvedIsIndexed(nodes, connections, g2p, |nodes|);
    weights, gates := BuildMatrix(|nodes|, connections, g2p);
    p2g := PhenoToGeno(order);
  }

  /** The body of `activate` after its shape check, on values: inject, sweep, read out. */
  method Run(nodes: seq<Node>, order: seq<int>, g2p: map<int, nat>, weights: seq<seq<real>>,
             gates: seq<seq<Option<nat>>>, apply: (ActivationFunction, real) -> real,
             a: seq<real>, inputs: seq<real>, maxIterations: nat)
    returns (outputs: seq<real>, a': seq<real>)
    requires |inputs| == CountNodes(nodes, Input) && |a| == |nodes|
    requires IsSquare(weights, |nodes|) && IsSquare(gates, |nodes|) && GatesBelow(gates, |nodes|)
    requires forall i :: 0 <= i < |nodes| ==> nodes[i].nodeId in g2p && g2p[nodes[i].nodeId] < |nodes|
    requires forall i :: 0 <= i < |order| ==> order[i] in g2p && g2p[order[i]] < |nodes|
    ensures |a'| == |nodes|
    ensures var before := InjectInputs(nodes, g2p, a, inputs);
      && a' == Sweeps(maxIterations, nodes, order, g2p, weights, gates, apply, before)
      && outputs == OutputValues(nodes, g2p, a')
      && |outputs| == CountNodes(nodes, Output)
  {
    a' := InjectInputsLoop(nodes, g2p, a, inputs);
    ghost var start := a';
    var k := 0;
    while k < maxIterations
      invariant 0 <= k <= maxIterations
      invariant Shaped(nodes, order, g2p, weights, gates, a')
      invariant Sweeps(maxIterations - k, nodes, order, g2p, weights, gates, apply, a')
             == Sweeps(maxIterations, nodes, order, g2p, weights, gates, apply, start)
    {
      a' := RunSweep(nodes, order, g2p, weights, gates, apply, a');
      k := k + 1;
    }
    outputs := OutputsLoop(nodes, g2p, a');
  }

  /** `self.activations[inputs_pheno_ids] = input_activations`, written one input node at a
      time in node-list order. */
  method InjectInputsLoop(nodes: seq<Node>, g2p: map<int, nat>, a: seq<real>, inputs: seq<real>)
    returns (a': seq<real>)
    requires |inputs| == CountNodes(nodes, Input)
    requires forall i :: 0 <= i < |nodes| && nodes[i].nodeType == Input ==>
      nodes[i].nodeId in g2p && g2p[nodes[i].nodeId] < |a|
    ensures a' == InjectInputs(nodes, g2p, a, inputs)
  {
    a' := a;
    var i, j := 0, 0;
    while i < |nodes|
      invariant 0 <= i <= |nodes| && 0 <= j <= |inputs| && |a'| == |a|
      invariant |inputs[j..]| == CountNodes(nodes[i..], Input)
      invariant InjectInputs(nodes[i..], g2p, a', inputs[j..]) == InjectInputs(nodes, g2p, a, inputs)
    {
      assert nodes[i..][1..] == nodes[i + 1..];
      if nodes[i].nodeType == Input {
        assert inputs[j..][1..] == inputs[j + 1..];
        a' := a'[g2p[nodes[i].nodeId] := inputs[j]];
        j := j + 1;
      }
      i := i + 1;
    }
  }

  /** `self.activations[output_pheno_ids]`, gathered in node-list order. */
  method OutputsLoop(nodes: seq<Node>, g2p: map<int, nat>, a: seq<real>) returns (out: seq<real>)
    requires forall i :: 0 <= i < |nodes| && nodes[i].nodeType == Output ==>
      nodes[i].nodeId in g2p && g2p[nodes[i].nodeId] < |a|
    ensures out == OutputValues(nodes, g2p, a)
  {
    out := [];
    var i := 0;
    while i < |nodes|
      invariant 0 <= i <= |nodes|
      invariant out + OutputValues(nodes[i..], g2p, a) == OutputValues(nodes, g2p, a)
    {
      assert nodes[i..][1..] == nodes[i + 1..];
      if nodes[i].nodeType == Output {
        assert out + OutputValues(nodes[i..], g2p, a)
            == (out + [a[g2p[nodes[i].nodeId]]]) + OutputValues(nodes[i + 1..], g2p, a);
        out := out + [a[g2p[nodes[i].nodeId]]];
      }
      i := i + 1;
    }
    assert nodes[i..] == [];
  }
}
