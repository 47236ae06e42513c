/** The compiled form of a genome (`Genome.create_phenotype`) and what `Genome.activate`
    computes with it: the id/index maps, the weight and gate matrix, and the sweeps. */
module Phenotype {
  import opened NeatTypes
  import opened Seqs

  // ---------------------------------------------------------------------------------
  // The id <-> index maps

  /** `node_pheno_to_geno`: phenotype index i names the node id at position i of the order. */
  function PhenoToGeno(order: seq<int>): (m: map<nat, int>)
    ensures forall i: nat :: i in m <==> i < |order|
  {
    map i: nat | i < |order| :: order[i]
  }

  /** `node_geno_to_pheno`, the inversion of `PhenoToGeno`; an id met twice keeps its last
      index, as the dict comprehension of the source does. */
  function GenoToPheno(order: seq<int>): (m: map<int, nat>)
    ensures forall x :: x in m <==> x in order
  {
    map x | x in order :: LastIndexOf(order, x)
  }

  /** For an order without duplicates the two maps are mutually inverse bijections between
      the node ids of the order and 0..|order|-1. */
  lemma PhenoGenoInverse(order: seq<int>)
    requires NoDups(order)
    ensures forall i: nat :: i < |order| ==>
      PhenoToGeno(order)[i] in GenoToPheno(order) && GenoToPheno(order)[PhenoToGeno(order)[i]] == i
    ensures forall x :: x in GenoToPheno(order) ==>
      GenoToPheno(order)[x] < |order| && PhenoToGeno(order)[GenoToPheno(order)[x]] == x
  {
    var p2g := PhenoToGeno(order);
    var g2p := GenoToPheno(order);
    forall i: nat | i < |order| ensures p2g[i] in g2p && g2p[p2g[i]] == i {
      var j := LastIndexOf(order, order[i]);
      assert order[j] == order[i];
    }
  }

  // ---------------------------------------------------------------------------------
  // The connection matrix

  /** Both endpoints of `c` have indices, and they are `r` and `col`. */
  predicate Lands(c: Connection, g2p: map<int, nat>, r: nat, col: nat) {
    c.inputNode in g2p && c.outputNode in g2p && g2p[c.inputNode] == r && g2p[c.outputNode] == col
  }

  /** `c` has a gater and the gater has an index. */
  predicate GateKnown(c: Connection, g2p: map<int, nat>) {
    c.gaterNode.Some? && c.gaterNode.value in g2p
  }

  /** The weight channel of cell [r][col] after writing every connection in list order,
      enabled or not: the weight of the last connection that lands there, else 0. */
  function CellWeight(connections: seq<Connection>, g2p: map<int, nat>, r: nat, col: nat): real
    decreases |connections|
  {
    if connections == [] then 0.0
    else if Lands(connections[|connections| - 1], g2p, r, col) then connections[|connections| - 1].weight
    else CellWeight(connections[..|connections| - 1], g2p, r, col)
  }

  /** The gate channel of cell [r][col]: a gate is written only by a gated connection, so an
      ungated connection written later leaves an earlier gate in place; `None` is the
      "no gate" NaN of the source. */
  function CellGate(connections: seq<Connection>, g2p: map<int, nat>, r: nat, col: nat): Option<nat>
    decreases |connections|
  {
    if connections == [] then None
    else
      var c := connections[|connections| - 1];
      if Lands(c, g2p, r, col) && GateKnown(c, g2p) then Some(g2p[c.gaterNode.value])
      else CellGate(connections[..|connections| - 1], g2p, r, col)
  }

  /** A cell no connection lands on keeps the weight 0. */
  lemma {:induction false} CellWeightUnwritten(connections: seq<Connection>, g2p: map<int, nat>, r: nat, col: nat)
    requires forall k :: 0 <= k < |connections| ==> !Lands(connections[k], g2p, r, col)
    ensures CellWeight(connections, g2p, r, col) == 0.0
    decreases |connections|
  {
    if connections != [] {
      var init := connections[..|connections| - 1];
      assert forall k :: 0 <= k < |init| ==> init[k] == connections[k];
      CellWeightUnwritten(init, g2p, r, col);
    }
  }

  /** Later duplicates overwrite: the weight cell holds the weight of the last connection
      landing there. */
  lemma {:induction false} CellWeightIsLastWrite(connections: seq<Connection>, g2p: map<int, nat>,
                                                 r: nat, col: nat, k: nat)
    requires k < |connections| && Lands(connections[k], g2p, r, col)
    requires forall k' :: k < k' < |connections| ==> !Lands(connections[k'], g2p, r, col)
    ensures CellWeight(connections, g2p, r, col) == connections[k].weight
    decreases |connections|
  {
    var n := |connections| - 1;
    if k < n {
      var init := connections[..n];
      assert init[k] == connections[k];
      assert forall k' :: k < k' < |init| ==> init[k'] == connections[k'];
      CellWeightIsLastWrite(init, g2p, r, col, k);
    }
  }

  /** A cell no gated connection lands on keeps "no gate". */
  lemma {:induction false} CellGateUnwritten(connections: seq<Connection>, g2p: map<int, nat>, r: nat, col: nat)
    requires forall k :: 0 <= k < |connections| ==>
               !(Lands(connections[k], g2p, r, col) && GateKnown(connections[k], g2p))
    ensures CellGate(connections, g2p, r, col) == None
    decreases |connections|
  {
    if connections != [] {
      var init := connections[..|connections| - 1];
      assert forall k :: 0 <= k < |init| ==> init[k] == connections[k];
      CellGateUnwritten(init, g2p, r, col);
    }
  }

  /** The gate cell holds the index of the gater of the last gated connection landing there;
      ungated connections written after it leave it in place. */
  lemma {:induction false} CellGateIsLastGatedWrite(connections: seq<Connection>, g2p: map<int, nat>,
                                                    r: nat, col: nat, k: nat)
    requires k < |connections| && Lands(connections[k], g2p, r, col) && GateKnown(connections[k], g2p)
    requires forall k' :: k < k' < |connections| ==>
               !(Lands(connections[k'], g2p, r, col) && GateKnown(connections[k'], g2p))
    ensures CellGate(connections, g2p, r, col) == Some(g2p[connections[k].gaterNode.value])
    decreases |connections|
  {
    var n := |connections| - 1;
    if k < n {
      var init := connections[..n];
      assert init[k] == connections[k];
      assert forall k' :: k < k' < |init| ==> init[k'] == connections[k'];
      CellGateIsLastGatedWrite(init, g2p, r, col, k);
    }
  }

  /** An n-by-n matrix. */
  predicate IsSquare<T>(m: seq<seq<T>>, n: nat) {
    |m| == n && forall r :: 0 <= r < n ==> |m[r]| == n
  }

  /** Every gate names an index below n. */
  predicate GatesBelow(gates: seq<seq<Option<nat>>>, n: nat) {
    forall r, col :: 0 <= r < |gates| && 0 <= col < |gates[r]| && gates[r][col].Some? ==> gates[r][col].value < n
  }

  /** Every endpoint and gater of every connection has an index below n: what the source's
      dict lookups and tensor writes need. */
  predicate IndexedBelow(connections: seq<Connection>, g2p: map<int, nat>, n: nat) {
    forall k :: 0 <= k < |connections| ==>
      && connections[k].inputNode in g2p && g2p[connections[k].inputNode] < n
      && connections[k].outputNode in g2p && g2p[connections[k].outputNode] < n
      && (connections[k].gaterNode.Some? ==>
            connections[k].gaterNode.value in g2p && g2p[connections[k].gaterNode.value] < n)
  }

  /** The loop of `create_phenotype` over the connections: a zero weight channel and a
      "no gate" gate channel, then one write per connection in list order. */
  method BuildMatrix(n: nat, connections: seq<Connection>, g2p: map<int, nat>)
    returns (weights: seq<seq<real>>, gates: seq<seq<Option<nat>>>)
    requires IndexedBelow(connections, g2p, n)
    ensures IsSquare(weights, n) && IsSquare(gates, n) && GatesBelow(gates, n)
    ensures forall r, col :: 0 <= r < n && 0 <= col < n ==>
      weights[r][col] == CellWeight(connections, g2p, r, col) &&
      gates[r][col] == CellGate(connections, g2p, r, col)
  {
    weights := seq(n, _ => seq(n, _ => 0.0));
    gates := seq(n, _ => seq(n, _ => None));
    var k := 0;
    while k < |connections|
      invariant 0 <= k <= |connections|
      invariant IsSquare(weights, n) && IsSquare(gates, n) && GatesBelow(gates, n)
      invariant forall r, col :: 0 <= r < n && 0 <= col < n ==>
        weights[r][col] == CellWeight(connections[..k], g2p, r, col) &&
        gates[r][col] == CellGate(connections[..k], g2p, r, col)
    {
      var c := connections[k];
      var r := g2p[c.inputNode];
      var col := g2p[c.outputNode];
      weights := weights[r := weights[r][col := c.weight]];
      if c.gaterNode.Some? {
        gates := gates[r := gates[r][col := Some(g2p[c.gaterNode.value])]];
      }
      assert connections[..k + 1][..k] == connections[..k];
      k := k + 1;
    }
    assert connections[..k] == connections;
  }

  // ---------------------------------------------------------------------------------
  // Activation

  /** What source `s` sends into `p`: weight times source value, times the gater's value
      when the cell is gated. */
  function Term(weights: seq<seq<real>>, gates: seq<seq<Option<nat>>>, a: seq<real>, s: nat, p: nat): real
    requires IsSquare(weights, |a|) && IsSquare(gates, |a|) && GatesBelow(gates, |a|)
    requires s < |a| && p < |a|
  {
    match gates[s][p]
    case None => weights[s][p] * a[s]
    case Some(g) => weights[s][p] * a[s] * a[g]
  }

  /** The sum of the terms from sources 0..m-1 into `p`. */
  function IncomingUpTo(weights: seq<seq<real>>, gates: seq<seq<Option<nat>>>, a: seq<real>, p: nat, m: nat): real
    requires IsSquare(weights, |a|) && IsSquare(gates, |a|) && GatesBelow(gates, |a|)
    requires p < |a| && m <= |a|
  {
    if m == 0 then 0.0 else IncomingUpTo(weights, gates, a, p, m - 1) + Term(weights, gates, a, m - 1, p)
  }

  /** The in-progress values `a` a sweep step reads: every index in range. */
  predicate Shaped(nodes: seq<Node>, order: seq<int>, g2p: map<int, nat>,
                   weights: seq<seq<real>>, gates: seq<seq<Option<nat>>>, a: seq<real>) {
    && |a| == |nodes|
    && IsSquare(weights, |a|) && IsSquare(gates, |a|) && GatesBelow(gates, |a|)
    && forall i :: 0 <= i < |order| ==> order[i] in g2p && g2p[order[i]] < |a|
  }

  /** The new value of node `id`: its current value plus all incoming terms plus the bias
      of `nodes[p]` (the node at the insertion position p, as the source reads it), through
      that node's activation function. */
  function NodeValue(nodes: seq<Node>, g2p: map<int, nat>, weights: seq<seq<real>>,
                     gates: seq<seq<Option<nat>>>, apply: (ActivationFunction, real) -> real,
                     a: seq<real>, id: int): real
    requires |a| == |nodes| && IsSquare(weights, |a|) && IsSquare(gates, |a|) && GatesBelow(gates, |a|)
    requires id in g2p && g2p[id] < |a|
  {
    var p := g2p[id];
    apply(nodes[p].activation, a[p] + IncomingUpTo(weights, gates, a, p, |a|) + nodes[p].bias)
  }

  /** One sweep: the nodes of `order` updated one after another, each reading the values
      already updated earlier in the same sweep. */
  function Sweep(nodes: seq<Node>, order: seq<int>, g2p: map<int, nat>, weights: seq<seq<real>>,
                 gates: seq<seq<Option<nat>>>, apply: (ActivationFunction, real) -> real, a: seq<real>)
    : (a': seq<real>)
    requires Shaped(nodes, order, g2p, weights, gates, a)
    ensures |a'| == |a|
    decreases |order|
  {
    if order == [] then a
    else
      var p := g2p[order[0]];
      var a1 := a[p := NodeValue(nodes, g2p, weights, gates, apply, a, order[0])];
      Sweep(nodes, order[1..], g2p, weights, gates, apply, a1)
  }

  /** `k` sweeps, one after another. */
  function Sweeps(k: nat, nodes: seq<Node>, order: seq<int>, g2p: map<int, nat>, weights: seq<seq<real>>,
                  gates: seq<seq<Option<nat>>>, apply: (ActivationFunction, real) -> real, a: seq<real>)
    : (a': seq<real>)
    requires Shaped(nodes, order, g2p, weights, gates, a)
    ensures |a'| == |a|
  {
    if k == 0 then a
    else Sweeps(k - 1, nodes, order, g2p, weights, gates, apply, Sweep(nodes, order, g2p, weights, gates, apply, a))
  }

  /** A sweep changes only the indices of the nodes it visits. */
  lemma {:induction false} SweepFrame(nodes: seq<Node>, order: seq<int>, g2p: map<int, nat>,
                                      weights: seq<seq<real>>, gates: seq<seq<Option<nat>>>,
                                      apply: (ActivationFunction, real) -> real, a: seq<real>, q: nat)
    requires Shaped(nodes, order, g2p, weights, gates, a)
    requires q < |a| && forall i :: 0 <= i < |order| ==> g2p[order[i]] != q
    ensures Sweep(nodes, order, g2p, weights, gates, apply, a)[q] == a[q]
    decreases |order|
  {
    if order != [] {
      var p := g2p[order[0]];
      var a1 := a[p := NodeValue(nodes, g2p, weights, gates, apply, a, order[0])];
      assert Shaped(nodes, order[1..], g2p, weights, gates, a1);
      SweepFrame(nodes, order[1..], g2p, weights, gates, apply, a1, q);
    }
  }

  /** `k1 + k2` sweeps are `k1` sweeps followed by `k2` sweeps. */
  lemma {:induction false} SweepsCompose(k1: nat, k2: nat, nodes: seq<Node>, order: seq<int>,
                                         g2p: map<int, nat>, weights: seq<seq<real>>,
                                         gates: seq<seq<Option<nat>>>,
                                         apply: (ActivationFunction, real) -> real, a: seq<real>)
    requires Shaped(nodes, order, g2p, weights, gates, a)
    ensures Shaped(nodes, order, g2p, weights, gates, Sweeps(k1, nodes, order, g2p, weights, gates, apply, a))
    ensures Sweeps(k1 + k2, nodes, order, g2p, weights, gates, apply, a)
         == Sweeps(k2, nodes, order, g2p, weights, gates, apply,
                   Sweeps(k1, nodes, order, g2p, weights, gates, apply, a))
  {
    if k1 != 0 {
      var a1 := Sweep(nodes, order, g2p, weights, gates, apply, a);
      SweepsCompose(k1 - 1, k2, nodes, order, g2p, weights, gates, apply, a1);
    }
  }

  /** The source's running sum over the column of `p`, computing `IncomingUpTo`. */
  method Incoming(weights: seq<seq<real>>, gates: seq<seq<Option<nat>>>, a: seq<real>, p: nat)
    returns (sum: real)
    requires IsSquare(weights, |a|) && IsSquare(gates, |a|) && GatesBelow(gates, |a|) && p < |a|
    ensures sum == IncomingUpTo(weights, gates, a, p, |a|)
  {
    sum := 0.0;
    var s := 0;
    while s < |a|
      invariant 0 <= s <= |a|
      invariant sum == IncomingUpTo(weights, gates, a, p, s)
    {
      var term := weights[s][p] * a[s];
      if gates[s][p].Some? {
        term := term * a[gates[s][p].value];
      }
      sum := sum + term;
      s := s + 1;
    }
  }

  /** The inner loop of one time step of `activate`, computing `Sweep`. */
  method RunSweep(nodes: seq<Node>, order: seq<int>, g2p: map<int, nat>, weights: seq<seq<real>>,
                  gates: seq<seq<Option<nat>>>, apply: (ActivationFunction, real) -> real, a: seq<real>)
    returns (a': seq<real>)
    requires Shaped(nodes, order, g2p, weights, gates, a)
    ensures a' == Sweep(nodes, order, g2p, weights, gates, apply, a)
  {
    a' := a;
    var i := 0;
    while i < |order|
      invariant 0 <= i <= |order|
      invariant Shaped(nodes, order[i..], g2p, weights, gates, a')
      invariant Sweep(nodes, order[i..], g2p, weights, gates, apply, a')
             == Sweep(nodes, order, g2p, weights, gates, apply, a)
    {
      var p := g2p[order[i]];
      var node := nodes[p];
      var incoming := Incoming(weights, gates, a', p);
      assert order[i..][1..] == order[i + 1..];
      a' := a'[p := apply(node.activation, a'[p] + incoming + node.bias)];
      i := i + 1;
    }
  }

  /** Input injection: the input nodes, in node-list order, receive the inputs one by one
      at their indices (an index written twice keeps the later value). */
  function InjectInputs(nodes: seq<Node>, g2p: map<int, nat>, a: seq<real>, inputs: seq<real>)
    : (a': seq<real>)
    requires |inputs| == CountNodes(nodes, Input)
    requires forall i :: 0 <= i < |nodes| && nodes[i].nodeType == Input ==>
      nodes[i].nodeId in g2p && g2p[nodes[i].nodeId] < |a|
    ensures |a'| == |a|
    decreases |nodes|
  {
    if nodes == [] then a
    else if nodes[0].nodeType == Input then
      InjectInputs(nodes[1..], g2p, a[g2p[nodes[0].nodeId] := inputs[0]], inputs[1..])
    else InjectInputs(nodes[1..], g2p, a, inputs)
  }

  /** An index no input node maps to keeps its value through injection. */
  lemma {:induction false} InjectInputsFrame(nodes: seq<Node>, g2p: map<int, nat>, a: seq<real>,
                                             inputs: seq<real>, q: nat)
    requires |inputs| == CountNodes(nodes, Input)
    requires forall i :: 0 <= i < |nodes| && nodes[i].nodeType == Input ==>
      nodes[i].nodeId in g2p && g2p[nodes[i].nodeId] < |a|
    requires q < |a|
    requires forall i :: 0 <= i < |nodes| && nodes[i].nodeType == Input ==> g2p[nodes[i].nodeId] != q
    ensures InjectInputs(nodes, g2p, a, inputs)[q] == a[q]
    decreases |nodes|
  {
    if nodes != [] {
      if nodes[0].nodeType == Input {
        InjectInputsFrame(nodes[1..], g2p, a[g2p[nodes[0].nodeId] := inputs[0]], inputs[1..], q);
      } else {
        InjectInputsFrame(nodes[1..], g2p, a, inputs, q);
      }
    }
  }

  /** The j-th input node of the list (j counted among input nodes only) receives
      `inputs[j]`, unless a later input node shares its index. */
  lemma {:induction false} InjectInputsPlacesEach(nodes: seq<Node>, g2p: map<int, nat>, a: seq<real>,
                                                  inputs: seq<real>, i: nat)
    requires |inputs| == CountNodes(nodes, Input)
    requires forall i :: 0 <= i < |nodes| && nodes[i].nodeType == Input ==>
      nodes[i].nodeId in g2p && g2p[nodes[i].nodeId] < |a|
    requires i < |nodes| && nodes[i].nodeType == Input
    requires forall i' :: i < i' < |nodes| && nodes[i'].nodeType == Input ==>
      g2p[nodes[i'].nodeId] != g2p[nodes[i].nodeId]
    ensures CountNodes(nodes[..i], Input) < |inputs|
    ensures InjectInputs(nodes, g2p, a, inputs)[g2p[nodes[i].nodeId]] == inputs[CountNodes(nodes[..i], Input)]
    decreases |nodes|
  {
    assert nodes[..i + 1][..i] == nodes[..i];
    if i == 0 {
      var a1 := a[g2p[nodes[0].nodeId] := inputs[0]];
      InjectInputsFrame(nodes[1..], g2p, a1, inputs[1..], g2p[nodes[0].nodeId]);
    } else {
      assert nodes[..i][1..] == nodes[1..][..i - 1];
      if nodes[0].nodeType == Input {
        InjectInputsPlacesEach(nodes[1..], g2p, a[g2p[nodes[0].nodeId] := inputs[0]], inputs[1..], i - 1);
      } else {
        InjectInputsPlacesEach(nodes[1..], g2p, a, inputs, i - 1);
      }
    }
  }

  /** The values at the indices of the output nodes, in node-list order. */
  function OutputValues(nodes: seq<Node>, g2p: map<int, nat>, a: seq<real>): (out: seq<real>)
    requires forall i :: 0 <= i < |nodes| && nodes[i].nodeType == Output ==>
      nodes[i].nodeId in g2p && g2p[nodes[i].nodeId] < |a|
    ensures |out| == CountNodes(nodes, Output)
    decreases |nodes|
  {
    if nodes == [] then []
    else if nodes[0].nodeType == Output then [a[g2p[nodes[0].nodeId]]] + OutputValues(nodes[1..], g2p, a)
    else OutputValues(nodes[1..], g2p, a)
  }
}
