/** The mutation operators (`mutation_handler.py`): in-place edits of a genome's node and
    connection lists followed, for every operator that changes what the phenotype reads,
    by `create_phenotype`.  Every random draw comes in as an oracle: a `random.choice` over a
    list of length n picks the element at `draw % n`, a `random.random()` or
    `random.uniform(-1, 1)` is a given real. */
module Mutation {
  import opened NeatTypes
  import opened Seqs
  import opened Innovation
  import opened ActivationOrder
  import opened GenomeModel

  /** Why an operator stops before it finishes. */
  datatype Fault =
    /** `random.choice` on an empty list raises `IndexError`. */
    | NoChoice
    /** The oracle ran out inside a re-draw loop that the source does not bound. */
    | OutOfDraws
    /** The closing `create_phenotype` raised (a cycle among input nodes) or never
        returned (a stalled ordering loop); the edit itself has been made. */
    | NoOrder(error: OrderError)

  /** `Skipped`: the source returns `False` or finds nothing to edit, and nothing changes.
      `Applied`: the edit was made and, where the operator compiles, the phenotype is built. */
  datatype Outcome = Skipped | Applied | Raised(fault: Fault)

  /** What `create_phenotype` leaves behind, as an outcome. */
  function CompileOutcome(r: Result<seq<int>, OrderError>): (o: Outcome)
    ensures o.Applied? <==> r.Success?
    ensures r.Failure? ==> o == Raised(NoOrder(r.error))
  {
    if r.Success? then Applied else Raised(NoOrder(r.error))
  }

  /** The settings the operators read from `Constants`. */
  datatype Settings = Settings(
    minVal: real, maxVal: real,
    weightPerturbChance: real, weightPerturbValue: real,
    biasPerturbChance: real, biasPerturbValue: real,
    addNodeProb: real, addConnectionProb: real,
    mutateWeightsProb: real, mutateBiasesProb: real,
    mutateToggleEnableProb: real, mutateReenableProb: real,
    mutateRemoveConnectionProb: real, mutateRemoveNodeProb: real,
    mutateAddGateProb: real, mutateActivationFunctionProb: real)

  /** Same length, and every connection keeps its endpoints and its gater. */
  predicate SameWiring(cs: seq<Connection>, cs': seq<Connection>) {
    && |cs| == |cs'|
    && forall k :: 0 <= k < |cs| ==>
         && cs[k].inputNode == cs'[k].inputNode && cs[k].outputNode == cs'[k].outputNode
         && cs[k].gaterNode == cs'[k].gaterNode
  }

  /** Rewiring nothing keeps every connection resolving. */
  lemma SameWiringResolves(nodes: seq<Node>, cs: seq<Connection>, cs': seq<Connection>)
    requires SameWiring(cs, cs') && ConnectionsResolve(nodes, cs)
    ensures ConnectionsResolve(nodes, cs')
  {
    forall k | 0 <= k < |cs'|
      ensures HasNode(nodes, cs'[k].inputNode) && HasNode(nodes, cs'[k].outputNode)
      ensures cs'[k].gaterNode.Some? ==> HasNode(nodes, cs'[k].gaterNode.value)
    {
      assert cs[k].inputNode == cs'[k].inputNode && cs[k].outputNode == cs'[k].outputNode;
      assert cs[k].gaterNode == cs'[k].gaterNode;
    }
  }

  // ---------------------------------------------------------------------------------
  // Weight and bias perturbation

  /** `min(max(x, lo), hi)`. */
  function Clamp(x: real, lo: real, hi: real): (r: real)
    ensures lo <= hi ==> lo <= r <= hi
    ensures lo <= x <= hi ==> r == x
    ensures hi < lo ==> r == hi
  {
    var m := if x >= lo then x else lo;
    if m <= hi then m else hi
  }

  /** One connection after `mutate_weights`: perturbed by `u * weight_perturb_value * mod`
      and clamped when its roll is below the perturbation chance, otherwise unchanged. */
  function PerturbedWeight(c: Connection, roll: real, u: real, s: Settings, mod: real): (c': Connection)
    ensures c'.(weight := c.weight) == c
    ensures roll >= s.weightPerturbChance ==> c' == c
    ensures roll < s.weightPerturbChance && s.minVal <= s.maxVal ==> s.minVal <= c'.weight <= s.maxVal
  {
    if roll < s.weightPerturbChance then
      c.(weight := Clamp(c.weight + u * s.weightPerturbValue * mod, s.minVal, s.maxVal))
    else c
  }

  /** One node after `mutate_biases`: input nodes are never touched; others are perturbed
      and clamped when their roll is below the perturbation chance. */
  function PerturbedBias(n: Node, roll: real, u: real, s: Settings): (n': Node)
    ensures n'.(bias := n.bias) == n
    ensures n.nodeType == Input || roll >= s.biasPerturbChance ==> n' == n
    ensures n.nodeType != Input && roll < s.biasPerturbChance && s.minVal <= s.maxVal ==>
              s.minVal <= n'.bias <= s.maxVal
  {
    if n.nodeType != Input && roll < s.biasPerturbChance then
      n.(bias := Clamp(n.bias + u * s.biasPerturbValue, s.minVal, s.maxVal))
    else n
  }

  /** `mutate_weights`: connection k is perturbed with roll `rolls(k)` and amount
      `amounts(k)`; the node list and the wiring stay as they are; then the phenotype is
      rebuilt. */
  method MutateWeights(g: Genome, s: Settings, mod: real, rolls: nat -> real, amounts: nat -> real)
    returns (outcome: Outcome)
    requires g.Valid()
    modifies g
    ensures g.Valid() && g.nodes == old(g.nodes) && |g.connections| == |old(g.connections)|
    ensures forall k :: 0 <= k < |g.connections| ==>
              g.connections[k] == PerturbedWeight(old(g.connections)[k], rolls(k), amounts(k), s, mod)
    ensures outcome == CompileOutcome(OrderOf(g.nodes, g.connections))
    ensures outcome.Applied? ==> g.Compiled()
  {
    var k := 0;
    while k < |g.connections|
      invariant 0 <= k <= |g.connections| == |old(g.connections)|
      invariant g.nodes == old(g.nodes)
      invariant forall j :: 0 <= j < k ==>
                  g.connections[j] == PerturbedWeight(old(g.connections)[j], rolls(j), amounts(j), s, mod)
      invariant forall j :: k <= j < |g.connections| ==> g.connections[j] == old(g.connections)[j]
    {
      g.connections := g.connections[k := PerturbedWeight(g.connections[k], rolls(k), amounts(k), s, mod)];
      k := k + 1;
    }
    SameWiringResolves(g.nodes, old(g.connections), g.connections);
    var r := g.CreatePhenotype();
    outcome := CompileOutcome(r);
  }

  /** `mutate_biases`: node i is perturbed with roll `rolls(i)` and amount `amounts(i)`
      unless it is an input node; the connections stay as they are; then the phenotype is
      rebuilt. */
  method MutateBiases(g: Genome, s: Settings, rolls: nat -> real, amounts: nat -> real)
    returns (outcome: Outcome)
    requires g.Valid()
    modifies g
    ensures g.Valid() && g.connections == old(g.connections) && |g.nodes| == |old(g.nodes)|
    ensures forall i :: 0 <= i < |g.nodes| ==>
              g.nodes[i] == PerturbedBias(old(g.nodes)[i], rolls(i), amounts(i), s)
    ensures outcome == CompileOutcome(OrderOf(g.nodes, g.connections))
    ensures outcome.Applied? ==> g.Compiled()
  {
    var i := 0;
    while i < |g.nodes|
      invariant 0 <= i <= |g.nodes| == |old(g.nodes)|
      invariant g.connections == old(g.connections)
      invariant forall j :: 0 <= j < i ==> g.nodes[j] == PerturbedBias(old(g.nodes)[j], rolls(j), amounts(j), s)
      invariant forall j :: i <= j < |g.nodes| ==> g.nodes[j] == old(g.nodes)[j]
    {
      if g.nodes[i].nodeType != Input {
        g.nodes := g.nodes[i := PerturbedBias(g.nodes[i], rolls(i), amounts(i), s)];
      }
      i := i + 1;
    }
    assert SameIdsAndTypes(old(g.nodes), g.nodes);
    PhenotypeByIdsAndTypes(old(g.nodes), g.nodes, g.connections, [], map[], map[], [], []);
    var r := g.CreatePhenotype();
    outcome := CompileOutcome(r);
  }

  // ---------------------------------------------------------------------------------
  // Re-drawing until a pick is acceptable

  /** The first attempt `a` in [from, count) whose draw is acceptable: where a loop that
      re-draws until `ok` holds stops, or `None` when every attempt is rejected. */
  function FirstAccepted<T>(draw: nat -> T, ok: T -> bool, from: nat, count: nat): (r: Option<nat>)
    ensures r.Some? ==> from <= r.value < count && ok(draw(r.value))
    ensures r.Some? ==> forall a :: from <= a < r.value ==> !ok(draw(a))
    ensures r.None? ==> forall a :: from <= a < count ==> !ok(draw(a))
    decreases count - from
  {
    if from >= count then None
    else if ok(draw(from)) then Some(from)
    else FirstAccepted(draw, ok, from + 1, count)
  }

  /** The pick a seq oracle gives at attempt `a`: a position below n. */
  function Pick(draws: seq<nat>, n: nat, a: nat): nat {
    if a < |draws| && n > 0 then draws[a] % n else 0
  }

  /** `p` is a node position whose node is neither endpoint of `c`. */
  predicate NotEndpoint(nodes: seq<Node>, c: Connection, p: nat) {
    p < |nodes| && nodes[p].nodeId != c.inputNode && nodes[p].nodeId != c.outputNode
  }

  /** The attempt of `mutate_add_gate`'s re-draw loop that stops it, counting from `from`. */
  function GaterAttempt(nodes: seq<Node>, c: Connection, draws: seq<nat>, from: nat): Option<nat> {
    FirstAccepted((a: nat) => Pick(draws, |nodes|, a), (p: nat) => NotEndpoint(nodes, c, p), from, |draws|)
  }

  /** `mutate_add_gate`: the connection at `connPick` gets as gater the first drawn node that
      is neither of its endpoints; then the phenotype is rebuilt.  An empty connection list
      raises, and a run of draws that only hits endpoints is the source's endless loop. */
  method MutateAddGate(g: Genome, connPick: nat, nodeDraws: seq<nat>) returns (outcome: Outcome)
    requires g.Valid()
    modifies g
    ensures g.Valid() && g.nodes == old(g.nodes)
    ensures outcome == Raised(NoChoice) <==> old(g.connections) == []
    ensures outcome == Raised(NoChoice) || outcome == Raised(OutOfDraws) ==>
              g.connections == old(g.connections)
    ensures old(g.connections) != [] ==>
      var k := connPick % |old(g.connections)|;
      var c := old(g.connections)[k];
      var attempt := GaterAttempt(g.nodes, c, nodeDraws, 0);
      && (outcome == Raised(OutOfDraws) <==> attempt.None?)
      && (attempt.Some? ==>
            var gater := g.nodes[Pick(nodeDraws, |g.nodes|, attempt.value)].nodeId;
            && gater != c.inputNode && gater != c.outputNode
            && g.connections == old(g.connections)[k := c.(gaterNode := Some(gater))]
            && outcome == CompileOutcome(OrderOf(g.nodes, g.connections)))
    ensures outcome.Applied? ==> g.Compiled()
  {
    if |g.connections| == 0 {
      return Raised(NoChoice);
    }
    var k := connPick % |g.connections|;
    var c := g.connections[k];
    assert HasNode(g.nodes, c.inputNode);
    var n := |g.nodes|;
    var a := 0;
    while a < |nodeDraws| && !NotEndpoint(g.nodes, c, nodeDraws[a] % n)
      invariant 0 <= a <= |nodeDraws|
      invariant GaterAttempt(g.nodes, c, nodeDraws, a) == GaterAttempt(g.nodes, c, nodeDraws, 0)
    {
      assert Pick(nodeDraws, n, a) == nodeDraws[a] % n;
      a := a + 1;
    }
    if a == |nodeDraws| {
      assert GaterAttempt(g.nodes, c, nodeDraws, a).None?;
      return Raised(OutOfDraws);
    }
    assert Pick(nodeDraws, n, a) == nodeDraws[a] % n;
    assert GaterAttempt(g.nodes, c, nodeDraws, a) == Some(a);
    var gater := g.nodes[nodeDraws[a] % n].nodeId;
    assert HasNode(g.nodes, gater);
    g.connections := g.connections[k := c.(gaterNode := Some(gater))];
    var r := g.CreatePhenotype();
    outcome := CompileOutcome(r);
  }

  /** Every activation function, in the order `list(ActivationFunction)` is taken to list them. */
  const AllFunctions: seq<ActivationFunction> := [Identity, Sigmoid, Relu, LeakyRelu, Tanh]

  /** The attempt of the first re-draw loop of `mutate_activation_function` (a non-input
      node) that stops it. */
  function TargetAttempt(nodes: seq<Node>, draws: seq<nat>, from: nat): Option<nat> {
    FirstAccepted((a: nat) => Pick(draws, |nodes|, a),
                  (p: nat) => p < |nodes| && nodes[p].nodeType != Input, from, |draws|)
  }

  /** The attempt of the second re-draw loop (a function other than `cur`) that stops it. */
  function FunctionAttempt(cur: ActivationFunction, draws: seq<nat>, from: nat): Option<nat> {
    FirstAccepted((a: nat) => Pick(draws, |AllFunctions|, a),
                  (f: nat) => f < |AllFunctions| && AllFunctions[f] != cur, from, |draws|)
  }

  /** `mutate_activation_function`: the first drawn non-input node gets the first drawn
      function that differs from its current one; nothing else changes and the phenotype is
      not rebuilt (it stays valid, as it does not record activation functions). */
  method MutateActivationFunction(g: Genome, nodeDraws: seq<nat>, functionDraws: seq<nat>)
    returns (outcome: Outcome)
    requires g.Valid()
    modifies g
    ensures g.Valid() && g.connections == old(g.connections) && |g.nodes| == |old(g.nodes)|
    ensures outcome == Raised(NoChoice) <==> old(g.nodes) == []
    ensures outcome != Applied ==> g.nodes == old(g.nodes)
    ensures outcome.Applied? || outcome == Raised(NoChoice) || outcome == Raised(OutOfDraws)
    ensures old(g.nodes) != [] ==>
      var target := TargetAttempt(old(g.nodes), nodeDraws, 0);
      && (target.None? ==> outcome == Raised(OutOfDraws))
      && (target.Some? ==>
            var p := Pick(nodeDraws, |old(g.nodes)|, target.value);
            var old_node := old(g.nodes)[p];
            var fn := FunctionAttempt(old_node.activation, functionDraws, 0);
            && old_node.nodeType != Input
            && (fn.None? <==> outcome == Raised(OutOfDraws))
            && (fn.Some? ==>
                  var f := AllFunctions[Pick(functionDraws, |AllFunctions|, fn.value)];
                  && f != old_node.activation
                  && g.nodes == old(g.nodes)[p := old_node.(activation := f)]))
    ensures old(g.Compiled()) ==> g.Compiled()
  {
    if |g.nodes| == 0 {
      return Raised(NoChoice);
    }
    var n := |g.nodes|;
    var a := 0;
    while a < |nodeDraws| && g.nodes[nodeDraws[a] % n].nodeType == Input
      invariant 0 <= a <= |nodeDraws|
      invariant TargetAttempt(g.nodes, nodeDraws, a) == TargetAttempt(g.nodes, nodeDraws, 0)
    {
      assert Pick(nodeDraws, n, a) == nodeDraws[a] % n;
      a := a + 1;
    }
    if a == |nodeDraws| {
      assert TargetAttempt(g.nodes, nodeDraws, a).None?;
      return Raised(OutOfDraws);
    }
    assert Pick(nodeDraws, n, a) == nodeDraws[a] % n;
    assert TargetAttempt(g.nodes, nodeDraws, a) == Some(a);
    var p := nodeDraws[a] % n;
    var cur := g.nodes[p].activation;
    var b := 0;
    while b < |functionDraws| && AllFunctions[functionDraws[b] % |AllFunctions|] == cur
      invariant 0 <= b <= |functionDraws|
      invariant FunctionAttempt(cur, functionDraws, b) == FunctionAttempt(cur, functionDraws, 0)
    {
      assert Pick(functionDraws, |AllFunctions|, b) == functionDraws[b] % |AllFunctions|;
      b := b + 1;
    }
    if b == |functionDraws| {
      assert FunctionAttempt(cur, functionDraws, b).None?;
      return Raised(OutOfDraws);
    }
    assert Pick(functionDraws, |AllFunctions|, b) == functionDraws[b] % |AllFunctions|;
    assert FunctionAttempt(cur, functionDraws, b) == Some(b);
    var f := AllFunctions[functionDraws[b] % |AllFunctions|];
    g.nodes := g.nodes[p := g.nodes[p].(activation := f)];
    assert SameIdsAndTypes(old(g.nodes), g.nodes);
    PhenotypeByIdsAndTypes(old(g.nodes), g.nodes, g.connections, g.activationOrder, g.phenoToGeno,
                           g.genoToPheno, g.weights, g.gates);
    outcome := Applied;
  }

  // ---------------------------------------------------------------------------------
  // Toggling, re-enabling and removing connections

  /** The positions from `from` on, ascending, of the disabled connections not yet listed in
      `eligible`: the list comprehension `mutate_toggle_enable` appends. */
  function DisabledMissing(cs: seq<Connection>, eligible: seq<nat>, from: nat): (r: seq<nat>)
    ensures forall x :: x in r <==> from <= x < |cs| && !cs[x].isEnabled && x !in eligible
    ensures forall i, j :: 0 <= i < j < |r| ==> r[i] < r[j]
    decreases |cs| - from
  {
    if from >= |cs| then []
    else
      var rest := DisabledMissing(cs, eligible, from + 1);
      assert forall j :: 0 <= j < |rest| ==> from < rest[j] by {
        forall j | 0 <= j < |rest| ensures from < rest[j] {
          assert rest[j] in rest;
        }
      }
      if !cs[from].isEnabled && from !in eligible then [from] + rest else rest
  }

  /** The extended list names only connections of the list, names every disabled
      connection, and repeats nothing when the caller's list repeats nothing. */
  lemma ExtendedEligible(cs: seq<Connection>, eligible: seq<nat>)
    requires forall e :: e in eligible ==> e < |cs|
    ensures var extended := eligible + DisabledMissing(cs, eligible, 0);
      && (forall e :: e in extended ==> e < |cs|)
      && (forall k :: 0 <= k < |cs| && !cs[k].isEnabled ==> k in extended)
      && (NoDups(eligible) ==> NoDups(extended))
  {
    var missing := DisabledMissing(cs, eligible, 0);
    if NoDups(eligible) {
      NoDupsConcat(eligible, missing);
    }
  }

  /** `mutate_toggle_enable`: the caller's list, extended in place by the disabled
      connections it lacks; if it is then non-empty, the connection at `pick` has its flag
      flipped and the phenotype is rebuilt. */
  method MutateToggleEnable(g: Genome, eligible: seq<nat>, pick: nat)
    returns (extended: seq<nat>, outcome: Outcome)
    requires g.Valid()
    requires forall e :: e in eligible ==> e < |g.connections|
    modifies g
    ensures g.Valid() && g.nodes == old(g.nodes) && |g.connections| == |old(g.connections)|
    ensures extended == eligible + DisabledMissing(old(g.connections), eligible, 0)
    ensures forall e :: e in extended ==> e < |g.connections|
    ensures extended == [] <==> outcome.Skipped?
    ensures extended == [] ==> g.connections == old(g.connections)
    ensures extended != [] ==>
      var e := extended[pick % |extended|];
      && e < |old(g.connections)|
      && g.connections == old(g.connections)[e := old(g.connections)[e].(isEnabled := !old(g.connections)[e].isEnabled)]
      && outcome == CompileOutcome(OrderOf(g.nodes, g.connections))
    ensures outcome.Applied? ==> g.Compiled()
  {
    var missing := DisabledMissing(g.connections, eligible, 0);
    extended := eligible + missing;
    ExtendedEligible(g.connections, eligible);
    if extended == [] {
      return extended, Skipped;
    }
    var e := extended[pick % |extended|];
    assert e in eligible || e in missing;
    var c := g.connections[e];
    g.connections := g.connections[e := c.(isEnabled := !c.isEnabled)];
    SameWiringResolves(g.nodes, old(g.connections), g.connections);
    var r := g.CreatePhenotype();
    outcome := CompileOutcome(r);
  }

  /** `mutate_gene_reenable`: one disabled connection, the one at `pick` among them, is
      enabled and the phenotype rebuilt; with none disabled nothing happens. */
  method MutateGeneReenable(g: Genome, pick: nat) returns (outcome: Outcome)
    requires g.Valid()
    modifies g
    ensures g.Valid() && g.nodes == old(g.nodes) && |g.connections| == |old(g.connections)|
    ensures var disabled := DisabledMissing(old(g.connections), [], 0);
      && (disabled == [] <==> outcome.Skipped?)
      && (disabled == [] ==> g.connections == old(g.connections))
      && (disabled != [] ==>
            var e := disabled[pick % |disabled|];
            && e < |old(g.connections)| && !old(g.connections)[e].isEnabled
            && g.connections == old(g.connections)[e := old(g.connections)[e].(isEnabled := true)]
            && outcome == CompileOutcome(OrderOf(g.nodes, g.connections)))
    ensures outcome.Applied? ==> g.Compiled()
  {
    var disabled := DisabledMissing(g.connections, [], 0);
    if disabled == [] {
      return Skipped;
    }
    var e := disabled[pick % |disabled|];
    assert e in disabled;
    g.connections := g.connections[e := g.connections[e].(isEnabled := true)];
    SameWiringResolves(g.nodes, old(g.connections), g.connections);
    var r := g.CreatePhenotype();
    outcome := CompileOutcome(r);
  }

  /** `mutate_remove_connection`: the eligible connection at `pick` leaves the list and the
      phenotype is rebuilt; with nothing eligible nothing happens. */
  method MutateRemoveConnection(g: Genome, eligible: seq<nat>, pick: nat) returns (outcome: Outcome)
    requires g.Valid()
    requires forall e :: e in eligible ==> e < |g.connections|
    modifies g
    ensures g.Valid() && g.nodes == old(g.nodes)
    ensures eligible == [] <==> outcome.Skipped?
    ensures eligible == [] ==> g.connections == old(g.connections)
    ensures eligible != [] ==>
      var e := eligible[pick % |eligible|];
      && e < |old(g.connections)|
      && g.connections == old(g.connections)[..e] + old(g.connections)[e + 1..]
      && outcome == CompileOutcome(OrderOf(g.nodes, g.connections))
    ensures outcome.Applied? ==> g.Compiled()
  {
    if eligible == [] {
      return Skipped;
    }
    var e := eligible[pick % |eligible|];
    assert e in eligible;
    g.connections := g.connections[..e] + g.connections[e + 1..];
    forall k | 0 <= k < |g.connections|
      ensures k < e ==> g.connections[k] == old(g.connections)[k]
      ensures k >= e ==> g.connections[k] == old(g.connections)[k + 1]
    {
    }
    assert ConnectionsResolve(g.nodes, g.connections) by {
      forall k | 0 <= k < |g.connections|
        ensures HasNode(g.nodes, g.connections[k].inputNode) && HasNode(g.nodes, g.connections[k].outputNode)
        ensures g.connections[k].gaterNode.Some? ==> HasNode(g.nodes, g.connections[k].gaterNode.value)
      {
        var j := if k < e then k else k + 1;
        assert g.connections[k] == old(g.connections)[j];
      }
    }
    var r := g.CreatePhenotype();
    outcome := CompileOutcome(r);
  }

  // ---------------------------------------------------------------------------------
  // Connections eligible for removal

  /** A connection that `find_cons_for_removal` counts: enabled and not a self-loop. */
  predicate Counted(c: Connection) {
    c.isEnabled && c.inputNode != c.outputNode
  }

  /** How many of the first `k` connections are counted and leave node `id`. */
  function OutDegreeUpTo(cs: seq<Connection>, k: nat, id: int): (d: nat)
    requires k <= |cs|
    ensures d <= k
  {
    if k == 0 then 0
    else OutDegreeUpTo(cs, k - 1, id) + (if Counted(cs[k - 1]) && cs[k - 1].inputNode == id then 1 else 0)
  }

  /** How many of the first `k` connections are counted and enter node `id`. */
  function InDegreeUpTo(cs: seq<Connection>, k: nat, id: int): (d: nat)
    requires k <= |cs|
    ensures d <= k
  {
    if k == 0 then 0
    else InDegreeUpTo(cs, k - 1, id) + (if Counted(cs[k - 1]) && cs[k - 1].outputNode == id then 1 else 0)
  }

  /** How many counted connections leave node `id`. */
  function OutDegree(cs: seq<Connection>, id: int): nat {
    OutDegreeUpTo(cs, |cs|, id)
  }

  /** How many counted connections enter node `id`. */
  function InDegree(cs: seq<Connection>, id: int): nat {
    InDegreeUpTo(cs, |cs|, id)
  }

  /** The removal rule: the source keeps another counted way out, and the target keeps
      another counted way in or is an input node. */
  predicate Removable(nodes: seq<Node>, cs: seq<Connection>, c: Connection) {
    && OutDegree(cs, c.inputNode) > 1
    && (InDegree(cs, c.outputNode) > 1 || c.outputNode in InputIds(nodes))
  }

  /** The positions from `from` on, ascending, of the removable connections. */
  function RemovableFrom(nodes: seq<Node>, cs: seq<Connection>, from: nat): (r: seq<nat>)
    ensures forall x :: x in r <==> from <= x < |cs| && Removable(nodes, cs, cs[x])
    ensures forall i, j :: 0 <= i < j < |r| ==> r[i] < r[j]
    decreases |cs| - from
  {
    if from >= |cs| then []
    else
      var rest := RemovableFrom(nodes, cs, from + 1);
      assert forall j :: 0 <= j < |rest| ==> from < rest[j] by {
        forall j | 0 <= j < |rest| ensures from < rest[j] {
          assert rest[j] in rest;
        }
      }
      if Removable(nodes, cs, cs[from]) then [from] + rest else rest
  }

  /** A removable connection always has a counted sibling: removing it leaves its source
      with an enabled non-self outgoing connection. */
  lemma {:induction false} RemovableKeepsAnExit(nodes: seq<Node>, cs: seq<Connection>, k: nat)
    requires k < |cs| && Removable(nodes, cs, cs[k])
    ensures exists j :: 0 <= j < |cs| && j != k && Counted(cs[j]) && cs[j].inputNode == cs[k].inputNode
  {
    OutDegreeWitnesses(cs, |cs|, cs[k].inputNode, k);
  }

  lemma {:induction false} OutDegreeWitnesses(cs: seq<Connection>, n: nat, id: int, k: nat)
    requires n <= |cs| && OutDegreeUpTo(cs, n, id) > 1
    ensures exists j :: 0 <= j < n && j != k && Counted(cs[j]) && cs[j].inputNode == id
    decreases n
  {
    var last := cs[n - 1];
    if Counted(last) && last.inputNode == id && k != n - 1 {
    } else if Counted(last) && last.inputNode == id {
      var j := SomeOut(cs, n - 1, id);
    } else {
      OutDegreeWitnesses(cs, n - 1, id, k);
    }
  }

  /** A position below `n` holding one of the counted connections leaving `id`. */
  lemma {:induction false} SomeOut(cs: seq<Connection>, n: nat, id: int) returns (j: nat)
    requires n <= |cs| && OutDegreeUpTo(cs, n, id) >= 1
    ensures j < n && Counted(cs[j]) && cs[j].inputNode == id
    decreases n
  {
    if Counted(cs[n - 1]) && cs[n - 1].inputNode == id {
      j := n - 1;
    } else {
      j := SomeOut(cs, n - 1, id);
    }
  }

  /** The counters `find_cons_for_removal` holds after its first `k` connections: one entry
      per node id, its counted outgoing (`outgoing`) or incoming connections so far. */
  function DegreeMap(ids: seq<int>, cs: seq<Connection>, k: nat, outgoing: bool): map<int, nat>
    requires k <= |cs|
  {
    map id | id in ids :: if outgoing then OutDegreeUpTo(cs, k, id) else InDegreeUpTo(cs, k, id)
  }

  /** One more connection bumps the counter of its endpoint when it is counted. */
  lemma DegreeMapStep(ids: seq<int>, cs: seq<Connection>, k: nat, outgoing: bool)
    requires k < |cs|
    requires (if outgoing then cs[k].inputNode else cs[k].outputNode) in ids
    ensures var end := if outgoing then cs[k].inputNode else cs[k].outputNode;
      DegreeMap(ids, cs, k + 1, outgoing)
        == if Counted(cs[k]) then DegreeMap(ids, cs, k, outgoing)[end := DegreeMap(ids, cs, k, outgoing)[end] + 1]
           else DegreeMap(ids, cs, k, outgoing)
  {
  }

  /** `count[endpoint] += 1` for a counted connection: the counters for the first `k`
      connections become those for the first `k + 1`. */
  method Bump(ids: seq<int>, cs: seq<Connection>, k: nat, outgoing: bool, count: map<int, nat>)
    returns (count': map<int, nat>)
    requires k < |cs| && count == DegreeMap(ids, cs, k, outgoing)
    requires (if outgoing then cs[k].inputNode else cs[k].outputNode) in ids
    ensures count' == DegreeMap(ids, cs, k + 1, outgoing)
  {
    DegreeMapStep(ids, cs, k, outgoing);
    var end := if outgoing then cs[k].inputNode else cs[k].outputNode;
    count' := count;
    if cs[k].isEnabled && cs[k].inputNode != cs[k].outputNode {
      count' := count[end := count[end] + 1];
    }
  }

  /** The counting pass of `find_cons_for_removal`: one entry per node id, holding how many
      counted connections leave it and how many enter it. */
  method CountDegrees(nodes: seq<Node>, cs: seq<Connection>)
    returns (sourceCount: map<int, nat>, targetCount: map<int, nat>)
    requires ConnectionsResolve(nodes, cs)
    ensures sourceCount == DegreeMap(NodeIds(nodes), cs, |cs|, true)
    ensures targetCount == DegreeMap(NodeIds(nodes), cs, |cs|, false)
  {
    var ids := NodeIds(nodes);
    sourceCount := map id | id in ids :: 0;
    targetCount := map id | id in ids :: 0;
    assert sourceCount == DegreeMap(ids, cs, 0, true);
    assert targetCount == DegreeMap(ids, cs, 0, false);
    var k := 0;
    while k < |cs|
      invariant 0 <= k <= |cs|
      invariant sourceCount == DegreeMap(ids, cs, k, true)
      invariant targetCount == DegreeMap(ids, cs, k, false)
    {
      HasNodeIffInNodeIds(nodes, cs[k].inputNode);
      HasNodeIffInNodeIds(nodes, cs[k].outputNode);
      sourceCount := Bump(ids, cs, k, true, sourceCount);
      targetCount := Bump(ids, cs, k, false, targetCount);
      k := k + 1;
    }
  }

  /** `find_cons_for_removal`: the counting pass, then the connections the removal rule
      allows, in list order. */
  method FindConsForRemoval(g: Genome) returns (eligible: seq<nat>)
    requires g.Valid()
    ensures eligible == RemovableFrom(g.nodes, g.connections, 0)
  {
    var sourceCount, targetCount := CountDegrees(g.nodes, g.connections);
    eligible := SelectRemovable(g.nodes, g.connections, sourceCount, targetCount);
  }

  /** The selecting pass of `find_cons_for_removal`, on the finished counters. */
  method SelectRemovable(nodes: seq<Node>, cs: seq<Connection>,
                         sourceCount: map<int, nat>, targetCount: map<int, nat>)
    returns (eligible: seq<nat>)
    requires ConnectionsResolve(nodes, cs)
    requires sourceCount == DegreeMap(NodeIds(nodes), cs, |cs|, true)
    requires targetCount == DegreeMap(NodeIds(nodes), cs, |cs|, false)
    ensures eligible == RemovableFrom(nodes, cs, 0)
  {
    var inputIds := InputIds(nodes);
    eligible := [];
    var j := 0;
    while j < |cs|
      invariant 0 <= j <= |cs|
      invariant eligible + RemovableFrom(nodes, cs, j) == RemovableFrom(nodes, cs, 0)
    {
      var keep := IsRemovable(nodes, cs, j, sourceCount, targetCount, inputIds);
      SelectStep(nodes, cs, j, eligible);
      if keep {
        eligible := eligible + [j];
      }
      j := j + 1;
    }
  }

  /** One step of the selecting pass: position `j` is appended exactly when it is removable. */
  lemma SelectStep(nodes: seq<Node>, cs: seq<Connection>, j: nat, eligible: seq<nat>)
    requires j < |cs| && eligible + RemovableFrom(nodes, cs, j) == RemovableFrom(nodes, cs, 0)
    ensures (if Removable(nodes, cs, cs[j]) then eligible + [j] else eligible)
              + RemovableFrom(nodes, cs, j + 1) == RemovableFrom(nodes, cs, 0)
  {
    var rest := RemovableFrom(nodes, cs, j + 1);
    if Removable(nodes, cs, cs[j]) {
      assert RemovableFrom(nodes, cs, j) == [j] + rest;
      assert eligible + ([j] + rest) == (eligible + [j]) + rest;
    }
  }

  /** The removal test on the counters for connection `j`. */
  method IsRemovable(nodes: seq<Node>, cs: seq<Connection>, j: nat,
                     sourceCount: map<int, nat>, targetCount: map<int, nat>, inputIds: seq<int>)
    returns (keep: bool)
    requires ConnectionsResolve(nodes, cs) && j < |cs|
    requires sourceCount == DegreeMap(NodeIds(nodes), cs, |cs|, true)
    requires targetCount == DegreeMap(NodeIds(nodes), cs, |cs|, false)
    requires inputIds == InputIds(nodes)
    ensures keep == Removable(nodes, cs, cs[j])
  {
    var c := cs[j];
    HasNodeIffInNodeIds(nodes, c.inputNode);
    HasNodeIffInNodeIds(nodes, c.outputNode);
    assert sourceCount[c.inputNode] == OutDegree(cs, c.inputNode);
    assert targetCount[c.outputNode] == InDegree(cs, c.outputNode);
    keep := sourceCount[c.inputNode] > 1 && (targetCount[c.outputNode] > 1 || c.outputNode in inputIds);
  }

  // ---------------------------------------------------------------------------------
  // Splitting a connection

  /** Both retry loops give up once their counter reaches `max_loops`. */
  const MaxLoops: nat := 1000

  /** `add_node_mutation` splits only an enabled connection that runs forward in the
      phenotype order (which also rules out self-loops). */
  predicate Splittable(g2p: map<int, nat>, c: Connection) {
    c.isEnabled && c.inputNode in g2p && c.outputNode in g2p && g2p[c.inputNode] < g2p[c.outputNode]
  }

  /** The attempt that stops `add_node_mutation`'s retry loop: its counter starts at 0 and
      is bumped before the cap test, so attempts 0 .. `MaxLoops - 2` are made. */
  function SplitAttempt(g2p: map<int, nat>, cs: seq<Connection>, picks: nat -> nat): Option<nat> {
    FirstAccepted<nat>((a: nat) => if |cs| > 0 then picks(a) % |cs| else 0,
                  (k: nat) => k < |cs| && Splittable(g2p, cs[k]), 0, MaxLoops - 1)
  }

  /** A genome's lists together with the registry state. */
  datatype Grown = Grown(nodes: seq<Node>, connections: seq<Connection>, registry: RegistryState)

  /** Splitting connection k: it is disabled, a hidden node whose id the registry memoises
      for the connection's id is added, and the two halves in -> new (weight 1) and
      new -> out (the old weight) are appended with registry ids for their pairs. */
  function SplitConnection(nodes: seq<Node>, cs: seq<Connection>, s: RegistryState, k: nat,
                           activation: ActivationFunction, bias: real): Grown
    requires k < |cs|
  {
    var c := cs[k];
    var node := AssignNodeIdStep(s, Some(c.connectionId));
    var id := node.1;
    var first := AssignConnectionIdStep(node.0, (c.inputNode, id));
    var second := AssignConnectionIdStep(first.0, (id, c.outputNode));
    Grown(nodes + [Node(id, Hidden, activation, bias)],
          cs[k := c.(isEnabled := false)]
            + [Connection(first.1, 1.0, c.inputNode, None, id, true),
               Connection(second.1, c.weight, id, None, c.outputNode, true)],
          second.0)
  }

  /** After a split every connection still names nodes of the genome, the old path is off
      and the new path in -> new -> out is on, carrying weight 1 then the old weight. */
  lemma SplitConnectionShape(nodes: seq<Node>, cs: seq<Connection>, s: RegistryState, k: nat,
                             activation: ActivationFunction, bias: real)
    requires k < |cs| && ConnectionsResolve(nodes, cs)
    ensures var r := SplitConnection(nodes, cs, s, k, activation, bias);
      var id := r.nodes[|nodes|].nodeId;
      && ConnectionsResolve(r.nodes, r.connections)
      && |r.nodes| == |nodes| + 1 && r.nodes[..|nodes|] == nodes
      && r.nodes[|nodes|].nodeType == Hidden
      && |r.connections| == |cs| + 2
      && !r.connections[k].isEnabled
      && r.connections[|cs|].inputNode == cs[k].inputNode && r.connections[|cs|].outputNode == id
      && r.connections[|cs|].weight == 1.0 && r.connections[|cs|].isEnabled
      && r.connections[|cs| + 1].inputNode == id && r.connections[|cs| + 1].outputNode == cs[k].outputNode
      && r.connections[|cs| + 1].weight == cs[k].weight && r.connections[|cs| + 1].isEnabled
  {
    var r := SplitConnection(nodes, cs, s, k, activation, bias);
    var id := r.nodes[|nodes|].nodeId;
    assert HasNode(r.nodes, id) by {
      assert r.nodes[|nodes|].nodeId == id;
    }
    forall x | HasNode(nodes, x) ensures HasNode(r.nodes, x) {
      var i :| 0 <= i < |nodes| && nodes[i].nodeId == x;
      assert r.nodes[i] == nodes[i];
    }
    forall j | 0 <= j < |r.connections|
      ensures HasNode(r.nodes, r.connections[j].inputNode) && HasNode(r.nodes, r.connections[j].outputNode)
      ensures r.connections[j].gaterNode.Some? ==> HasNode(r.nodes, r.connections[j].gaterNode.value)
    {
      if j < |cs| {
        assert r.connections[j].inputNode == cs[j].inputNode && r.connections[j].outputNode == cs[j].outputNode;
        assert r.connections[j].gaterNode == cs[j].gaterNode;
      }
    }
  }

  /** The same split made later in another genome, on a connection with the same id and
      endpoints, reuses the node id and both connection ids and leaves the registry as it
      is: the innovation numbers line up across genomes. */
  lemma SplitIsReproducible(nodes: seq<Node>, cs: seq<Connection>, s: RegistryState, k: nat,
                            activation: ActivationFunction, bias: real,
                            nodes': seq<Node>, cs': seq<Connection>, k': nat,
                            activation': ActivationFunction, bias': real)
    requires k < |cs| && k' < |cs'|
    requires cs'[k'].connectionId == cs[k].connectionId
    requires cs'[k'].inputNode == cs[k].inputNode && cs'[k'].outputNode == cs[k].outputNode
    ensures var r := SplitConnection(nodes, cs, s, k, activation, bias);
      var r' := SplitConnection(nodes', cs', r.registry, k', activation', bias');
      && r'.registry == r.registry
      && r'.nodes[|nodes'|].nodeId == r.nodes[|nodes|].nodeId
      && r'.connections[|cs'|].connectionId == r.connections[|cs|].connectionId
      && r'.connections[|cs'| + 1].connectionId == r.connections[|cs| + 1].connectionId
  {
    var c := cs[k];
    var (s1, id) := AssignNodeIdStep(s, Some(c.connectionId));
    assert c.connectionId in s1.nodeIdMapping && s1.nodeIdMapping[c.connectionId] == id;
    var (s2, inId) := AssignConnectionIdStep(s1, (c.inputNode, id));
    assert (c.inputNode, id) in s2.connectionIdMapping && s2.connectionIdMapping[(c.inputNode, id)] == inId;
    var (s3, outId) := AssignConnectionIdStep(s2, (id, c.outputNode));
    assert s3.nodeIdMapping == s1.nodeIdMapping;
  }

  /** `add_node_mutation`'s retry loop: the position of the first splittable draw, or none
      once the counter reaches the cap. */
  method FindSplit(g2p: map<int, nat>, cs: seq<Connection>, picks: nat -> nat) returns (found: Option<nat>)
    requires cs != []
    ensures var attempt := SplitAttempt(g2p, cs, picks);
      && (found.None? <==> attempt.None?)
      && (found.Some? ==> found.value == picks(attempt.value) % |cs| && Splittable(g2p, cs[found.value]))
  {
    var n := |cs|;
    // `a` counts the attempts already made: one less than the source's `num_loops`.
    var a := 0;
    while a + 1 < MaxLoops && !Splittable(g2p, cs[picks(a) % n])
      invariant 0 <= a < MaxLoops
      invariant SplitAttempt(g2p, cs, picks) == FirstAccepted<nat>((a: nat) => if |cs| > 0 then picks(a) % |cs| else 0,
                  (k: nat) => k < |cs| && Splittable(g2p, cs[k]), a, MaxLoops - 1)
    {
      a := a + 1;
    }
    if a + 1 >= MaxLoops {
      return None;
    }
    return Some(picks(a) % n);
  }

  /** The split itself on the genome and the registry. */
  method Split(g: Genome, reg: InnovationHandler, k: nat, activation: ActivationFunction, bias: real)
    requires g.Valid() && reg.Valid() && k < |g.connections|
    modifies g, reg
    ensures g.Valid() && reg.Valid()
    ensures Grown(g.nodes, g.connections, reg.State())
              == SplitConnection(old(g.nodes), old(g.connections), old(reg.State()), k, activation, bias)
  {
    var c := g.connections[k];
    ghost var nodes0, cs0, s0 := g.nodes, g.connections, reg.State();
    var node := SplitNode(g, reg, k, activation, bias);
    ghost var s1, cs1 := reg.State(), g.connections;
    var first := g.AddConnection(reg, 1.0, c.inputNode, None, node.nodeId, true, None);
    ghost var s2 := reg.State();
    var second := g.AddConnection(reg, c.weight, node.nodeId, None, c.outputNode, true, None);
    assert g.connections == cs1 + [first, second];
    SplitConnectionIs(nodes0, cs0, s0, k, activation, bias, node, s1, first, s2, second, reg.State());
  }

  /** The spelled-out result of `SplitConnection` from the three registry steps. */
  lemma SplitConnectionIs(nodes: seq<Node>, cs: seq<Connection>, s0: RegistryState, k: nat,
                          activation: ActivationFunction, bias: real,
                          node: Node, s1: RegistryState, first: Connection, s2: RegistryState,
                          second: Connection, s3: RegistryState)
    requires k < |cs|
    requires (s1, node.nodeId) == AssignNodeIdStep(s0, Some(cs[k].connectionId))
    requires node == Node(node.nodeId, Hidden, activation, bias)
    requires (s2, first.connectionId) == AssignConnectionIdStep(s1, (cs[k].inputNode, node.nodeId))
    requires first == Connection(first.connectionId, 1.0, cs[k].inputNode, None, node.nodeId, true)
    requires (s3, second.connectionId) == AssignConnectionIdStep(s2, (node.nodeId, cs[k].outputNode))
    requires second == Connection(second.connectionId, cs[k].weight, node.nodeId, None, cs[k].outputNode, true)
    ensures SplitConnection(nodes, cs, s0, k, activation, bias)
            == Grown(nodes + [node], cs[k := cs[k].(isEnabled := false)] + [first, second], s3)
  {
  }

  /** The first half of a split: the connection is disabled and the new node added. */
  method SplitNode(g: Genome, reg: InnovationHandler, k: nat, activation: ActivationFunction, bias: real)
    returns (node: Node)
    requires g.Valid() && reg.Valid() && k < |g.connections|
    modifies g, reg
    ensures g.Valid() && reg.Valid()
    ensures var c := old(g.connections[k]);
      && (reg.State(), node.nodeId) == AssignNodeIdStep(old(reg.State()), Some(c.connectionId))
      && node == Node(node.nodeId, Hidden, activation, bias)
      && g.nodes == old(g.nodes) + [node]
      && g.connections == old(g.connections)[k := c.(isEnabled := false)]
      && HasNode(g.nodes, c.inputNode) && HasNode(g.nodes, c.outputNode) && HasNode(g.nodes, node.nodeId)
  {
    var c := g.connections[k];
    assert HasNode(g.nodes, c.inputNode) && HasNode(g.nodes, c.outputNode);
    var i :| 0 <= i < |g.nodes| && g.nodes[i].nodeId == c.inputNode;
    var j :| 0 <= j < |g.nodes| && g.nodes[j].nodeId == c.outputNode;
    g.connections := g.connections[k := c.(isEnabled := false)];
    SameWiringResolves(g.nodes, old(g.connections), g.connections);
    node := g.AddNode(reg, Hidden, activation, bias, Some(c.connectionId), None);
    assert g.nodes[|g.nodes| - 1] == node && g.nodes[i] == old(g.nodes)[i] && g.nodes[j] == old(g.nodes)[j];
  }

  /** `add_node_mutation`: re-draws a connection until one is splittable, at most
      `MaxLoops - 1` times, and splits it; the new node's function is the one at
      `functionPick` and its bias is `bias`; then the phenotype is rebuilt.  The lookups in
      `node_geno_to_pheno` need the phenotype of the current lists. */
  method AddNodeMutation(g: Genome, reg: InnovationHandler, picks: nat -> nat, functionPick: nat, bias: real)
    returns (outcome: Outcome)
    requires g.Valid() && g.Compiled() && reg.Valid()
    modifies g, reg
    ensures g.Valid() && reg.Valid()
    ensures outcome == Raised(NoChoice) <==> old(g.connections) == []
    ensures outcome == Raised(NoChoice) || outcome.Skipped? ==>
              g.nodes == old(g.nodes) && g.connections == old(g.connections) && reg.State() == old(reg.State())
    ensures old(g.connections) != [] ==>
      var attempt := SplitAttempt(old(g.genoToPheno), old(g.connections), picks);
      && (attempt.None? <==> outcome.Skipped?)
      && (attempt.Some? ==>
            var k := picks(attempt.value) % |old(g.connections)|;
            && Splittable(old(g.genoToPheno), old(g.connections)[k])
            && Grown(g.nodes, g.connections, reg.State())
                 == SplitConnection(old(g.nodes), old(g.connections), old(reg.State()), k,
                                    AllFunctions[functionPick % |AllFunctions|], bias)
            && outcome == CompileOutcome(OrderOf(g.nodes, g.connections)))
    ensures outcome.Applied? ==> g.Compiled()
  {
    if |g.connections| == 0 {
      return Raised(NoChoice);
    }
    var found := FindSplit(g.genoToPheno, g.connections, picks);
    if found.None? {
      return Skipped;
    }
    Split(g, reg, found.value, AllFunctions[functionPick % |AllFunctions|], bias);
    SplitConnectionShape(old(g.nodes), old(g.connections), old(reg.State()), found.value,
                         AllFunctions[functionPick % |AllFunctions|], bias);
    var r := g.CreatePhenotype();
    outcome := CompileOutcome(r);
  }

  // ---------------------------------------------------------------------------------
  // Adding a connection

  /** `c` runs from `a` to `b` or from `b` to `a`. */
  predicate Joins(c: Connection, a: int, b: int) {
    (c.inputNode == a && c.outputNode == b) || (c.inputNode == b && c.outputNode == a)
  }

  /** Some connection joins `a` and `b`, in either direction. */
  predicate Connected(cs: seq<Connection>, a: int, b: int) {
    exists k :: 0 <= k < |cs| && Joins(cs[k], a, b)
  }

  /** The scan of `add_connection_mutation` for a connection between two nodes, stopping at
      the first one found. */
  method AreConnected(cs: seq<Connection>, a: int, b: int) returns (found: bool)
    ensures found <==> Connected(cs, a, b)
  {
    found := false;
    var k := 0;
    while k < |cs|
      invariant 0 <= k <= |cs|
      invariant forall j :: 0 <= j < k ==> !Joins(cs[j], a, b)
    {
      if Joins(cs[k], a, b) {
        found := true;
        break;
      }
      k := k + 1;
    }
  }

  /** The two node positions drawn at attempt `a`. */
  function PairAt(picks: nat -> (nat, nat), n: nat, a: nat): (nat, nat) {
    if n > 0 then (picks(a).0 % n, picks(a).1 % n) else (0, 0)
  }

  /** The drawn nodes exist and have no connection between them in either direction; the
      two may be the same node. */
  predicate Unconnected(nodes: seq<Node>, cs: seq<Connection>, p: (nat, nat)) {
    p.0 < |nodes| && p.1 < |nodes| && !Connected(cs, nodes[p.0].nodeId, nodes[p.1].nodeId)
  }

  /** The attempt that stops `add_connection_mutation`'s retry loop, counting from `from`: its
      counter starts at -1 and is bumped before the cap test, so attempts 0 .. `MaxLoops - 1`
      are made. */
  function ConnectAttempt(nodes: seq<Node>, cs: seq<Connection>, picks: nat -> (nat, nat), from: nat): Option<nat> {
    FirstAccepted((a: nat) => PairAt(picks, |nodes|, a), (p: (nat, nat)) => Unconnected(nodes, cs, p), from, MaxLoops)
  }

  /** `add_connection_mutation`'s retry loop: the first drawn pair of unconnected nodes, or
      none once the counter reaches the cap. */
  method FindPair(nodes: seq<Node>, cs: seq<Connection>, picks: nat -> (nat, nat)) returns (found: Option<(nat, nat)>)
    requires nodes != []
    ensures var attempt := ConnectAttempt(nodes, cs, picks, 0);
      && (found.None? <==> attempt.None?)
      && (found.Some? ==> found.value == PairAt(picks, |nodes|, attempt.value) && Unconnected(nodes, cs, found.value))
  {
    var n := |nodes|;
    var a := 0;
    while a < MaxLoops
      invariant 0 <= a <= MaxLoops
      invariant ConnectAttempt(nodes, cs, picks, a) == ConnectAttempt(nodes, cs, picks, 0)
    {
      var p := (picks(a).0 % n, picks(a).1 % n);
      assert p == PairAt(picks, n, a);
      var connected := AreConnected(cs, nodes[p.0].nodeId, nodes[p.1].nodeId);
      if !connected {
        assert ConnectAttempt(nodes, cs, picks, a) == Some(a);
        return Some(p);
      }
      a := a + 1;
    }
    assert ConnectAttempt(nodes, cs, picks, a).None?;
    return None;
  }

  /** `add_connection_mutation`: re-draws two nodes until they are unconnected, at most
      `MaxLoops` times, and connects the first to the second with weight `weight` and a
      registry id for the pair; then the phenotype is rebuilt. */
  method AddConnectionMutation(g: Genome, reg: InnovationHandler, picks: nat -> (nat, nat), weight: real)
    returns (outcome: Outcome)
    requires g.Valid() && reg.Valid()
    modifies g, reg
    ensures g.Valid() && reg.Valid() && g.nodes == old(g.nodes)
    ensures outcome == Raised(NoChoice) <==> old(g.nodes) == []
    ensures outcome == Raised(NoChoice) || outcome.Skipped? ==>
              g.connections == old(g.connections) && reg.State() == old(reg.State())
    ensures old(g.nodes) != [] ==>
      var attempt := ConnectAttempt(old(g.nodes), old(g.connections), picks, 0);
      && (attempt.None? <==> outcome.Skipped?)
      && (attempt.Some? ==>
            var p := PairAt(picks, |old(g.nodes)|, attempt.value);
            var a := old(g.nodes)[p.0].nodeId;
            var b := old(g.nodes)[p.1].nodeId;
            && !Connected(old(g.connections), a, b)
            && |g.connections| == |old(g.connections)| + 1
            && var id := g.connections[|old(g.connections)|].connectionId;
            && (reg.State(), id) == AssignConnectionIdStep(old(reg.State()), (a, b))
            && g.connections == old(g.connections) + [Connection(id, weight, a, None, b, true)]
            && outcome == CompileOutcome(OrderOf(g.nodes, g.connections)))
    ensures outcome.Applied? ==> g.Compiled()
  {
    if |g.nodes| == 0 {
      return Raised(NoChoice);
    }
    var found := FindPair(g.nodes, g.connections, picks);
    if found.None? {
      return Skipped;
    }
    var a := g.nodes[found.value.0].nodeId;
    var b := g.nodes[found.value.1].nodeId;
    assert HasNode(g.nodes, a) && HasNode(g.nodes, b);
    var c := g.AddConnection(reg, weight, a, None, b, true, None);
    var r := g.CreatePhenotype();
    outcome := CompileOutcome(r);
  }

  /** No two connections join the same two nodes, in either direction. */
  predicate UniquePairs(cs: seq<Connection>) {
    forall i, j :: 0 <= i < j < |cs| ==> !Joins(cs[j], cs[i].inputNode, cs[i].outputNode)
  }

  /** Connecting only unconnected nodes keeps every pair of nodes joined at most once. */
  lemma ConnectingKeepsPairsUnique(cs: seq<Connection>, c: Connection)
    requires UniquePairs(cs) && !Connected(cs, c.inputNode, c.outputNode)
    ensures UniquePairs(cs + [c])
  {
    forall i, j | 0 <= i < j < |cs| + 1
      ensures !Joins((cs + [c])[j], (cs + [c])[i].inputNode, (cs + [c])[i].outputNode)
    {
      if j == |cs| {
        assert !Joins(cs[i], c.inputNode, c.outputNode);
      }
    }
  }

  // ---------------------------------------------------------------------------------
  // Removing a hidden node: the specification, phase by phase

  /** The positions from `from` on, ascending, of the hidden nodes. */
  function HiddenFrom(nodes: seq<Node>, from: nat): (r: seq<nat>)
    ensures forall x :: x in r <==> from <= x < |nodes| && nodes[x].nodeType == Hidden
    ensures forall i :: 0 <= i < |r| ==> r[i] < |nodes| && nodes[r[i]].nodeType == Hidden
    decreases |nodes| - from
  {
    if from >= |nodes| then []
    else
      var rest := HiddenFrom(nodes, from + 1);
      if nodes[from].nodeType == Hidden then [from] + rest else rest
  }

  /** `c` runs into `rid` from another node (`incoming`), or out of `rid` to another node. */
  predicate Touches(c: Connection, rid: int, incoming: bool) {
    if incoming then c.outputNode == rid && c.inputNode != rid
    else c.inputNode == rid && c.outputNode != rid
  }

  /** The endpoint of `c` at the far side from the removed node. */
  function FarEnd(c: Connection, incoming: bool): int {
    if incoming then c.inputNode else c.outputNode
  }

  /** The gater of `c` as a list of zero or one ids. */
  function GaterList(c: Connection): seq<int> {
    if c.gaterNode.Some? then [c.gaterNode.value] else []
  }

  /** The two lists one collecting loop of `mutate_remove_node` builds over the first `k`
      connections: the far ends of the connections into (or out of) `rid`, and their
      gaters, in list order. */
  function Neighbours(cs: seq<Connection>, k: nat, rid: int, incoming: bool): (r: (seq<int>, seq<int>))
    requires k <= |cs|
    ensures forall x :: x in r.0 <==> exists j :: 0 <= j < k && Touches(cs[j], rid, incoming) && FarEnd(cs[j], incoming) == x
    ensures forall x :: x in r.1 ==> exists j :: 0 <= j < k && Touches(cs[j], rid, incoming) && cs[j].gaterNode == Some(x)
  {
    if k == 0 then ([], [])
    else
      var prev := Neighbours(cs, k - 1, rid, incoming);
      var c := cs[k - 1];
      if Touches(c, rid, incoming) then (prev.0 + [FarEnd(c, incoming)], prev.1 + GaterList(c))
      else prev
  }

  /** Every id of the list names a node, and none is the removed one. */
  lemma NeighboursResolve(nodes: seq<Node>, cs: seq<Connection>, rid: int, incoming: bool)
    requires ConnectionsResolve(nodes, cs)
    ensures var r := Neighbours(cs, |cs|, rid, incoming);
      && (forall x :: x in r.0 ==> HasNode(nodes, x) && x != rid)
      && (forall x :: x in r.1 ==> HasNode(nodes, x))
  {
  }

  /** The state of the bridging loops: the connection list, the registry, and the list
      `new_connections` of bridging connections, by position. */
  datatype Bridging = Bridging(connections: seq<Connection>, registry: RegistryState, pool: seq<nat>)

  /** The positions from `from` on, ascending, of the connections from `s` to `t`. */
  function Between(cs: seq<Connection>, s: int, t: int, from: nat): (r: seq<nat>)
    ensures forall x :: x in r <==> from <= x < |cs| && cs[x].inputNode == s && cs[x].outputNode == t
    ensures forall i :: 0 <= i < |r| ==> r[i] < |cs|
    ensures forall i, j :: 0 <= i < j < |r| ==> r[i] < r[j]
    decreases |cs| - from
  {
    if from >= |cs| then []
    else
      var rest := Between(cs, s, t, from + 1);
      assert forall j :: 0 <= j < |rest| ==> from < rest[j] by {
        forall j | 0 <= j < |rest| ensures from < rest[j] {
          assert rest[j] in rest;
        }
      }
      if cs[from].inputNode == s && cs[from].outputNode == t then [from] + rest else rest
  }

  /** Every connection from `s` to `t` enabled, the rest as they are. */
  function EnableBetween(cs: seq<Connection>, s: int, t: int): (r: seq<Connection>)
    ensures |r| == |cs|
    ensures forall k :: 0 <= k < |cs| ==>
              r[k] == if cs[k].inputNode == s && cs[k].outputNode == t then cs[k].(isEnabled := true) else cs[k]
  {
    seq(|cs|, k requires 0 <= k < |cs| =>
      if cs[k].inputNode == s && cs[k].outputNode == t then cs[k].(isEnabled := true) else cs[k])
  }

  /** One step of the bridging loops: with no connection from `s` to `t` a new enabled one
      with weight `w` and the registry's id for the pair is appended; otherwise all the
      existing ones are enabled.  Either way they join `new_connections`. */
  function BridgePair(b: Bridging, s: int, t: int, w: real): Bridging {
    var existing := Between(b.connections, s, t, 0);
    if existing == [] then
      var step := AssignConnectionIdStep(b.registry, (s, t));
      Bridging(b.connections + [Connection(step.1, w, s, None, t, true)], step.0, b.pool + [|b.connections|])
    else
      Bridging(EnableBetween(b.connections, s, t), b.registry, b.pool + existing)
  }

  /** The bridging loops from source `i` and target `j` on; the weight drawn for the pair
      (i, j) is `w((i, j))`. */
  function BridgeFrom(b: Bridging, sources: seq<int>, targets: seq<int>, i: nat, j: nat,
                      w: ((nat, nat)) -> real): Bridging
    decreases |sources| - i, |targets| - j
  {
    if i >= |sources| then b
    else if j >= |targets| then BridgeFrom(b, sources, targets, i + 1, 0, w)
    else BridgeFrom(BridgePair(b, sources[i], targets[j], w((i, j))), sources, targets, i, j + 1, w)
  }

  /** Some enabled connection runs from `s` to `t`. */
  predicate HasEnabled(cs: seq<Connection>, s: int, t: int) {
    exists k :: 0 <= k < |cs| && cs[k].inputNode == s && cs[k].outputNode == t && cs[k].isEnabled
  }

  /** `cs'` extends `cs`, and the connections of `cs` differ at most by being enabled. */
  predicate Grows(cs: seq<Connection>, cs': seq<Connection>) {
    && |cs| <= |cs'|
    && forall k :: 0 <= k < |cs| ==>
         cs'[k].(isEnabled := cs[k].isEnabled) == cs[k] && (cs[k].isEnabled ==> cs'[k].isEnabled)
  }

  /** Every connection appended to `cs` runs from one of `sources` to one of `targets`, ungated. */
  predicate AppendsBetween(cs: seq<Connection>, cs': seq<Connection>, sources: seq<int>, targets: seq<int>) {
    forall k :: |cs| <= k < |cs'| ==>
      cs'[k].inputNode in sources && cs'[k].outputNode in targets && cs'[k].gaterNode.None?
  }

  /** Every position in the pool names a connection. */
  predicate PoolInRange(b: Bridging) {
    forall e :: e in b.pool ==> e < |b.connections|
  }

  lemma GrowsKeepsEnabled(cs: seq<Connection>, cs': seq<Connection>, s: int, t: int)
    requires Grows(cs, cs') && HasEnabled(cs, s, t)
    ensures HasEnabled(cs', s, t)
  {
    var k :| 0 <= k < |cs| && cs[k].inputNode == s && cs[k].outputNode == t && cs[k].isEnabled;
    assert cs'[k].(isEnabled := cs[k].isEnabled) == cs[k];
  }

  /** One bridging step grows the list only by enabling and by appending the pair's
      connection, leaves an enabled connection from `s` to `t`, and keeps the pool in range. */
  lemma BridgePairSpec(b: Bridging, s: int, t: int, w: real)
    requires PoolInRange(b)
    ensures var b' := BridgePair(b, s, t, w);
      && Grows(b.connections, b'.connections)
      && AppendsBetween(b.connections, b'.connections, [s], [t])
      && HasEnabled(b'.connections, s, t)
      && PoolInRange(b')
  {
    var existing := Between(b.connections, s, t, 0);
    var b' := BridgePair(b, s, t, w);
    if existing == [] {
      assert b'.connections[|b.connections|].inputNode == s;
    } else {
      var k := existing[0];
      assert k in existing;
      assert b'.connections[k].isEnabled;
    }
  }

  /** The bridging loops, from (i, j) on: the list only grows by enabling and by appending
      ungated connections from a source to a target, and afterwards every pair still to be
      visited, and every pair already joined, has an enabled connection. */
  lemma {:induction false} BridgeFromSpec(b: Bridging, sources: seq<int>, targets: seq<int>, i: nat, j: nat,
                                          w: ((nat, nat)) -> real)
    requires PoolInRange(b)
    ensures var b' := BridgeFrom(b, sources, targets, i, j, w);
      && Grows(b.connections, b'.connections)
      && AppendsBetween(b.connections, b'.connections, sources, targets)
      && PoolInRange(b')
      && (forall i', j' :: i <= i' < |sources| && 0 <= j' < |targets| && (i' > i || j' >= j) ==>
            HasEnabled(b'.connections, sources[i'], targets[j']))
      && (forall x, y :: HasEnabled(b.connections, x, y) ==> HasEnabled(b'.connections, x, y))
    decreases |sources| - i, |targets| - j
  {
    var b' := BridgeFrom(b, sources, targets, i, j, w);
    if i >= |sources| {
    } else if j >= |targets| {
      BridgeFromSpec(b, sources, targets, i + 1, 0, w);
    } else {
      var s, t := sources[i], targets[j];
      var b1 := BridgePair(b, s, t, w((i, j)));
      BridgePairSpec(b, s, t, w((i, j)));
      BridgeFromSpec(b1, sources, targets, i, j + 1, w);
      assert HasEnabled(b'.connections, s, t) by {
        GrowsKeepsEnabled(b1.connections, b'.connections, s, t);
      }
      forall x, y | HasEnabled(b.connections, x, y) ensures HasEnabled(b'.connections, x, y) {
        GrowsKeepsEnabled(b.connections, b1.connections, x, y);
      }
      GrowsTrans(b.connections, b1.connections, b'.connections);
      AppendsTrans(b.connections, b1.connections, b'.connections, sources, targets, s, t);
    }
  }

  lemma GrowsTrans(cs: seq<Connection>, cs1: seq<Connection>, cs2: seq<Connection>)
    requires Grows(cs, cs1) && Grows(cs1, cs2)
    ensures Grows(cs, cs2)
  {
    forall k | 0 <= k < |cs|
      ensures cs2[k].(isEnabled := cs[k].isEnabled) == cs[k]
      ensures cs[k].isEnabled ==> cs2[k].isEnabled
    {
      assert cs1[k].(isEnabled := cs[k].isEnabled) == cs[k];
      assert cs2[k].(isEnabled := cs1[k].isEnabled) == cs1[k];
    }
  }

  lemma AppendsTrans(cs: seq<Connection>, cs1: seq<Connection>, cs2: seq<Connection>,
                     sources: seq<int>, targets: seq<int>, s: int, t: int)
    requires Grows(cs1, cs2) && s in sources && t in targets
    requires AppendsBetween(cs, cs1, [s], [t]) && AppendsBetween(cs1, cs2, sources, targets)
    ensures AppendsBetween(cs, cs2, sources, targets)
  {
    forall k | |cs| <= k < |cs2|
      ensures cs2[k].inputNode in sources && cs2[k].outputNode in targets
      ensures cs2[k].gaterNode.None?
    {
      if k < |cs1| {
        assert cs2[k].(isEnabled := cs1[k].isEnabled) == cs1[k];
      }
    }
  }

  /** The first occurrence of `e` taken out of the list, as `list.remove` does. */
  function RemoveFirst(pool: seq<nat>, e: nat): (r: seq<nat>)
    requires e in pool
    ensures |r| == |pool| - 1
    ensures forall x :: x in r ==> x in pool
  {
    var i := IndexOf(pool, e);
    pool[..i] + pool[i + 1..]
  }

  /** The gater loop from gater `i` on: while bridging connections are left, the one at
      `draws(i)` among them gets gater i and leaves the pool. */
  function PlaceGaters(cs: seq<Connection>, pool: seq<nat>, gaters: seq<int>, draws: nat -> nat, i: nat)
    : (r: seq<Connection>)
    requires forall e :: e in pool ==> e < |cs|
    ensures |r| == |cs|
    decreases |gaters| - i
  {
    if i >= |gaters| || pool == [] then cs
    else
      var e := pool[draws(i) % |pool|];
      assert e in pool;
      PlaceGaters(cs[e := cs[e].(gaterNode := Some(gaters[i]))], RemoveFirst(pool, e), gaters, draws, i + 1)
  }

  /** Two lists that differ at most in their gaters. */
  predicate SameButGaters(cs: seq<Connection>, cs': seq<Connection>) {
    && |cs| == |cs'|
    && forall k :: 0 <= k < |cs| ==> cs'[k].(gaterNode := cs[k].gaterNode) == cs[k]
  }

  /** The pool positions the gater loop picks, from gater `i` on, in order: one per gater
      while the pool lasts. */
  function Placements(pool: seq<nat>, n: nat, draws: nat -> nat, i: nat): (ps: seq<nat>)
    ensures |ps| == if i >= n then 0 else if n - i < |pool| then n - i else |pool|
    ensures forall j :: 0 <= j < |ps| ==> ps[j] in pool
    decreases n - i
  {
    if i >= n || pool == [] then []
    else
      var e := pool[draws(i) % |pool|];
      [e] + Placements(RemoveFirst(pool, e), n, draws, i + 1)
  }

  /** Placing gaters changes only gaters and only at the picked pool positions, at most one
      per gater, and each changed gater is one of those collected. */
  lemma {:induction false} PlaceGatersSpec(cs: seq<Connection>, pool: seq<nat>, gaters: seq<int>,
                                           draws: nat -> nat, i: nat)
    requires forall e :: e in pool ==> e < |cs|
    ensures var r := PlaceGaters(cs, pool, gaters, draws, i);
      var ps := Placements(pool, |gaters|, draws, i);
      && SameButGaters(cs, r)
      && (forall k :: 0 <= k < |cs| && k !in ps ==> r[k] == cs[k])
      && forall k :: 0 <= k < |cs| && r[k].gaterNode != cs[k].gaterNode ==>
           r[k].gaterNode.Some? && r[k].gaterNode.value in gaters
    decreases |gaters| - i
  {
    if i < |gaters| && pool != [] {
      var e := pool[draws(i) % |pool|];
      assert e in pool;
      var cs1 := cs[e := cs[e].(gaterNode := Some(gaters[i]))];
      var pool1 := RemoveFirst(pool, e);
      PlaceGatersSpec(cs1, pool1, gaters, draws, i + 1);
      var r := PlaceGaters(cs1, pool1, gaters, draws, i + 1);
      assert Placements(pool, |gaters|, draws, i) == [e] + Placements(pool1, |gaters|, draws, i + 1);
      forall k | 0 <= k < |cs| ensures r[k].(gaterNode := cs[k].gaterNode) == cs[k] {
        assert r[k].(gaterNode := cs1[k].gaterNode) == cs1[k];
      }
    }
  }

  /** The `j`-th picked connection ends up gated by gater `i + j`, unless a later gater
      picks the same position again. */
  lemma {:induction false} PlaceGatersPicked(cs: seq<Connection>, pool: seq<nat>, gaters: seq<int>,
                                             draws: nat -> nat, i: nat, j: nat)
    requires forall e :: e in pool ==> e < |cs|
    requires j < |Placements(pool, |gaters|, draws, i)|
    requires Placements(pool, |gaters|, draws, i)[j] !in Placements(pool, |gaters|, draws, i)[j + 1..]
    ensures var ps := Placements(pool, |gaters|, draws, i);
      ps[j] < |cs| && i + j < |gaters| &&
      PlaceGaters(cs, pool, gaters, draws, i)[ps[j]].gaterNode == Some(gaters[i + j])
    decreases |gaters| - i
  {
    var e := pool[draws(i) % |pool|];
    assert e in pool;
    var cs1 := cs[e := cs[e].(gaterNode := Some(gaters[i]))];
    var pool1 := RemoveFirst(pool, e);
    var ps1 := Placements(pool1, |gaters|, draws, i + 1);
    var ps := Placements(pool, |gaters|, draws, i);
    assert ps == [e] + ps1;
    if j == 0 {
      assert ps[1..] == ps1;
      PlaceGatersSpec(cs1, pool1, gaters, draws, i + 1);
    } else {
      assert ps[j] == ps1[j - 1] && ps[j + 1..] == ps1[j..];
      PlaceGatersPicked(cs1, pool1, gaters, draws, i + 1, j - 1);
    }
  }

  /** Every gater equal to `rid` cleared. */
  function ClearGater(cs: seq<Connection>, rid: int): (r: seq<Connection>)
    ensures SameButGaters(cs, r)
    ensures forall k :: 0 <= k < |cs| ==>
              r[k].gaterNode == if cs[k].gaterNode == Some(rid) then None else cs[k].gaterNode
  {
    seq(|cs|, k requires 0 <= k < |cs| =>
      if cs[k].gaterNode == Some(rid) then cs[k].(gaterNode := None) else cs[k])
  }

  /** The connections that neither start nor end at `rid`, in order. */
  function Detached(cs: seq<Connection>, rid: int): (r: seq<Connection>)
    ensures forall c :: c in r <==> c in cs && c.inputNode != rid && c.outputNode != rid
  {
    if cs == [] then []
    else
      var rest := Detached(cs[1..], rid);
      assert forall c :: c in cs <==> c == cs[0] || c in cs[1..];
      if cs[0].inputNode != rid && cs[0].outputNode != rid then [cs[0]] + rest else rest
  }

  /** What `mutate_remove_node` leaves of the connection list and the registry once the
      node with id `rid` is chosen: collect, bridge, place gaters, clear gaters, detach. */
  function RemovedWiring(cs: seq<Connection>, s: RegistryState, rid: int,
                         w: ((nat, nat)) -> real, gaterDraws: nat -> nat): (seq<Connection>, RegistryState)
  {
    var (sources, inGaters) := Neighbours(cs, |cs|, rid, true);
    var (targets, outGaters) := Neighbours(cs, |cs|, rid, false);
    var b := BridgeFrom(Bridging(cs, s, []), sources, targets, 0, 0, w);
    BridgeFromSpec(Bridging(cs, s, []), sources, targets, 0, 0, w);
    var placed := PlaceGaters(b.connections, b.pool, inGaters + outGaters, gaterDraws, 0);
    (Detached(ClearGater(placed, rid), rid), b.registry)
  }

  /** Dropping the node at position `p` keeps every other id named. */
  lemma DropNodeKeepsOthers(nodes: seq<Node>, p: nat, x: int)
    requires p < |nodes| && HasNode(nodes, x) && x != nodes[p].nodeId
    ensures HasNode(nodes[..p] + nodes[p + 1..], x)
  {
    var i :| 0 <= i < |nodes| && nodes[i].nodeId == x;
    var rest := nodes[..p] + nodes[p + 1..];
    if i < p {
      assert rest[i] == nodes[i];
    } else {
      assert rest[i - 1] == nodes[i];
    }
  }

  /** Bridging keeps every connection resolving when the sources and targets are node ids. */
  lemma BridgedResolve(nodes: seq<Node>, cs: seq<Connection>, cs': seq<Connection>,
                       sources: seq<int>, targets: seq<int>)
    requires ConnectionsResolve(nodes, cs)
    requires Grows(cs, cs') && AppendsBetween(cs, cs', sources, targets)
    requires forall x :: x in sources ==> HasNode(nodes, x)
    requires forall x :: x in targets ==> HasNode(nodes, x)
    ensures ConnectionsResolve(nodes, cs')
  {
    forall m | 0 <= m < |cs'|
      ensures HasNode(nodes, cs'[m].inputNode) && HasNode(nodes, cs'[m].outputNode)
      ensures cs'[m].gaterNode.Some? ==> HasNode(nodes, cs'[m].gaterNode.value)
    {
      if m < |cs| {
        assert cs'[m].(isEnabled := cs[m].isEnabled) == cs[m];
      }
    }
  }

  /** Clearing the gaters equal to `rid` and detaching the connections at `rid` leaves no
      reference to it, and every other reference resolves in the list without the node at `p`. */
  lemma DetachedResolve(nodes: seq<Node>, p: nat, base: seq<Connection>, placed: seq<Connection>, gaters: seq<int>)
    requires p < |nodes| && ConnectionsResolve(nodes, base)
    requires SameButGaters(base, placed)
    requires forall k :: 0 <= k < |base| && placed[k].gaterNode != base[k].gaterNode ==>
               placed[k].gaterNode.Some? && placed[k].gaterNode.value in gaters
    requires forall x :: x in gaters ==> HasNode(nodes, x)
    ensures var rid := nodes[p].nodeId;
      var r := Detached(ClearGater(placed, rid), rid);
      && (forall k :: 0 <= k < |r| ==>
            r[k].inputNode != rid && r[k].outputNode != rid && r[k].gaterNode != Some(rid))
      && ConnectionsResolve(nodes[..p] + nodes[p + 1..], r)
  {
    var rid := nodes[p].nodeId;
    var cleared := ClearGater(placed, rid);
    var r := Detached(cleared, rid);
    forall k | 0 <= k < |r|
      ensures r[k].inputNode != rid && r[k].outputNode != rid && r[k].gaterNode != Some(rid)
      ensures HasNode(nodes[..p] + nodes[p + 1..], r[k].inputNode)
      ensures HasNode(nodes[..p] + nodes[p + 1..], r[k].outputNode)
      ensures r[k].gaterNode.Some? ==> HasNode(nodes[..p] + nodes[p + 1..], r[k].gaterNode.value)
    {
      assert r[k] in r;
      var m :| 0 <= m < |cleared| && cleared[m] == r[k];
      assert placed[m].(gaterNode := base[m].gaterNode) == base[m];
      assert cleared[m].(gaterNode := placed[m].gaterNode) == placed[m];
      DropNodeKeepsOthers(nodes, p, r[k].inputNode);
      DropNodeKeepsOthers(nodes, p, r[k].outputNode);
      if r[k].gaterNode.Some? {
        DropNodeKeepsOthers(nodes, p, r[k].gaterNode.value);
      }
    }
  }

  /** An enabled connection between two nodes other than `rid` survives gater placement,
      clearing and detaching. */
  lemma DetachedKeepsEnabled(base: seq<Connection>, placed: seq<Connection>, rid: int, x: int, y: int)
    requires SameButGaters(base, placed) && HasEnabled(base, x, y) && x != rid && y != rid
    ensures HasEnabled(Detached(ClearGater(placed, rid), rid), x, y)
  {
    var cleared := ClearGater(placed, rid);
    var r := Detached(cleared, rid);
    var m :| 0 <= m < |base| && base[m].inputNode == x && base[m].outputNode == y && base[m].isEnabled;
    assert placed[m].(gaterNode := base[m].gaterNode) == base[m];
    assert cleared[m].(gaterNode := placed[m].gaterNode) == placed[m];
    assert cleared[m] in cleared;
    assert cleared[m] in r;
    var n :| 0 <= n < |r| && r[n] == cleared[m];
  }

  /** What `mutate_remove_node` promises about the wiring it leaves: no connection starts,
      ends or is gated at the removed node; every remaining id names a node that is left;
      and for each connection s -> removed and removed -> t there is an enabled s -> t. */
  lemma {:induction false} RemovedWiringSpec(nodes: seq<Node>, cs: seq<Connection>, s: RegistryState, p: nat,
                                             w: ((nat, nat)) -> real, gaterDraws: nat -> nat)
    requires p < |nodes| && ConnectionsResolve(nodes, cs)
    ensures var rid := nodes[p].nodeId;
      var r := RemovedWiring(cs, s, rid, w, gaterDraws).0;
      && (forall k :: 0 <= k < |r| ==>
            r[k].inputNode != rid && r[k].outputNode != rid && r[k].gaterNode != Some(rid))
      && ConnectionsResolve(nodes[..p] + nodes[p + 1..], r)
      && (forall j, j' :: 0 <= j < |cs| && 0 <= j' < |cs| && Touches(cs[j], rid, true) && Touches(cs[j'], rid, false) ==>
            HasEnabled(r, cs[j].inputNode, cs[j'].outputNode))
  {
    var rid := nodes[p].nodeId;
    var (sources, inGaters) := Neighbours(cs, |cs|, rid, true);
    var (targets, outGaters) := Neighbours(cs, |cs|, rid, false);
    NeighboursResolve(nodes, cs, rid, true);
    NeighboursResolve(nodes, cs, rid, false);
    var gaters := inGaters + outGaters;
    var b := BridgeFrom(Bridging(cs, s, []), sources, targets, 0, 0, w);
    BridgeFromSpec(Bridging(cs, s, []), sources, targets, 0, 0, w);
    BridgedResolve(nodes, cs, b.connections, sources, targets);
    var placed := PlaceGaters(b.connections, b.pool, gaters, gaterDraws, 0);
    PlaceGatersSpec(b.connections, b.pool, gaters, gaterDraws, 0);
    DetachedResolve(nodes, p, b.connections, placed, gaters);
    var r := Detached(ClearGater(placed, rid), rid);
    assert r == RemovedWiring(cs, s, rid, w, gaterDraws).0;
    forall j, j' | 0 <= j < |cs| && 0 <= j' < |cs| && Touches(cs[j], rid, true) && Touches(cs[j'], rid, false)
      ensures HasEnabled(r, cs[j].inputNode, cs[j'].outputNode)
    {
      var x, y := cs[j].inputNode, cs[j'].outputNode;
      assert x in sources && y in targets;
      var i' :| 0 <= i' < |sources| && sources[i'] == x;
      var j'' :| 0 <= j'' < |targets| && targets[j''] == y;
      DetachedKeepsEnabled(b.connections, placed, rid, x, y);
    }
  }

  // ---------------------------------------------------------------------------------
  // Removing a hidden node: the operator

  /** One of the two collecting loops of `mutate_remove_node`. */
  method CollectNeighbours(cs: seq<Connection>, rid: int, incoming: bool) returns (ends: seq<int>, gaters: seq<int>)
    ensures (ends, gaters) == Neighbours(cs, |cs|, rid, incoming)
  {
    ends, gaters := [], [];
    var k := 0;
    while k < |cs|
      invariant 0 <= k <= |cs|
      invariant (ends, gaters) == Neighbours(cs, k, rid, incoming)
    {
      var c := cs[k];
      ghost var next := if Touches(c, rid, incoming) then (ends + [FarEnd(c, incoming)], gaters + GaterList(c))
                        else (ends, gaters);
      assert Neighbours(cs, k + 1, rid, incoming) == next;
      if Touches(c, rid, incoming) {
        ends := ends + [FarEnd(c, incoming)];
        if c.gaterNode.Some? {
          gaters := gaters + [c.gaterNode.value];
        } else {
          assert gaters + GaterList(c) == gaters;
        }
      }
      assert (ends, gaters) == next;
      k := k + 1;
    }
  }

  /** `for conn in existing_connections: conn.is_enabled = True`. */
  method EnableEach(cs: seq<Connection>, s: int, t: int, existing: seq<nat>) returns (cs': seq<Connection>)
    requires existing == Between(cs, s, t, 0)
    ensures cs' == EnableBetween(cs, s, t)
  {
    cs' := cs;
    var i := 0;
    while i < |existing|
      invariant 0 <= i <= |existing|
      invariant |cs'| == |cs|
      invariant forall k :: 0 <= k < |cs| ==>
                  cs'[k] == cs[k] || (cs[k].inputNode == s && cs[k].outputNode == t && cs'[k] == cs[k].(isEnabled := true))
      invariant forall j :: 0 <= j < i ==> cs'[existing[j]] == cs[existing[j]].(isEnabled := true)
    {
      var e := existing[i];
      assert e in existing;
      cs' := cs'[e := cs[e].(isEnabled := true)];
      i := i + 1;
    }
    forall k | 0 <= k < |cs|
      ensures cs'[k] == EnableBetween(cs, s, t)[k]
    {
      if cs[k].inputNode == s && cs[k].outputNode == t {
        assert k in existing;
        var j := IndexOf(existing, k);
        assert cs'[existing[j]] == cs[existing[j]].(isEnabled := true);
      }
    }
  }

  /** One step of the bridging loops on the genome and the registry. */
  method BridgeStep(g: Genome, reg: InnovationHandler, s: int, t: int, w: real, pool: seq<nat>)
    returns (pool': seq<nat>)
    requires reg.Valid() && HasNode(g.nodes, s) && HasNode(g.nodes, t)
    modifies g, reg
    ensures reg.Valid() && g.nodes == old(g.nodes)
    ensures Bridging(g.connections, reg.State(), pool')
              == BridgePair(Bridging(old(g.connections), old(reg.State()), pool), s, t, w)
  {
    var existing := Between(g.connections, s, t, 0);
    if existing == [] {
      var n := |g.connections|;
      var c := g.AddConnection(reg, w, s, None, t, true, None);
      pool' := pool + [n];
    } else {
      g.connections := EnableEach(g.connections, s, t, existing);
      pool' := pool + existing;
    }
  }

  /** The bridging loops of `mutate_remove_node`: every source against every target. */
  method BridgeAll(g: Genome, reg: InnovationHandler, sources: seq<int>, targets: seq<int>, w: ((nat, nat)) -> real)
    returns (pool: seq<nat>)
    requires reg.Valid()
    requires forall x :: x in sources ==> HasNode(g.nodes, x)
    requires forall x :: x in targets ==> HasNode(g.nodes, x)
    modifies g, reg
    ensures reg.Valid() && g.nodes == old(g.nodes)
    ensures Bridging(g.connections, reg.State(), pool)
              == BridgeFrom(Bridging(old(g.connections), old(reg.State()), []), sources, targets, 0, 0, w)
  {
    ghost var whole := BridgeFrom(Bridging(g.connections, reg.State(), []), sources, targets, 0, 0, w);
    pool := [];
    var i := 0;
    while i < |sources|
      invariant 0 <= i <= |sources|
      invariant reg.Valid() && g.nodes == old(g.nodes)
      invariant BridgeFrom(Bridging(g.connections, reg.State(), pool), sources, targets, i, 0, w) == whole
    {
      var j := 0;
      while j < |targets|
        invariant 0 <= j <= |targets|
        invariant reg.Valid() && g.nodes == old(g.nodes)
        invariant BridgeFrom(Bridging(g.connections, reg.State(), pool), sources, targets, i, j, w) == whole
      {
        pool := BridgeStep(g, reg, sources[i], targets[j], w((i, j)), pool);
        j := j + 1;
      }
      i := i + 1;
    }
  }

  /** The gater loop of `mutate_remove_node`. */
  method PlaceGatersLoop(g: Genome, pool: seq<nat>, gaters: seq<int>, draws: nat -> nat)
    requires forall e :: e in pool ==> e < |g.connections|
    modifies g
    ensures g.connections == PlaceGaters(old(g.connections), pool, gaters, draws, 0)
    ensures g.nodes == old(g.nodes)
  {
    var left: seq<nat> := pool;
    var i := 0;
    while i < |gaters|
      invariant 0 <= i <= |gaters|
      invariant g.nodes == old(g.nodes) && |g.connections| == |old(g.connections)|
      invariant forall e :: e in left ==> e < |g.connections|
      invariant PlaceGaters(g.connections, left, gaters, draws, i) == PlaceGaters(old(g.connections), pool, gaters, draws, 0)
    {
      if |left| == 0 {
        break;
      }
      var e := left[draws(i) % |left|];
      assert e in left;
      g.connections := g.connections[e := g.connections[e].(gaterNode := Some(gaters[i]))];
      left := RemoveFirst(left, e);
      i := i + 1;
    }
  }

  /** The loop of `mutate_remove_node` that clears every gater equal to `rid`. */
  method ClearGaterLoop(g: Genome, rid: int)
    modifies g
    ensures g.connections == ClearGater(old(g.connections), rid)
    ensures g.nodes == old(g.nodes)
  {
    var k := 0;
    while k < |g.connections|
      invariant 0 <= k <= |g.connections| == |old(g.connections)|
      invariant g.nodes == old(g.nodes)
      invariant forall j :: 0 <= j < k ==> g.connections[j] == ClearGater(old(g.connections), rid)[j]
      invariant forall j :: k <= j < |g.connections| ==> g.connections[j] == old(g.connections)[j]
    {
      if g.connections[k].gaterNode == Some(rid) {
        g.connections := g.connections[k := g.connections[k].(gaterNode := None)];
      }
      k := k + 1;
    }
  }

  /** The removal of every connection that starts or ends at `rid`, keeping the others in
      order. */
  method DetachLoop(cs: seq<Connection>, rid: int) returns (kept: seq<Connection>)
    ensures kept == Detached(cs, rid)
  {
    kept := [];
    var k := 0;
    while k < |cs|
      invariant 0 <= k <= |cs|
      invariant kept + Detached(cs[k..], rid) == Detached(cs, rid)
    {
      assert cs[k..][1..] == cs[k + 1..];
      if cs[k].inputNode != rid && cs[k].outputNode != rid {
        assert kept + Detached(cs[k..], rid) == (kept + [cs[k]]) + Detached(cs[k + 1..], rid);
        kept := kept + [cs[k]];
      }
      k := k + 1;
    }
    assert cs[k..] == [];
  }

  /** `mutate_remove_node`: without a hidden node nothing happens; otherwise the hidden node
      at `pick` among them is removed with its connections, its sources are bridged to its
      targets (weights from `w`), its gaters move to bridging connections (picks from
      `gaterDraws`), and the phenotype is rebuilt. */
  method MutateRemoveNode(g: Genome, reg: InnovationHandler, pick: nat, w: ((nat, nat)) -> real,
                          gaterDraws: nat -> nat) returns (outcome: Outcome)
    requires g.Valid() && reg.Valid()
    modifies g, reg
    ensures g.Valid() && reg.Valid()
    ensures var hidden := HiddenFrom(old(g.nodes), 0);
      && (hidden == [] <==> outcome.Skipped?)
      && (hidden == [] ==>
            g.nodes == old(g.nodes) && g.connections == old(g.connections) && reg.State() == old(reg.State()))
      && (hidden != [] ==>
            var p := hidden[pick % |hidden|];
            && old(g.nodes)[p].nodeType == Hidden
            && g.nodes == old(g.nodes)[..p] + old(g.nodes)[p + 1..]
            && (g.connections, reg.State())
                 == RemovedWiring(old(g.connections), old(reg.State()), old(g.nodes)[p].nodeId, w, gaterDraws)
            && outcome == CompileOutcome(OrderOf(g.nodes, g.connections)))
    ensures outcome.Applied? ==> g.Compiled()
  {
    var hidden := HiddenFrom(g.nodes, 0);
    if hidden == [] {
      return Skipped;
    }
    var p := hidden[pick % |hidden|];
    assert p in hidden;
    RemoveNodeAt(g, reg, p, w, gaterDraws);
    var r := g.CreatePhenotype();
    outcome := CompileOutcome(r);
  }

  /** The body of `mutate_remove_node` once node p is chosen: bridge, re-gate, detach and
      drop the node. */
  method RemoveNodeAt(g: Genome, reg: InnovationHandler, p: nat, w: ((nat, nat)) -> real, gaterDraws: nat -> nat)
    requires g.Valid() && reg.Valid() && p < |g.nodes|
    modifies g, reg
    ensures g.Valid() && reg.Valid()
    ensures g.nodes == old(g.nodes)[..p] + old(g.nodes)[p + 1..]
    ensures (g.connections, reg.State())
              == RemovedWiring(old(g.connections), old(reg.State()), old(g.nodes)[p].nodeId, w, gaterDraws)
  {
    var rid := g.nodes[p].nodeId;
    ghost var expected := RemovedWiring(g.connections, reg.State(), rid, w, gaterDraws);
    RemovedWiringSpec(g.nodes, g.connections, reg.State(), p, w, gaterDraws);
    var sources, inGaters := CollectNeighbours(g.connections, rid, true);
    var targets, outGaters := CollectNeighbours(g.connections, rid, false);
    NeighboursResolve(g.nodes, g.connections, rid, true);
    NeighboursResolve(g.nodes, g.connections, rid, false);
    BridgeFromSpec(Bridging(g.connections, reg.State(), []), sources, targets, 0, 0, w);
    var pool := BridgeAll(g, reg, sources, targets, w);
    PlaceGatersLoop(g, pool, inGaters + outGaters, gaterDraws);
    ClearGaterLoop(g, rid);
    var kept := DetachLoop(g.connections, rid);
    g.connections := kept;
    g.nodes := g.nodes[..p] + g.nodes[p + 1..];
    assert (g.connections, reg.State()) == expected;
  }

  // ---------------------------------------------------------------------------------
  // The mutation step

  /** The operators `mutate_genome` can invoke. */
  datatype Operator =
    | AddNodeOp | AddConnectionOp
    | WeightsOp | BiasesOp | ToggleEnableOp | ReenableOp
    | RemoveConnectionOp | RemoveNodeOp | AddGateOp | ActivationFunctionOp

  /** The operator behind decision `i` (2 .. 9) of the parameter group, in source order. */
  function GroupOperator(i: nat): Operator {
    if i == 2 then WeightsOp
    else if i == 3 then BiasesOp
    else if i == 4 then ToggleEnableOp
    else if i == 5 then ReenableOp
    else if i == 6 then RemoveConnectionOp
    else if i == 7 then RemoveNodeOp
    else if i == 8 then AddGateOp
    else ActivationFunctionOp
  }

  /** The probability that decision `i` (2 .. 9) of the parameter group compares against. */
  function GroupProbability(s: Settings, i: nat): real {
    if i == 2 then s.mutateWeightsProb
    else if i == 3 then s.mutateBiasesProb
    else if i == 4 then s.mutateToggleEnableProb
    else if i == 5 then s.mutateReenableProb
    else if i == 6 then s.mutateRemoveConnectionProb
    else if i == 7 then s.mutateRemoveNodeProb
    else if i == 8 then s.mutateAddGateProb
    else s.mutateActivationFunctionProb
  }

  /** The parameter-group operators whose decision, among those before `n`, passes its
      roll, in source order. */
  function GroupPlan(rolls: nat -> real, s: Settings, n: nat): (plan: seq<Operator>)
    ensures forall o :: o in plan ==> o != AddNodeOp && o != AddConnectionOp
  {
    if n <= 2 then []
    else
      GroupPlan(rolls, s, n - 1)
        + (if rolls(n - 1) < GroupProbability(s, n - 1) then [GroupOperator(n - 1)] else [])
  }

  /** The operators one `mutate_genome` call runs when nothing raises: decision 0 picks
      `add_node_mutation` alone, otherwise decision 1 picks `add_connection_mutation` alone,
      otherwise decisions 2 .. 9 each pick one operator of the parameter group. */
  function Plan(rolls: nat -> real, s: Settings): seq<Operator> {
    if rolls(0) < s.addNodeProb then [AddNodeOp]
    else if rolls(1) < s.addConnectionProb then [AddConnectionOp]
    else GroupPlan(rolls, s, 10)
  }

  /** The structural operators never run together or with the parameter group. */
  lemma PlanIsExclusive(rolls: nat -> real, s: Settings)
    ensures var plan := Plan(rolls, s);
      || plan == [AddNodeOp]
      || plan == [AddConnectionOp]
      || (AddNodeOp !in plan && AddConnectionOp !in plan)
    ensures rolls(0) < s.addNodeProb <==> Plan(rolls, s) == [AddNodeOp]
  {
    if rolls(0) >= s.addNodeProb && rolls(1) >= s.addConnectionProb {
      assert AddNodeOp !in Plan(rolls, s);
      assert AddNodeOp in [AddNodeOp];
    }
  }

  /** Operators listed by strictly increasing decision index: each at most once, in
      source order. */
  predicate InSourceOrder(plan: seq<Operator>) {
    forall i, j :: 0 <= i < j < |plan| ==> GroupIndex(plan[i]) < GroupIndex(plan[j])
  }

  /** Each parameter-group operator runs at most once, in source order. */
  lemma {:induction false} GroupPlanOrdered(rolls: nat -> real, s: Settings, n: nat)
    requires n <= 10
    ensures InSourceOrder(GroupPlan(rolls, s, n))
    ensures forall o :: o in GroupPlan(rolls, s, n) ==> 2 <= GroupIndex(o) < n
  {
    if n > 2 {
      GroupPlanOrdered(rolls, s, n - 1);
      var prev := GroupPlan(rolls, s, n - 1);
      var plan := GroupPlan(rolls, s, n);
      if rolls(n - 1) < GroupProbability(s, n - 1) {
        assert plan == prev + [GroupOperator(n - 1)];
        assert GroupIndex(GroupOperator(n - 1)) == n - 1;
        forall i, j | 0 <= i < j < |plan| ensures GroupIndex(plan[i]) < GroupIndex(plan[j]) {
          assert plan[i] == prev[i] && prev[i] in prev;
          if j < |prev| {
            assert plan[j] == prev[j];
          }
        }
      } else {
        assert plan == prev;
      }
    }
  }

  /** The decision index of a parameter-group operator. */
  function GroupIndex(o: Operator): nat {
    match o
    case AddNodeOp => 0
    case AddConnectionOp => 1
    case WeightsOp => 2
    case BiasesOp => 3
    case ToggleEnableOp => 4
    case ReenableOp => 5
    case RemoveConnectionOp => 6
    case RemoveNodeOp => 7
    case AddGateOp => 8
    case ActivationFunctionOp => 9
  }

  /** A prefix of the decisions plans a prefix of the operators. */
  lemma {:induction false} GroupPlanPrefix(rolls: nat -> real, s: Settings, n: nat, m: nat)
    requires n <= m
    ensures GroupPlan(rolls, s, n) <= GroupPlan(rolls, s, m)
    decreases m - n
  {
    if n < m {
      GroupPlanPrefix(rolls, s, n, m - 1);
      if m > 2 {
        assert GroupPlan(rolls, s, m - 1) <= GroupPlan(rolls, s, m);
      }
    }
  }

  /** Every random draw one `mutate_genome` call may make.  `rolls(i)` is the
      `random.random()` of decision i; the other oracles feed the operators as above. */
  datatype Draws = Draws(
    rolls: nat -> real,
    splitPicks: nat -> nat, splitFunctionPick: nat, splitBias: real,
    pairPicks: nat -> (nat, nat), newWeight: real,
    weightRolls: nat -> real, weightAmounts: nat -> real,
    biasRolls: nat -> real, biasAmounts: nat -> real,
    togglePick: nat, reenablePick: nat, removeConnectionPick: nat,
    hiddenPick: nat, bridgeWeights: ((nat, nat)) -> real, gaterPicks: nat -> nat,
    gateConnectionPick: nat, gaterDraws: seq<nat>,
    targetDraws: seq<nat>, functionDraws: seq<nat>)

  /** Runs the operator of parameter-group decision `i`.  The list of removable
      connections is shared between the toggle (4) and the connection removal (6): it is
      computed when first needed, computed again while it is still empty (`None or ...` and
      `[] or ...` alike), and the toggle extends it in place. */
  method RunGroupOperator(g: Genome, reg: InnovationHandler, s: Settings, d: Draws, i: nat, removable: seq<nat>)
    returns (removable': seq<nat>, outcome: Outcome)
    requires 2 <= i <= 9
    requires g.Valid() && reg.Valid()
    requires i <= 6 ==> forall e :: e in removable ==> e < |g.connections|
    modifies g, reg
    ensures g.Valid() && reg.Valid()
    ensures i <= 5 ==> forall e :: e in removable' ==> e < |g.connections|
  {
    removable' := removable;
    if i == 2 {
      outcome := MutateWeights(g, s, 1.0, d.weightRolls, d.weightAmounts);
    } else if i == 3 {
      outcome := MutateBiases(g, s, d.biasRolls, d.biasAmounts);
    } else if i == 4 {
      if removable' == [] {
        removable' := FindConsForRemoval(g);
      }
      removable', outcome := MutateToggleEnable(g, removable', d.togglePick);
    } else if i == 5 {
      outcome := MutateGeneReenable(g, d.reenablePick);
    } else if i == 6 {
      if removable' == [] {
        removable' := FindConsForRemoval(g);
      }
      outcome := MutateRemoveConnection(g, removable', d.removeConnectionPick);
    } else if i == 7 {
      outcome := MutateRemoveNode(g, reg, d.hiddenPick, d.bridgeWeights, d.gaterPicks);
    } else if i == 8 {
      outcome := MutateAddGate(g, d.gateConnectionPick, d.gaterDraws);
    } else {
      outcome := MutateActivationFunction(g, d.targetDraws, d.functionDraws);
    }
  }

  /** Decision `k` of the parameter group: its operator runs when its roll passes; once it
      raises, the call ends with the operators run so far. */
  method GroupStep(g: Genome, reg: InnovationHandler, s: Settings, d: Draws, k: nat,
                   removable: seq<nat>, ran: seq<Operator>)
    returns (removable': seq<nat>, ran': seq<Operator>, fault: Option<Fault>)
    requires 2 <= k <= 9 && ran == GroupPlan(d.rolls, s, k)
    requires g.Valid() && reg.Valid()
    requires k <= 6 ==> forall e :: e in removable ==> e < |g.connections|
    modifies g, reg
    ensures g.Valid() && reg.Valid()
    ensures k <= 5 ==> forall e :: e in removable' ==> e < |g.connections|
    ensures fault.None? ==> ran' == GroupPlan(d.rolls, s, k + 1)
    ensures fault.Some? ==> ran' != [] && ran' <= GroupPlan(d.rolls, s, 10)
  {
    ghost var plan := GroupPlan(d.rolls, s, k + 1);
    assert plan == ran + (if d.rolls(k) < GroupProbability(s, k) then [GroupOperator(k)] else []);
    GroupPlanPrefix(d.rolls, s, k + 1, 10);
    removable', ran', fault := removable, ran, None;
    if d.rolls(k) < GroupProbability(s, k) {
      var outcome;
      removable', outcome := RunGroupOperator(g, reg, s, d, k, removable);
      ran' := ran + [GroupOperator(k)];
      if outcome.Raised? {
        fault := Some(outcome.fault);
      }
    }
  }

  /** The parameter group of `mutate_genome`: decisions 2 .. 9 in source order; the first
      operator that raises ends the call. */
  method MutateGroup(g: Genome, reg: InnovationHandler, s: Settings, d: Draws)
    returns (ran: seq<Operator>, fault: Option<Fault>)
    requires g.Valid() && reg.Valid()
    modifies g, reg
    ensures g.Valid() && reg.Valid()
    ensures ran <= GroupPlan(d.rolls, s, 10)
    ensures fault.None? ==> ran == GroupPlan(d.rolls, s, 10)
    ensures fault.Some? ==> ran != []
  {
    ran := [];
    var removable: seq<nat> := [];
    var k := 2;
    removable, ran, fault := GroupStep(g, reg, s, d, k, removable, ran);
    if fault.Some? {
      return;
    }
    k := k + 1;
    removable, ran, fault := GroupStep(g, reg, s, d, k, removable, ran);
    if fault.Some? {
      return;
    }
    k := k + 1;
    removable, ran, fault := GroupStep(g, reg, s, d, k, removable, ran);
    if fault.Some? {
      return;
    }
    k := k + 1;
    removable, ran, fault := GroupStep(g, reg, s, d, k, removable, ran);
    if fault.Some? {
      return;
    }
    k := k + 1;
    removable, ran, fault := GroupStep(g, reg, s, d, k, removable, ran);
    if fault.Some? {
      return;
    }
    k := k + 1;
    removable, ran, fault := GroupStep(g, reg, s, d, k, removable, ran);
    if fault.Some? {
      return;
    }
    k := k + 1;
    removable, ran, fault := GroupStep(g, reg, s, d, k, removable, ran);
    if fault.Some? {
      return;
    }
    k := k + 1;
    removable, ran, fault := GroupStep(g, reg, s, d, k, removable, ran);
  }

  /** `mutate_genome`: decision 0 runs `add_node_mutation` alone, otherwise decision 1 runs
      `add_connection_mutation` alone, otherwise the parameter group runs.  `ran` lists the
      operators invoked: the plan when nothing raises, otherwise the part of it up to and
      including the operator that raised. */
  method MutateGenome(g: Genome, reg: InnovationHandler, s: Settings, d: Draws)
    returns (ran: seq<Operator>, fault: Option<Fault>)
    requires g.Valid() && g.Compiled() && reg.Valid()
    modifies g, reg
    ensures g.Valid() && reg.Valid()
    ensures ran <= Plan(d.rolls, s)
    ensures fault.None? ==> ran == Plan(d.rolls, s)
    ensures fault.Some? ==> ran != []
  {
    ghost var plan := Plan(d.rolls, s);
    if d.rolls(0) < s.addNodeProb {
      assert plan == [AddNodeOp];
      var outcome := AddNodeMutation(g, reg, d.splitPicks, d.splitFunctionPick, d.splitBias);
      ran := [AddNodeOp];
      fault := if outcome.Raised? then Some(outcome.fault) else None;
    } else if d.rolls(1) < s.addConnectionProb {
      assert plan == [AddConnectionOp];
      var outcome := AddConnectionMutation(g, reg, d.pairPicks, d.newWeight);
      ran := [AddConnectionOp];
      fault := if outcome.Raised? then Some(outcome.fault) else None;
    } else {
      assert plan == GroupPlan(d.rolls, s, 10);
      ran, fault := MutateGroup(g, reg, s, d);
    }
  }
}
