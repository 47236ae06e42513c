/** Organisms (`organism.py`): a genome with a fitness, a species id and an organism id.
    Asexual reproduction clones the genome and mutates the clone; sexual reproduction builds
    an offspring genome by multipoint crossover aligned on node ids and connection ids. */
module OrganismModel {
  import opened NeatTypes
  import opened Seqs
  import opened Innovation
  import opened ActivationOrder
  import opened GenomeModel
  import Mutation

  /** Why reproduction raises. */
  datatype ReproduceFault =
    /** An endpoint of a matching connection is not an offspring node: the `[...][0]`
        lookup raises `IndexError`. */
    | MissingNode(nodeId: int)
    /** Both parents gate a matching connection and neither gater is an offspring node:
        `random.choice([])` raises. */
    | NoGaterCandidate
    /** The offspring's `create_phenotype` raised or never returned. */
    | NoOrder(error: OrderError)
    /** Asexual reproduction: `mutate_genome` stopped on a fault. */
    | MutationFault(fault: Mutation.Fault)

  /** The two gene selection functions `reproduce` chooses between. */
  datatype Selection =
    /** `round((p1 + p2) / 2, 3)`; the rounding is not modelled. */
    | Averaging
    /** `p1 if random.random() < 0.5 else p2`; the `call`-th comparison is `coin(call)`. */
    | EitherParent(coin: nat -> bool)

  /** `selection_func(p1, p2)` at its `call`-th use: a value between the two parents'
      values, and for the choosing function one of them. */
  function Select(sel: Selection, call: nat, p1: real, p2: real): (r: real)
    ensures p1 <= p2 ==> p1 <= r <= p2
    ensures p2 <= p1 ==> p2 <= r <= p1
    ensures sel.EitherParent? ==> r == p1 || r == p2
    ensures sel.Averaging? ==> r - p1 == p2 - r
  {
    match sel
    case Averaging => (p1 + p2) / 2.0
    case EitherParent(coin) => if coin(call) then p1 else p2
  }

  /** The constants crossover reads. */
  datatype MateSettings = MateSettings(mateAvgGenesProb: real, inheritDisableChance: real)

  /** The random draws of one sexual reproduction: the roll that picks the selection
      function, the coins of the choosing function (call `i` for the fitter parent's `i`-th
      node, call `|nodes| + k` for the `k`-th matching connection), and per matching
      connection `k` the re-enable roll and the gater pick. */
  datatype MateDraws = MateDraws(
    avgRoll: real,
    coin: nat -> bool,
    reenableRolls: nat -> real,
    gaterPicks: nat -> nat)

  /** What crossover needs once the selection function is chosen. */
  datatype Crossover = Crossover(
    selection: Selection,
    inheritDisableChance: real,
    reenableRolls: nat -> real,
    gaterPicks: nat -> nat)

  /** `reproduce` averages when its roll is below `mate_avg_genes_prob`. */
  function CrossoverOf(ms: MateSettings, md: MateDraws): (x: Crossover)
    ensures x.selection.Averaging? <==> md.avgRoll < ms.mateAvgGenesProb
    ensures x.selection.EitherParent? ==> x.selection.coin == md.coin
    ensures x.inheritDisableChance == ms.inheritDisableChance
    ensures x.reenableRolls == md.reenableRolls && x.gaterPicks == md.gaterPicks
  {
    Crossover(if md.avgRoll < ms.mateAvgGenesProb then Averaging else EitherParent(md.coin),
              ms.inheritDisableChance, md.reenableRolls, md.gaterPicks)
  }

  /** What crossover reads of a parent organism. */
  datatype Parent = Parent(nodes: seq<Node>, connections: seq<Connection>, fitness: real)

  /** `self if self.fitness > co_parent.fitness else co_parent`: ties go to the co-parent,
      and the chosen parent is at least as fit as the other. */
  function Fitter(a: Parent, b: Parent): (f: Parent)
    ensures f == a || f == b
    ensures f.fitness >= a.fitness && f.fitness >= b.fitness
    ensures a.fitness == b.fitness ==> f == b
  {
    if a.fitness > b.fitness then a else b
  }

  /** The parent `Fitter` did not choose. */
  function Other(a: Parent, b: Parent): (o: Parent)
    ensures (o == a && Fitter(a, b) == b) || (o == b && Fitter(a, b) == a)
  {
    if a.fitness > b.fitness then b else a
  }

  /** Nodes carrying the same ids position by position. */
  predicate SameIds(nodes: seq<Node>, nodes': seq<Node>) {
    |nodes| == |nodes'| && forall i :: 0 <= i < |nodes| ==> nodes[i].nodeId == nodes'[i].nodeId
  }

  /** Nodes with the same ids in the same order offer the same ids. */
  lemma SameIdsSameNodes(nodes: seq<Node>, nodes': seq<Node>, id: int)
    requires SameIds(nodes, nodes')
    ensures HasNode(nodes, id) <==> HasNode(nodes', id)
  {
    if HasNode(nodes, id) {
      var i :| 0 <= i < |nodes| && nodes[i].nodeId == id;
      assert nodes'[i].nodeId == id;
    }
    if HasNode(nodes', id) {
      var i :| 0 <= i < |nodes'| && nodes'[i].nodeId == id;
      assert nodes[i].nodeId == id;
    }
  }

  /** A list holds `id` exactly when its head or its tail does. */
  lemma HasNodeSplit(nodes: seq<Node>, id: int)
    requires nodes != []
    ensures HasNode(nodes, id) <==> nodes[0].nodeId == id || HasNode(nodes[1..], id)
  {
    if HasNode(nodes[1..], id) {
      var i :| 0 <= i < |nodes[1..]| && nodes[1..][i].nodeId == id;
      assert nodes[i + 1].nodeId == id;
    }
    if HasNode(nodes, id) && nodes[0].nodeId != id {
      var i :| 0 <= i < |nodes| && nodes[i].nodeId == id;
      assert nodes[1..][i - 1].nodeId == id;
    }
  }

  /** The first node carrying `id`, if any (`([n for n in nodes if n.node_id == id] or [None])[0]`). */
  function FirstWithId(nodes: seq<Node>, id: int): (r: Option<Node>)
    ensures r.Some? ==> r.value.nodeId == id
    decreases |nodes|
  {
    if nodes == [] then None
    else if nodes[0].nodeId == id then Some(nodes[0])
    else FirstWithId(nodes[1..], id)
  }

  /** The lookup finds a node exactly when some node carries the id. */
  lemma {:induction false} FirstWithIdSpec(nodes: seq<Node>, id: int)
    ensures FirstWithId(nodes, id).Some? <==> HasNode(nodes, id)
    decreases |nodes|
  {
    if nodes != [] {
      HasNodeSplit(nodes, id);
      FirstWithIdSpec(nodes[1..], id);
    }
  }

  /** The node `FirstWithId` finds is a node of the list, and no earlier node carries the id. */
  lemma {:induction false} FirstWithIdIsFirst(nodes: seq<Node>, id: int)
    requires HasNode(nodes, id)
    ensures FirstWithId(nodes, id).Some?
    ensures exists i :: 0 <= i < |nodes| && nodes[i] == FirstWithId(nodes, id).value &&
                        forall j :: 0 <= j < i ==> nodes[j].nodeId != id
    decreases |nodes|
  {
    HasNodeSplit(nodes, id);
    if nodes[0].nodeId != id {
      FirstWithIdIsFirst(nodes[1..], id);
      FirstWithIdSpec(nodes[1..], id);
      var i :| 0 <= i < |nodes[1..]| && nodes[1..][i] == FirstWithId(nodes[1..], id).value &&
               forall j :: 0 <= j < i ==> nodes[1..][j].nodeId != id;
      assert nodes[i + 1] == FirstWithId(nodes, id).value;
      forall j | 0 <= j < i + 1 ensures nodes[j].nodeId != id {
        if j > 0 {
          assert nodes[j] == nodes[1..][j - 1];
        }
      }
    }
  }

  /** The offspring node for the fitter parent's `i`-th node id: a node both parents carry
      takes the fitter parent's type and function and a selected bias; any other node is
      the fitter parent's, unchanged.  Either way the node is built from the first node with
      that id in each parent. */
  function OffspringNode(fitter: seq<Node>, other: seq<Node>, i: nat, sel: Selection): (n: Node)
    requires i < |fitter|
    ensures n.nodeId == fitter[i].nodeId
  {
    var id := fitter[i].nodeId;
    assert HasNode(fitter, id);
    FirstWithIdSpec(fitter, id);
    var p1 := FirstWithId(fitter, id).value;
    var p2 := FirstWithId(other, id);
    if p2.Some? then Node(id, p1.nodeType, p1.activation, Select(sel, i, p1.bias, p2.value.bias))
    else p1
  }

  /** The offspring node keeps the fitter parent's type and function for its id; its bias
      lies between the two parents' biases (one of them, for the choosing function), and a
      node the other parent lacks is the fitter parent's node unchanged. */
  lemma OffspringNodeSpec(fitter: seq<Node>, other: seq<Node>, i: nat, sel: Selection)
    requires i < |fitter|
    ensures FirstWithId(fitter, fitter[i].nodeId).Some?
    ensures var n := OffspringNode(fitter, other, i, sel);
            var p1 := FirstWithId(fitter, fitter[i].nodeId).value;
            var p2 := FirstWithId(other, fitter[i].nodeId);
      && n.nodeId == fitter[i].nodeId
      && n.nodeType == p1.nodeType && n.activation == p1.activation
      && (p2.None? ==> n == p1)
      && (p2.Some? && p1.bias <= p2.value.bias ==> p1.bias <= n.bias <= p2.value.bias)
      && (p2.Some? && p2.value.bias <= p1.bias ==> p2.value.bias <= n.bias <= p1.bias)
      && (p2.Some? && sel.EitherParent? ==> n.bias == p1.bias || n.bias == p2.value.bias)
  {
    assert HasNode(fitter, fitter[i].nodeId);
    FirstWithIdSpec(fitter, fitter[i].nodeId);
  }

  /** The offspring nodes for the fitter parent's first `n` nodes. */
  function OffspringNodesUpTo(fitter: seq<Node>, other: seq<Node>, sel: Selection, n: nat): (nodes: seq<Node>)
    requires n <= |fitter|
    ensures |nodes| == n
  {
    if n == 0 then []
    else OffspringNodesUpTo(fitter, other, sel, n - 1) + [OffspringNode(fitter, other, n - 1, sel)]
  }

  /** The offspring's node list: one node per node of the fitter parent, in its order. */
  function OffspringNodes(fitter: seq<Node>, other: seq<Node>, sel: Selection): (nodes: seq<Node>)
    ensures |nodes| == |fitter|
  {
    OffspringNodesUpTo(fitter, other, sel, |fitter|)
  }

  /** The offspring's `i`-th node is the one built for the fitter parent's `i`-th node. */
  lemma {:induction false} OffspringNodesAt(fitter: seq<Node>, other: seq<Node>, sel: Selection, n: nat, i: nat)
    requires i < n <= |fitter|
    ensures OffspringNodesUpTo(fitter, other, sel, n)[i] == OffspringNode(fitter, other, i, sel)
    decreases n
  {
    if i < n - 1 {
      OffspringNodesAt(fitter, other, sel, n - 1, i);
    }
  }

  /** The offspring has one node per node of the fitter parent, with the same ids in the
      same order. */
  lemma OffspringNodesSameIds(fitter: seq<Node>, other: seq<Node>, sel: Selection)
    ensures SameIds(OffspringNodes(fitter, other, sel), fitter)
  {
    forall i | 0 <= i < |fitter|
      ensures OffspringNodes(fitter, other, sel)[i].nodeId == fitter[i].nodeId
    {
      OffspringNodesAt(fitter, other, sel, |fitter|, i);
    }
  }

  /** The first connection carrying `id`, if any. */
  function FirstConnectionWithId(cs: seq<Connection>, id: int): (r: Option<Connection>)
    ensures r.Some? ==> r.value in cs && r.value.connectionId == id
    decreases |cs|
  {
    if cs == [] then None
    else if cs[0].connectionId == id then Some(cs[0])
    else FirstConnectionWithId(cs[1..], id)
  }

  /** `matching_connections`: the connections of `cs` whose id the co-parent's list `coCs`
      also carries, in the order of `cs`, each paired with the co-parent's first connection
      with that id. */
  function Matching(cs: seq<Connection>, coCs: seq<Connection>): (ms: seq<(Connection, Connection)>)
    ensures |ms| <= |cs|
    decreases |cs|
  {
    if cs == [] then []
    else
      var cc := FirstConnectionWithId(coCs, cs[0].connectionId);
      (if cc.Some? then [(cs[0], cc.value)] else []) + Matching(cs[1..], coCs)
  }

  /** The `i`-th matching pair is a connection of `cs` with the co-parent's first
      connection of the same id. */
  lemma {:induction false} MatchingPair(cs: seq<Connection>, coCs: seq<Connection>, i: nat)
    requires i < |Matching(cs, coCs)|
    ensures var m := Matching(cs, coCs)[i];
      && m.0 in cs && m.1 in coCs && m.1.connectionId == m.0.connectionId
      && FirstConnectionWithId(coCs, m.0.connectionId) == Some(m.1)
    decreases |cs|
  {
    var cc := FirstConnectionWithId(coCs, cs[0].connectionId);
    var head: seq<(Connection, Connection)> := if cc.Some? then [(cs[0], cc.value)] else [];
    var rest := Matching(cs[1..], coCs);
    assert Matching(cs, coCs) == head + rest;
    if i >= |head| {
      MatchingPair(cs[1..], coCs, i - |head|);
      assert Matching(cs, coCs)[i] == rest[i - |head|];
      assert rest[i - |head|].0 in cs[1..];
    }
  }

  /** A connection of `cs` has a matching pair exactly when the co-parent carries its id. */
  lemma {:induction false} MatchingCovers(cs: seq<Connection>, coCs: seq<Connection>, c: Connection)
    requires c in cs
    ensures (exists i :: 0 <= i < |Matching(cs, coCs)| && Matching(cs, coCs)[i].0 == c)
            <==> FirstConnectionWithId(coCs, c.connectionId).Some?
    decreases |cs|
  {
    var ms := Matching(cs, coCs);
    var cc := FirstConnectionWithId(coCs, cs[0].connectionId);
    var head: seq<(Connection, Connection)> := if cc.Some? then [(cs[0], cc.value)] else [];
    var rest := Matching(cs[1..], coCs);
    assert ms == head + rest;
    if FirstConnectionWithId(coCs, c.connectionId).Some? {
      if c == cs[0] {
        assert head == [(cs[0], cc.value)] && ms[0] == head[0];
        assert Matching(cs, coCs)[0].0 == c;
      } else {
        assert c in cs[1..];
        MatchingCovers(cs[1..], coCs, c);
        var i :| 0 <= i < |rest| && rest[i].0 == c;
        assert ms[i + |head|] == rest[i];
        assert Matching(cs, coCs)[i + |head|].0 == c;
      }
    } else {
      forall i | 0 <= i < |ms| ensures ms[i].0 != c {
        MatchingPair(cs, coCs, i);
      }
    }
  }

  /** Not `all(c.connection_id != id for c in matching_connections)`: some matching pair's
      connection carries `id`. */
  predicate IsMatched(ms: seq<(Connection, Connection)>, id: int)
    decreases |ms|
  {
    ms != [] && (ms[0].0.connectionId == id || IsMatched(ms[1..], id))
  }

  /** `IsMatched` holds exactly when some matching pair's connection carries the id. */
  lemma {:induction false} IsMatchedSpec(ms: seq<(Connection, Connection)>, id: int)
    ensures IsMatched(ms, id) <==> exists i :: 0 <= i < |ms| && ms[i].0.connectionId == id
    decreases |ms|
  {
    if ms != [] {
      IsMatchedSpec(ms[1..], id);
      if exists i :: 0 <= i < |ms| && ms[i].0.connectionId == id {
        var i :| 0 <= i < |ms| && ms[i].0.connectionId == id;
        if i > 0 {
          assert ms[1..][i - 1] == ms[i];
        }
      }
      if IsMatched(ms[1..], id) {
        var i :| 0 <= i < |ms[1..]| && ms[1..][i].0.connectionId == id;
        assert ms[i + 1] == ms[1..][i];
      }
    }
  }

  /** The number of nodes carrying `id`. */
  function CountId(nodes: seq<Node>, id: int): (n: nat)
    ensures n <= |nodes|
    decreases |nodes|
  {
    if nodes == [] then 0
    else (if nodes[0].nodeId == id then 1 else 0) + CountId(nodes[1..], id)
  }

  /** Some node carries the id exactly when the count is positive. */
  lemma {:induction false} CountIdSpec(nodes: seq<Node>, id: int)
    ensures CountId(nodes, id) > 0 <==> HasNode(nodes, id)
    decreases |nodes|
  {
    if nodes != [] {
      HasNodeSplit(nodes, id);
      CountIdSpec(nodes[1..], id);
    }
  }

  /** The gater an offspring connection inherits from the gaters `g1` (self's) and `g2`
      (the co-parent's) of a matching connection: none when neither parent gates it; a
      lone gater when it is an offspring node; with two gaters the one that is an offspring
      node, and when both are, the `pick`-th of the offspring nodes carrying `g1` followed
      by those carrying `g2`; with two gaters neither of which is present the choice raises. */
  function InheritedGater(g1: Option<int>, g2: Option<int>, nodes: seq<Node>, pick: nat)
    : Result<Option<int>, ReproduceFault>
  {
    if g1.None? && g2.None? then Success(None)
    else if g1.None? || g2.None? then
      var x := if g1.Some? then g1.value else g2.value;
      Success(if CountId(nodes, x) > 0 then Some(x) else None)
    else
      var n1 := CountId(nodes, g1.value);
      var n2 := CountId(nodes, g2.value);
      if (n1 > 0) != (n2 > 0) then Success(Some(if n1 > 0 then g1.value else g2.value))
      else if n1 == 0 then Failure(NoGaterCandidate)
      else Success(Some(if pick % (n1 + n2) < n1 then g1.value else g2.value))
  }

  /** The inherited gater is always a parent's gater that is an offspring node, and it is
      none only when no parent gater is an offspring node; a gater only one side can offer
      is the one taken; with both parents gated and neither gater present the choice raises. */
  lemma InheritedGaterSpec(g1: Option<int>, g2: Option<int>, nodes: seq<Node>, pick: nat)
    ensures var r := InheritedGater(g1, g2, nodes, pick);
      && (r.Failure? <==> g1.Some? && g2.Some? && !HasNode(nodes, g1.value) && !HasNode(nodes, g2.value))
      && (r.Failure? ==> r.error == NoGaterCandidate)
      && (r.Success? && r.value.Some? ==> (r.value == g1 || r.value == g2) && HasNode(nodes, r.value.value))
      && (r.Success? && r.value.None? ==>
            (g1.Some? ==> !HasNode(nodes, g1.value)) && (g2.Some? ==> !HasNode(nodes, g2.value)))
      && (g1.Some? && HasNode(nodes, g1.value) && !(g2.Some? && HasNode(nodes, g2.value)) ==> r == Success(g1))
      && (g2.Some? && HasNode(nodes, g2.value) && !(g1.Some? && HasNode(nodes, g1.value)) ==> r == Success(g2))
  {
    if g1.Some? {
      CountIdSpec(nodes, g1.value);
    }
    if g2.Some? {
      CountIdSpec(nodes, g2.value);
    }
  }

  /** A connection of the offspring before the registry gives it an id. */
  datatype Gene = Gene(weight: real, inputNode: int, gaterNode: Option<int>, outputNode: int, isEnabled: bool)

  /** Both endpoints and the gater of the gene name nodes of the list. */
  predicate GeneResolves(nodes: seq<Node>, g: Gene) {
    && HasNode(nodes, g.inputNode) && HasNode(nodes, g.outputNode)
    && (g.gaterNode.Some? ==> HasNode(nodes, g.gaterNode.value))
  }

  /** Every gene of the list resolves. */
  predicate GenesResolve(nodes: seq<Node>, genes: seq<Gene>) {
    forall k :: 0 <= k < |genes| ==> GeneResolves(nodes, genes[k])
  }

  /** The gene for the `k`-th matching connection `m`, whose co-parent counterpart is `cc`:
      looking up either endpoint among the offspring nodes may raise, then the weight is
      selected, the enabled flag decided and the gater inherited. */
  function MatchedGene(m: Connection, cc: Connection, nodes: seq<Node>, x: Crossover, call: nat, k: nat)
    : Result<Gene, ReproduceFault>
  {
    if FirstWithId(nodes, m.inputNode).None? then Failure(MissingNode(m.inputNode))
    else if FirstWithId(nodes, m.outputNode).None? then Failure(MissingNode(m.outputNode))
    else
      var gater := InheritedGater(m.gaterNode, cc.gaterNode, nodes, x.gaterPicks(k));
      if gater.Failure? then Failure(gater.error)
      else
        var enabled := (m.isEnabled && cc.isEnabled) || x.reenableRolls(k) > x.inheritDisableChance;
        Success(Gene(Select(x.selection, call, m.weight, cc.weight), m.inputNode, gater.value,
                     m.outputNode, enabled))
  }

  /** The gene of a matching connection `m` with co-parent counterpart `cc`: building it
      raises exactly when an endpoint is not an offspring node or the gater choice raises;
      otherwise it keeps `m`'s endpoints, which resolve, inherits the gater, selects the
      weight, and is enabled exactly when both parents' copies are or the re-enable roll
      beats `inherit_disable_chance`. */
  lemma MatchedGeneSpec(m: Connection, cc: Connection, nodes: seq<Node>, x: Crossover, call: nat, k: nat)
    ensures var r := MatchedGene(m, cc, nodes, x, call, k);
      && (r.Failure? <==>
            || !HasNode(nodes, m.inputNode) || !HasNode(nodes, m.outputNode)
            || InheritedGater(m.gaterNode, cc.gaterNode, nodes, x.gaterPicks(k)).Failure?)
      && (!HasNode(nodes, m.inputNode) ==> r == Failure(MissingNode(m.inputNode)))
      && (r.Success? ==>
            && GeneResolves(nodes, r.value)
            && r.value.inputNode == m.inputNode && r.value.outputNode == m.outputNode
            && Success(r.value.gaterNode) == InheritedGater(m.gaterNode, cc.gaterNode, nodes, x.gaterPicks(k))
            && r.value.weight == Select(x.selection, call, m.weight, cc.weight)
            && (r.value.isEnabled <==>
                  (m.isEnabled && cc.isEnabled) || x.reenableRolls(k) > x.inheritDisableChance))
  {
    InheritedGaterSpec(m.gaterNode, cc.gaterNode, nodes, x.gaterPicks(k));
    FirstWithIdSpec(nodes, m.inputNode);
    FirstWithIdSpec(nodes, m.outputNode);
  }

  /** A gene that is built resolves among the nodes it was built against. */
  lemma MatchedGeneResolves(m: Connection, cc: Connection, nodes: seq<Node>, x: Crossover, call: nat, k: nat)
    requires MatchedGene(m, cc, nodes, x, call, k).Success?
    ensures GeneResolves(nodes, MatchedGene(m, cc, nodes, x, call, k).value)
  {
    InheritedGaterSpec(m.gaterNode, cc.gaterNode, nodes, x.gaterPicks(k));
    FirstWithIdSpec(nodes, m.inputNode);
    FirstWithIdSpec(nodes, m.outputNode);
  }

  /** The genes of the first `k` matching pairs, in order, up to the first one that raises,
      and that fault. */
  function MatchedPrefix(ms: seq<(Connection, Connection)>, nodes: seq<Node>, x: Crossover,
                         base: nat, k: nat): (r: (seq<Gene>, Option<ReproduceFault>))
    requires k <= |ms|
    ensures |r.0| <= k
    ensures r.1.None? ==> |r.0| == k
    ensures r.1.Some? ==> |r.0| < k
    decreases k
  {
    if k == 0 then ([], None)
    else
      var prev := MatchedPrefix(ms, nodes, x, base, k - 1);
      if prev.1.Some? then prev
      else
        var gene := MatchedGene(ms[k - 1].0, ms[k - 1].1, nodes, x, base + (k - 1), k - 1);
        if gene.Failure? then (prev.0, Some(gene.error)) else (prev.0 + [gene.value], None)
  }

  /** The `i`-th gene of the prefix is the gene of the `i`-th matching pair. */
  lemma {:induction false} MatchedPrefixGene(ms: seq<(Connection, Connection)>, nodes: seq<Node>,
                                             x: Crossover, base: nat, k: nat, i: nat)
    requires k <= |ms|
    requires i < |MatchedPrefix(ms, nodes, x, base, k).0|
    ensures MatchedGene(ms[i].0, ms[i].1, nodes, x, base + i, i) == Success(MatchedPrefix(ms, nodes, x, base, k).0[i])
    decreases k
  {
    var prev := MatchedPrefix(ms, nodes, x, base, k - 1);
    if prev.1.None? && i == k - 1 {
      assert |prev.0| == k - 1;
    } else if i < |prev.0| {
      MatchedPrefixGene(ms, nodes, x, base, k - 1, i);
    }
  }

  /** A prefix that stopped on a fault stopped at the first matching pair whose gene
      raises, with that pair's fault. */
  lemma {:induction false} MatchedPrefixFault(ms: seq<(Connection, Connection)>, nodes: seq<Node>,
                                              x: Crossover, base: nat, k: nat)
    requires k <= |ms|
    requires MatchedPrefix(ms, nodes, x, base, k).1.Some?
    ensures var r := MatchedPrefix(ms, nodes, x, base, k);
            MatchedGene(ms[|r.0|].0, ms[|r.0|].1, nodes, x, base + |r.0|, |r.0|) == Failure(r.1.value)
    decreases k
  {
    var prev := MatchedPrefix(ms, nodes, x, base, k - 1);
    if prev.1.Some? {
      MatchedPrefixFault(ms, nodes, x, base, k - 1);
    } else {
      assert |prev.0| == k - 1;
    }
  }

  /** Once a matching pair has raised, the later ones are not looked at. */
  lemma {:induction false} MatchedPrefixStops(ms: seq<(Connection, Connection)>, nodes: seq<Node>,
                                              x: Crossover, base: nat, k: nat, n: nat)
    requires k <= n <= |ms|
    requires MatchedPrefix(ms, nodes, x, base, k).1.Some?
    ensures MatchedPrefix(ms, nodes, x, base, n) == MatchedPrefix(ms, nodes, x, base, k)
    decreases n - k
  {
    if k < n {
      MatchedPrefixStops(ms, nodes, x, base, k + 1, n);
    }
  }

  /** A disjoint or excess connection of the fitter parent as the offspring receives it:
      weight, endpoints and gater kept, and enabled (the source does not pass the flag on). */
  function DisjointGene(c: Connection): Gene {
    Gene(c.weight, c.inputNode, c.gaterNode, c.outputNode, true)
  }

  /** The genes of the fitter parent's connections whose id matches no matching pair, in order. */
  function DisjointGenes(fitterCs: seq<Connection>, ms: seq<(Connection, Connection)>): (genes: seq<Gene>)
    ensures |genes| <= |fitterCs|
    decreases |fitterCs|
  {
    if fitterCs == [] then []
    else
      var c := fitterCs[|fitterCs| - 1];
      DisjointGenes(fitterCs[..|fitterCs| - 1], ms) + (if IsMatched(ms, c.connectionId) then [] else [DisjointGene(c)])
  }

  /** One more connection of the fitter parent adds its gene when it matches no pair. */
  lemma DisjointGenesStep(fitterCs: seq<Connection>, ms: seq<(Connection, Connection)>, j: nat)
    requires j < |fitterCs|
    ensures DisjointGenes(fitterCs[..j + 1], ms) ==
      DisjointGenes(fitterCs[..j], ms) + (if IsMatched(ms, fitterCs[j].connectionId) then [] else [DisjointGene(fitterCs[j])])
  {
    assert fitterCs[..j + 1][..j] == fitterCs[..j];
  }

  /** Each disjoint gene comes from a connection of the fitter parent whose id matches no
      matching pair. */
  lemma {:induction false} DisjointGeneFrom(fitterCs: seq<Connection>, ms: seq<(Connection, Connection)>, j: nat)
    requires j < |DisjointGenes(fitterCs, ms)|
    ensures exists i :: 0 <= i < |fitterCs| && !IsMatched(ms, fitterCs[i].connectionId) &&
                        DisjointGenes(fitterCs, ms)[j] == DisjointGene(fitterCs[i])
    decreases |fitterCs|
  {
    var n := |fitterCs| - 1;
    var front := fitterCs[..n];
    var pre := DisjointGenes(front, ms);
    if j < |pre| {
      DisjointGeneFrom(front, ms, j);
      var i :| 0 <= i < |front| && !IsMatched(ms, front[i].connectionId) && pre[j] == DisjointGene(front[i]);
      assert fitterCs[i] == front[i];
    } else {
      assert DisjointGenes(fitterCs, ms)[j] == DisjointGene(fitterCs[n]);
    }
  }

  /** Each connection of the fitter parent whose id matches no matching pair gives a
      disjoint gene. */
  lemma {:induction false} DisjointGeneOf(fitterCs: seq<Connection>, ms: seq<(Connection, Connection)>, i: nat)
    requires i < |fitterCs| && !IsMatched(ms, fitterCs[i].connectionId)
    ensures DisjointGene(fitterCs[i]) in DisjointGenes(fitterCs, ms)
    decreases |fitterCs|
  {
    var n := |fitterCs| - 1;
    if i < n {
      DisjointGeneOf(fitterCs[..n], ms, i);
    }
  }

  /** The pairs the registry keys the genes' connection ids on. */
  function Pairs(genes: seq<Gene>): (ps: seq<(int, int)>)
    ensures |ps| == |genes|
  {
    if genes == [] then []
    else Pairs(genes[..|genes| - 1]) + [(genes[|genes| - 1].inputNode, genes[|genes| - 1].outputNode)]
  }

  /** A connection without its id. */
  function AsGene(c: Connection): Gene {
    Gene(c.weight, c.inputNode, c.gaterNode, c.outputNode, c.isEnabled)
  }

  /** The genes as connections with the given ids. */
  function WithIds(genes: seq<Gene>, ids: seq<int>): (cs: seq<Connection>)
    requires |ids| == |genes|
    ensures |cs| == |genes|
  {
    if genes == [] then []
    else
      var g := genes[|genes| - 1];
      WithIds(genes[..|genes| - 1], ids[..|ids| - 1])
        + [Connection(ids[|ids| - 1], g.weight, g.inputNode, g.gaterNode, g.outputNode, g.isEnabled)]
  }

  /** The `k`-th connection is the `k`-th gene with the `k`-th id. */
  lemma {:induction false} WithIdsAt(genes: seq<Gene>, ids: seq<int>, k: nat)
    requires |ids| == |genes| && k < |genes|
    ensures WithIds(genes, ids)[k].connectionId == ids[k] && AsGene(WithIds(genes, ids)[k]) == genes[k]
    decreases |genes|
  {
    if k < |genes| - 1 {
      WithIdsAt(genes[..|genes| - 1], ids[..|ids| - 1], k);
    }
  }

  /** The `k`-th pair is the `k`-th gene's endpoints. */
  lemma {:induction false} PairsAt(genes: seq<Gene>, k: nat)
    requires k < |genes|
    ensures Pairs(genes)[k] == (genes[k].inputNode, genes[k].outputNode)
    decreases |genes|
  {
    if k < |genes| - 1 {
      PairsAt(genes[..|genes| - 1], k);
    }
  }

  /** The result of `_mate_multipoint` before its closing `create_phenotype`: the node list,
      the connection list and the registry, and the fault that stopped it, if one did. */
  datatype Mated = Mated(nodes: seq<Node>, connections: seq<Connection>, registry: RegistryState,
                         fault: Option<ReproduceFault>)

  /** The genes `_mate_multipoint` of `a` (`self`) with co-parent `b` adds, in order, and
      the fault that stopped it: the matching pairs' genes first, then the fitter parent's
      disjoint and excess genes. */
  function MateGenes(a: Parent, b: Parent, x: Crossover): (r: (seq<Gene>, Option<ReproduceFault>))
  {
    var nodes := OffspringNodes(Fitter(a, b).nodes, Other(a, b).nodes, x.selection);
    var ms := Matching(a.connections, b.connections);
    var mp := MatchedPrefix(ms, nodes, x, |Fitter(a, b).nodes|, |ms|);
    if mp.1.None? then (mp.0 + DisjointGenes(Fitter(a, b).connections, ms), None) else mp
  }

  /** `_mate_multipoint` of parent `a` (`self`) with co-parent `b`: the nodes follow the
      fitter parent; every added connection takes its id from the registry by its endpoint
      pair. */
  function Mate(a: Parent, b: Parent, x: Crossover, s: RegistryState): Mated {
    var genes := MateGenes(a, b, x);
    var issued := AssignConnectionIds(s, Pairs(genes.0));
    Mated(OffspringNodes(Fitter(a, b).nodes, Other(a, b).nodes, x.selection),
          WithIds(genes.0, issued.1), issued.0, genes.1)
  }

  /** Genes that resolve become connections that resolve, whatever their ids. */
  lemma WithIdsResolve(nodes: seq<Node>, genes: seq<Gene>, ids: seq<int>)
    requires |ids| == |genes| && GenesResolve(nodes, genes)
    ensures ConnectionsResolve(nodes, WithIds(genes, ids))
  {
    var cs := WithIds(genes, ids);
    forall k | 0 <= k < |cs|
      ensures HasNode(nodes, cs[k].inputNode) && HasNode(nodes, cs[k].outputNode)
      ensures cs[k].gaterNode.Some? ==> HasNode(nodes, cs[k].gaterNode.value)
    {
      WithIdsAt(genes, ids, k);
    }
  }

  /** Two gene lists that resolve resolve together. */
  lemma GenesResolveConcat(nodes: seq<Node>, genes: seq<Gene>, genes': seq<Gene>)
    requires GenesResolve(nodes, genes) && GenesResolve(nodes, genes')
    ensures GenesResolve(nodes, genes + genes')
  {
    forall k | 0 <= k < |genes + genes'|
      ensures GeneResolves(nodes, (genes + genes')[k])
    {
      if k >= |genes| {
        assert (genes + genes')[k] == genes'[k - |genes|];
      }
    }
  }

  /** The matching pairs' genes resolve among the nodes they were built against. */
  lemma MatchedPrefixResolves(ms: seq<(Connection, Connection)>, nodes: seq<Node>, x: Crossover, base: nat)
    ensures GenesResolve(nodes, MatchedPrefix(ms, nodes, x, base, |ms|).0)
  {
    var genes := MatchedPrefix(ms, nodes, x, base, |ms|).0;
    forall k | 0 <= k < |genes|
      ensures GeneResolves(nodes, genes[k])
    {
      MatchedPrefixGene(ms, nodes, x, base, |ms|, k);
      MatchedGeneResolves(ms[k].0, ms[k].1, nodes, x, base + k, k);
    }
  }

  /** The disjoint genes of a fitter parent whose connections resolve resolve among nodes
      with the same ids. */
  lemma DisjointGenesResolve(nodes: seq<Node>, fNodes: seq<Node>, fCs: seq<Connection>,
                             ms: seq<(Connection, Connection)>)
    requires ConnectionsResolve(fNodes, fCs) && SameIds(nodes, fNodes)
    ensures GenesResolve(nodes, DisjointGenes(fCs, ms))
  {
    var dis := DisjointGenes(fCs, ms);
    forall k | 0 <= k < |dis|
      ensures GeneResolves(nodes, dis[k])
    {
      DisjointGeneFrom(fCs, ms, k);
      var j :| 0 <= j < |fCs| && !IsMatched(ms, fCs[j].connectionId) && dis[k] == DisjointGene(fCs[j]);
      DisjointGeneResolves(nodes, fNodes, fCs, j);
    }
  }

  /** The genes of a crossover that does not raise all resolve among the offspring's nodes
      when the fitter parent's connections resolve among its nodes. */
  lemma MateGenesResolve(a: Parent, b: Parent, x: Crossover)
    requires ConnectionsResolve(Fitter(a, b).nodes, Fitter(a, b).connections)
    requires MateGenes(a, b, x).1.None?
    ensures GenesResolve(OffspringNodes(Fitter(a, b).nodes, Other(a, b).nodes, x.selection), MateGenes(a, b, x).0)
  {
    var f := Fitter(a, b);
    var nodes := OffspringNodes(f.nodes, Other(a, b).nodes, x.selection);
    var ms := Matching(a.connections, b.connections);
    var mp := MatchedPrefix(ms, nodes, x, |f.nodes|, |ms|);
    assert MateGenes(a, b, x).0 == mp.0 + DisjointGenes(f.connections, ms);
    OffspringNodesSameIds(f.nodes, Other(a, b).nodes, x.selection);
    MatchedPrefixResolves(ms, nodes, x, |f.nodes|);
    DisjointGenesResolve(nodes, f.nodes, f.connections, ms);
    GenesResolveConcat(nodes, mp.0, DisjointGenes(f.connections, ms));
  }

  /** The offspring of two parents whose connections resolve is itself a genome whose
      connections resolve: every endpoint and gater names one of its nodes. */
  lemma MateResolves(a: Parent, b: Parent, x: Crossover, s: RegistryState)
    requires ConnectionsResolve(a.nodes, a.connections) && ConnectionsResolve(b.nodes, b.connections)
    ensures Mate(a, b, x, s).fault.None? ==> ConnectionsResolve(Mate(a, b, x, s).nodes, Mate(a, b, x, s).connections)
  {
    var genes := MateGenes(a, b, x);
    if genes.1.None? {
      MateGenesResolve(a, b, x);
      WithIdsResolve(OffspringNodes(Fitter(a, b).nodes, Other(a, b).nodes, x.selection), genes.0,
                     AssignConnectionIds(s, Pairs(genes.0)).1);
    }
  }

  /** The `k`-th matching pair becomes the offspring's `k`-th connection: the connection of
      `a` and its counterpart in `b` share an id; the offspring connection has the same
      endpoints, a weight selected between the two parents' weights, an inherited gater,
      and is enabled exactly when both parents' copies are or the re-enable roll beats
      `inherit_disable_chance`. */
  lemma MateMatchedConnection(a: Parent, b: Parent, x: Crossover, s: RegistryState, k: nat)
    requires Mate(a, b, x, s).fault.None?
    requires k < |Matching(a.connections, b.connections)|
    ensures var (m, cc) := Matching(a.connections, b.connections)[k];
            var c := Mate(a, b, x, s).connections[k];
      && m in a.connections && cc in b.connections && m.connectionId == cc.connectionId
      && c.inputNode == m.inputNode && c.outputNode == m.outputNode
      && Success(c.gaterNode) == InheritedGater(m.gaterNode, cc.gaterNode, Mate(a, b, x, s).nodes, x.gaterPicks(k))
      && c.weight == Select(x.selection, |Fitter(a, b).nodes| + k, m.weight, cc.weight)
      && (c.isEnabled <==> (m.isEnabled && cc.isEnabled) || x.reenableRolls(k) > x.inheritDisableChance)
  {
    var ms := Matching(a.connections, b.connections);
    MateMatchedGene(a, b, x, s, k);
    MatchedGeneSpec(ms[k].0, ms[k].1, Mate(a, b, x, s).nodes, x, |Fitter(a, b).nodes| + k, k);
    MatchingPair(a.connections, b.connections, k);
  }

  /** The offspring's `k`-th connection is the gene of the `k`-th matching pair. */
  lemma MateMatchedGene(a: Parent, b: Parent, x: Crossover, s: RegistryState, k: nat)
    requires Mate(a, b, x, s).fault.None?
    requires k < |Matching(a.connections, b.connections)|
    ensures var (m, cc) := Matching(a.connections, b.connections)[k];
      MatchedGene(m, cc, Mate(a, b, x, s).nodes, x, |Fitter(a, b).nodes| + k, k) ==
        Success(AsGene(Mate(a, b, x, s).connections[k]))
  {
    var f := Fitter(a, b);
    var nodes := OffspringNodes(f.nodes, Other(a, b).nodes, x.selection);
    var ms := Matching(a.connections, b.connections);
    var mp := MatchedPrefix(ms, nodes, x, |f.nodes|, |ms|);
    var genes := MateGenes(a, b, x).0;
    assert genes == mp.0 + DisjointGenes(f.connections, ms);
    assert genes[k] == mp.0[k];
    WithIdsAt(genes, AssignConnectionIds(s, Pairs(genes)).1, k);
    MatchedPrefixGene(ms, nodes, x, |f.nodes|, |ms|, k);
  }

  /** A connection past the first `n` carries the gene of the same position past `n`. */
  lemma TailConnection(genes: seq<Gene>, ids: seq<int>, n: nat, k: nat)
    requires |ids| == |genes| && n <= k < |genes|
    ensures AsGene(WithIds(genes, ids)[k]) == genes[n..][k - n]
  {
    WithIdsAt(genes, ids, k);
  }

  /** A gene past the first `n` is carried by some connection past the first `n`. */
  lemma TailCopied(genes: seq<Gene>, ids: seq<int>, n: nat, g: Gene)
    requires |ids| == |genes| && n <= |genes| && g in genes[n..]
    ensures exists k :: n <= k < |genes| && AsGene(WithIds(genes, ids)[k]) == g
  {
    var j :| 0 <= j < |genes[n..]| && genes[n..][j] == g;
    WithIdsAt(genes, ids, n + j);
  }

  /** The offspring's connection list is its genes with the ids the registry issued, the
      matching pairs' genes first. */
  lemma MateConnectionsAre(a: Parent, b: Parent, x: Crossover, s: RegistryState)
    requires Mate(a, b, x, s).fault.None?
    ensures var ms := Matching(a.connections, b.connections);
            var genes := MateGenes(a, b, x).0;
      && genes[|ms|..] == DisjointGenes(Fitter(a, b).connections, ms)
      && Mate(a, b, x, s).connections == WithIds(genes, AssignConnectionIds(s, Pairs(genes)).1)
  {
    var f := Fitter(a, b);
    var nodes := OffspringNodes(f.nodes, Other(a, b).nodes, x.selection);
    var ms := Matching(a.connections, b.connections);
    var mp := MatchedPrefix(ms, nodes, x, |f.nodes|, |ms|);
    assert MateGenes(a, b, x).0 == mp.0 + DisjointGenes(f.connections, ms) && |mp.0| == |ms|;
  }

  /** Every offspring connection after the matching ones is a connection of the fitter
      parent whose id matches none of them, copied with its weight, endpoints and gater,
      and enabled. */
  lemma MateDisjointConnection(a: Parent, b: Parent, x: Crossover, s: RegistryState, k: nat)
    requires Mate(a, b, x, s).fault.None?
    requires |Matching(a.connections, b.connections)| <= k < |Mate(a, b, x, s).connections|
    ensures var f := Fitter(a, b).connections;
      exists i :: 0 <= i < |f| && !IsMatched(Matching(a.connections, b.connections), f[i].connectionId) &&
                  AsGene(Mate(a, b, x, s).connections[k]) == DisjointGene(f[i])
  {
    var ms := Matching(a.connections, b.connections);
    var genes := MateGenes(a, b, x).0;
    MateConnectionsAre(a, b, x, s);
    TailConnection(genes, AssignConnectionIds(s, Pairs(genes)).1, |ms|, k);
    DisjointGeneFrom(Fitter(a, b).connections, ms, k - |ms|);
  }

  /** Every connection of the fitter parent whose id matches no matching pair is copied
      into the offspring after the matching ones, enabled. */
  lemma MateDisjointCopied(a: Parent, b: Parent, x: Crossover, s: RegistryState, i: nat)
    requires Mate(a, b, x, s).fault.None?
    requires i < |Fitter(a, b).connections|
    requires !IsMatched(Matching(a.connections, b.connections), Fitter(a, b).connections[i].connectionId)
    ensures var cs := Mate(a, b, x, s).connections;
      exists k :: |Matching(a.connections, b.connections)| <= k < |cs| &&
                  AsGene(cs[k]) == DisjointGene(Fitter(a, b).connections[i])
  {
    var ms := Matching(a.connections, b.connections);
    var genes := MateGenes(a, b, x).0;
    MateConnectionsAre(a, b, x, s);
    DisjointGeneOf(Fitter(a, b).connections, ms, i);
    TailCopied(genes, AssignConnectionIds(s, Pairs(genes)).1, |ms|, DisjointGene(Fitter(a, b).connections[i]));
  }

  /** Every offspring connection carries the id the registry holds for its endpoint pair
      once crossover is done: connections with the same endpoints share an id, and the
      registry keeps every id it had issued before. */
  lemma MateConnectionIds(a: Parent, b: Parent, x: Crossover, s: RegistryState, firstNodeId: int)
    requires StateValid(s, firstNodeId)
    ensures var m := Mate(a, b, x, s);
      && StateValid(m.registry, firstNodeId)
      && (forall p :: p in s.connectionIdMapping ==>
            p in m.registry.connectionIdMapping && m.registry.connectionIdMapping[p] == s.connectionIdMapping[p])
      && forall k :: 0 <= k < |m.connections| ==>
           var pair := (m.connections[k].inputNode, m.connections[k].outputNode);
           pair in m.registry.connectionIdMapping && m.connections[k].connectionId == m.registry.connectionIdMapping[pair]
  {
    var genes := MateGenes(a, b, x).0;
    AssignConnectionIdsSpec(s, firstNodeId, Pairs(genes));
    var m := Mate(a, b, x, s);
    forall k | 0 <= k < |m.connections|
      ensures (m.connections[k].inputNode, m.connections[k].outputNode) in m.registry.connectionIdMapping
      ensures m.connections[k].connectionId ==
                m.registry.connectionIdMapping[(m.connections[k].inputNode, m.connections[k].outputNode)]
    {
      WithIdsAt(genes, AssignConnectionIds(s, Pairs(genes)).1, k);
      PairsAt(genes, k);
    }
  }

  method AppendGene(g: Genome, reg: InnovationHandler, gene: Gene, ghost s0: RegistryState, ghost genes: seq<Gene>)
    requires reg.Valid() && g.Valid()
    requires GeneResolves(g.nodes, gene)
    requires reg.State() == AssignConnectionIds(s0, Pairs(genes)).0
    requires g.connections == WithIds(genes, AssignConnectionIds(s0, Pairs(genes)).1)
    modifies g, reg
    ensures reg.Valid() && g.Valid() && g.nodes == old(g.nodes)
    ensures reg.State() == AssignConnectionIds(s0, Pairs(genes + [gene])).0
    ensures g.connections == WithIds(genes + [gene], AssignConnectionIds(s0, Pairs(genes + [gene])).1)
  {
    var c := g.AddConnection(reg, gene.weight, gene.inputNode, gene.gaterNode, gene.outputNode,
                             gene.isEnabled, None);
    var pair := (gene.inputNode, gene.outputNode);
    assert (genes + [gene])[..|genes|] == genes;
    assert Pairs(genes + [gene]) == Pairs(genes) + [pair];
    AssignConnectionIdsAppend(s0, Pairs(genes), pair);
    var ids := AssignConnectionIds(s0, Pairs(genes)).1;
    var id := AssignConnectionIdStep(AssignConnectionIds(s0, Pairs(genes)).0, pair).1;
    assert (ids + [id])[..|ids|] == ids;
    assert WithIds(genes + [gene], ids + [id]) == WithIds(genes, ids) + [c];
  }

  /** The node loop of `_mate_multipoint`: one `add_node` per node of the fitter parent,
      with the id given, so the registry is not asked. */
  method AddOffspringNodes(offspring: Genome, reg: InnovationHandler, f: seq<Node>, o: seq<Node>, sel: Selection)
    requires reg.Valid() && offspring.nodes == [] && offspring.connections == []
    modifies offspring, reg
    ensures reg.Valid() && reg.State() == old(reg.State())
    ensures offspring.Valid() && offspring.nodes == OffspringNodes(f, o, sel) && offspring.connections == []
  {
    var i := 0;
    while i < |f|
      invariant i <= |f|
      invariant reg.Valid() && reg.State() == old(reg.State())
      invariant offspring.nodes == OffspringNodesUpTo(f, o, sel, i) && offspring.connections == []
    {
      var n := OffspringNode(f, o, i, sel);
      var added := offspring.AddNode(reg, n.nodeType, n.activation, n.bias, None, Some(n.nodeId));
      i := i + 1;
    }
  }

  /** The matching-connection loop of `_mate_multipoint`: one `add_connection` per matching
      pair, stopping at the first pair whose gene raises. */
  method AddMatched(offspring: Genome, reg: InnovationHandler, ms: seq<(Connection, Connection)>,
                    nodes: seq<Node>, x: Crossover, base: nat)
    returns (fault: Option<ReproduceFault>)
    requires reg.Valid() && offspring.Valid() && offspring.nodes == nodes && offspring.connections == []
    modifies offspring, reg
    ensures reg.Valid() && offspring.Valid() && offspring.nodes == nodes
    ensures var mp := MatchedPrefix(ms, nodes, x, base, |ms|);
            var issued := AssignConnectionIds(old(reg.State()), Pairs(mp.0));
      && fault == mp.1 && reg.State() == issued.0 && offspring.connections == WithIds(mp.0, issued.1)
  {
    ghost var s0 := reg.State();
    ghost var genes: seq<Gene> := [];
    var k := 0;
    while k < |ms|
      invariant k <= |ms|
      invariant reg.Valid() && offspring.Valid() && offspring.nodes == nodes
      invariant MatchedPrefix(ms, nodes, x, base, k) == (genes, None)
      invariant reg.State() == AssignConnectionIds(s0, Pairs(genes)).0
      invariant offspring.connections == WithIds(genes, AssignConnectionIds(s0, Pairs(genes)).1)
    {
      fault, genes := AddMatchedGene(offspring, reg, ms, nodes, x, base, k, s0, genes);
      if fault.Some? {
        MatchedPrefixStops(ms, nodes, x, base, k + 1, |ms|);
        return;
      }
      k := k + 1;
    }
    fault := None;
  }

  /** One pass of the matching-connection loop: the `k`-th pair's gene is added, or its
      fault returned. */
  method AddMatchedGene(offspring: Genome, reg: InnovationHandler, ms: seq<(Connection, Connection)>,
                        nodes: seq<Node>, x: Crossover, base: nat, k: nat, ghost s0: RegistryState,
                        ghost genes: seq<Gene>)
    returns (fault: Option<ReproduceFault>, ghost genes': seq<Gene>)
    requires reg.Valid() && offspring.Valid() && offspring.nodes == nodes && k < |ms|
    requires MatchedPrefix(ms, nodes, x, base, k) == (genes, None)
    requires reg.State() == AssignConnectionIds(s0, Pairs(genes)).0
    requires offspring.connections == WithIds(genes, AssignConnectionIds(s0, Pairs(genes)).1)
    modifies offspring, reg
    ensures reg.Valid() && offspring.Valid() && offspring.nodes == nodes
    ensures MatchedPrefix(ms, nodes, x, base, k + 1) == (genes', fault)
    ensures reg.State() == AssignConnectionIds(s0, Pairs(genes')).0
    ensures offspring.connections == WithIds(genes', AssignConnectionIds(s0, Pairs(genes')).1)
  {
    genes' := genes;
    var r := MatchedGene(ms[k].0, ms[k].1, nodes, x, base + k, k);
    if r.Failure? {
      return Some(r.error), genes;
    }
    MatchedGeneResolves(ms[k].0, ms[k].1, nodes, x, base + k, k);
    AppendGene(offspring, reg, r.value, s0, genes);
    genes' := genes + [r.value];
    fault := None;
  }

  /** The gene of a connection that resolves among the fitter parent's nodes resolves among
      nodes with the same ids. */
  lemma DisjointGeneResolves(nodes: seq<Node>, fNodes: seq<Node>, fCs: seq<Connection>, j: nat)
    requires ConnectionsResolve(fNodes, fCs) && SameIds(nodes, fNodes) && j < |fCs|
    ensures GeneResolves(nodes, DisjointGene(fCs[j]))
  {
    var c := fCs[j];
    SameIdsSameNodes(nodes, fNodes, c.inputNode);
    SameIdsSameNodes(nodes, fNodes, c.outputNode);
    if c.gaterNode.Some? {
      SameIdsSameNodes(nodes, fNodes, c.gaterNode.value);
    }
  }

  /** One pass of the disjoint-and-excess loop: the `j`-th connection of the fitter parent
      is added when its id matches no matching pair. */
  method AddDisjointGene(offspring: Genome, reg: InnovationHandler, fNodes: seq<Node>, fCs: seq<Connection>,
                         ms: seq<(Connection, Connection)>, j: nat, ghost s0: RegistryState,
                         ghost matched: seq<Gene>, ghost added: seq<Gene>)
    returns (ghost added': seq<Gene>)
    requires reg.Valid() && offspring.Valid() && j < |fCs|
    requires ConnectionsResolve(fNodes, fCs) && SameIds(offspring.nodes, fNodes)
    requires reg.State() == AssignConnectionIds(s0, Pairs(matched + added)).0
    requires offspring.connections == WithIds(matched + added, AssignConnectionIds(s0, Pairs(matched + added)).1)
    modifies offspring, reg
    ensures added' == added + (if IsMatched(ms, fCs[j].connectionId) then [] else [DisjointGene(fCs[j])])
    ensures reg.Valid() && offspring.Valid() && offspring.nodes == old(offspring.nodes)
    ensures reg.State() == AssignConnectionIds(s0, Pairs(matched + added')).0
    ensures offspring.connections == WithIds(matched + added', AssignConnectionIds(s0, Pairs(matched + added')).1)
  {
    added' := added;
    var c := fCs[j];
    if !IsMatched(ms, c.connectionId) {
      DisjointGeneResolves(offspring.nodes, fNodes, fCs, j);
      AppendGene(offspring, reg, DisjointGene(c), s0, matched + added);
      added' := added + [DisjointGene(c)];
      assert matched + added' == matched + added + [DisjointGene(c)];
    }
  }

  /** The disjoint-and-excess loop of `_mate_multipoint`: one `add_connection` per
      connection of the fitter parent whose id matches no matching pair. */
  method AddDisjoint(offspring: Genome, reg: InnovationHandler, fNodes: seq<Node>, fCs: seq<Connection>,
                     ms: seq<(Connection, Connection)>, ghost s0: RegistryState, ghost matched: seq<Gene>)
    requires reg.Valid() && offspring.Valid()
    requires ConnectionsResolve(fNodes, fCs) && SameIds(offspring.nodes, fNodes)
    requires reg.State() == AssignConnectionIds(s0, Pairs(matched)).0
    requires offspring.connections == WithIds(matched, AssignConnectionIds(s0, Pairs(matched)).1)
    modifies offspring, reg
    ensures reg.Valid() && offspring.Valid() && offspring.nodes == old(offspring.nodes)
    ensures var genes := matched + DisjointGenes(fCs, ms);
            var issued := AssignConnectionIds(s0, Pairs(genes));
      && reg.State() == issued.0 && offspring.connections == WithIds(genes, issued.1)
  {
    ghost var added: seq<Gene> := [];
    assert matched + added == matched;
    var j := 0;
    while j < |fCs|
      invariant j <= |fCs|
      invariant reg.Valid() && offspring.Valid() && offspring.nodes == old(offspring.nodes)
      invariant added == DisjointGenes(fCs[..j], ms)
      invariant reg.State() == AssignConnectionIds(s0, Pairs(matched + added)).0
      invariant offspring.connections == WithIds(matched + added, AssignConnectionIds(s0, Pairs(matched + added)).1)
    {
      DisjointGenesStep(fCs, ms, j);
      added := AddDisjointGene(offspring, reg, fNodes, fCs, ms, j, s0, matched, added);
      j := j + 1;
    }
    assert fCs[..|fCs|] == fCs;
  }

  /** `raise` or not, from `create_phenotype`'s outcome. */
  function CompileFault(r: Result<seq<int>, OrderError>): (f: Option<ReproduceFault>)
    ensures f.None? <==> r.Success?
    ensures r.Failure? ==> f == Some(NoOrder(r.error))
  {
    if r.Success? then None else Some(NoOrder(r.error))
  }

  class Organism {
    var genome: Genome
    var fitness: real
    var speciesId: int
    const organismId: int

    /** `Organism(genome, organism_id)` with an explicit id: the registry is not asked. */
    constructor (g: Genome, id: int)
      ensures genome == g && organismId == id
      ensures fitness == -1.0 && speciesId == -1
    {
      genome, organismId := g, id;
      fitness, speciesId := -1.0, -1;
    }

    /** `Organism(genome)`: the id is the registry's next organism id. */
    constructor FromRegistry(g: Genome, reg: InnovationHandler)
      requires reg.Valid()
      modifies reg
      ensures reg.Valid()
      ensures genome == g && fitness == -1.0 && speciesId == -1
      ensures (reg.State(), organismId) == NextOrganismIdStep(old(reg.State()))
    {
      var id := reg.GetNextOrganismId();
      genome, organismId := g, id;
      fitness, speciesId := -1.0, -1;
    }

    /** What crossover reads of this organism. */
    function AsParent(): Parent
      reads this, genome
    {
      Parent(genome.nodes, genome.connections, fitness)
    }

    /** `_mate_multipoint`: builds the offspring genome node by node and connection by
        connection through `add_node` and `add_connection`, stopping where the source raises,
        then compiles it. */
    method MateMultipoint(co: Organism, x: Crossover, reg: InnovationHandler)
      returns (offspring: Genome, fault: Option<ReproduceFault>)
      requires reg.Valid() && genome.Valid() && co.genome.Valid()
      modifies reg
      ensures fresh(offspring) && reg.Valid() && offspring.Valid()
      ensures var m := Mate(old(AsParent()), old(co.AsParent()), x, old(reg.State()));
        && offspring.nodes == m.nodes && offspring.connections == m.connections
        && reg.State() == m.registry
        && (m.fault.Some? ==> fault == m.fault)
        && (m.fault.None? ==> fault == CompileFault(OrderOf(m.nodes, m.connections)))
      ensures fault.None? ==> offspring.Compiled()
    {
      var a, b := AsParent(), co.AsParent();
      var f, o := Fitter(a, b), Other(a, b);
      offspring := new Genome();
      AddOffspringNodes(offspring, reg, f.nodes, o.nodes, x.selection);
      var nodes := offspring.nodes;
      var ms := Matching(a.connections, b.connections);
      ghost var s0 := reg.State();
      fault := AddMatched(offspring, reg, ms, nodes, x, |f.nodes|);
      ghost var matched := MatchedPrefix(ms, nodes, x, |f.nodes|, |ms|).0;
      if fault.Some? {
        return;
      }
      OffspringNodesSameIds(f.nodes, o.nodes, x.selection);
      AddDisjoint(offspring, reg, f.nodes, f.connections, ms, s0, matched);
      var r := offspring.CreatePhenotype();
      fault := CompileFault(r);
    }

    /** `new_organism = Organism(offspring_genome)` followed by setting its fitness. */
    static method Offspring(g: Genome, reg: InnovationHandler, fitness: real) returns (o: Organism)
      requires reg.Valid()
      modifies reg
      ensures fresh(o) && reg.Valid()
      ensures o.genome == g && o.fitness == fitness && o.speciesId == -1
      ensures (reg.State(), o.organismId) == NextOrganismIdStep(old(reg.State()))
    {
      o := new Organism.FromRegistry(g, reg);
      o.fitness := fitness;
    }

    /** `reproduce` without a co-parent: the genome is cloned and mutated, and the new
        organism, with the registry's next organism id, keeps this organism's fitness; a
        mutation that raises stops it. */
    method ReproduceAlone(reg: InnovationHandler, s: Mutation.Settings, d: Mutation.Draws)
      returns (r: Result<Organism, ReproduceFault>)
      requires reg.Valid() && genome.Valid() && genome.Compiled()
      modifies reg
      ensures reg.Valid()
      ensures r.Failure? ==> r.error.MutationFault?
      ensures r.Success? ==>
        && fresh(r.value) && fresh(r.value.genome) && r.value.speciesId == -1
        && reg.curOrganismId == r.value.organismId + 1
        && r.value.fitness == fitness && r.value.genome.Valid()
    {
      var g, _, fault := MutatedClone(reg, s, d);
      if fault.Some? {
        return Failure(MutationFault(fault.value));
      }
      var child := Offspring(g, reg, fitness);
      return Success(child);
    }

    /** The first two steps of `reproduce` without a co-parent: `self.genome.clone()` and
        `Mutation.mutate_genome` on the copy, which leaves this organism's genome alone. */
    method MutatedClone(reg: InnovationHandler, s: Mutation.Settings, d: Mutation.Draws)
      returns (g: Genome, ran: seq<Mutation.Operator>, fault: Option<Mutation.Fault>)
      requires reg.Valid() && genome.Valid() && genome.Compiled()
      modifies reg
      ensures fresh(g) && g.Valid() && reg.Valid()
      ensures genome.nodes == old(genome.nodes) && genome.connections == old(genome.connections)
      ensures ran <= Mutation.Plan(d.rolls, s)
      ensures fault.None? ==> ran == Mutation.Plan(d.rolls, s)
      ensures fault.Some? ==> ran != []
    {
      g := genome.Clone();
      ran, fault := Mutation.MutateGenome(g, reg, s, d);
    }

    /** `reproduce` with co-parent `co`: the roll picks the selection function, crossover
        builds the offspring, and the new organism, with the registry's next organism id,
        takes the fitness of the fitter parent, which is the larger of the two. */
    method ReproduceWith(co: Organism, reg: InnovationHandler, ms: MateSettings, md: MateDraws)
      returns (r: Result<Organism, ReproduceFault>)
      requires reg.Valid() && genome.Valid() && co.genome.Valid()
      modifies reg
      ensures reg.Valid()
      ensures var m := Mate(old(AsParent()), old(co.AsParent()), CrossoverOf(ms, md), old(reg.State()));
        && (m.fault.Some? ==> r == Failure(m.fault.value))
        && (r.Success? ==>
              && fresh(r.value) && fresh(r.value.genome) && r.value.speciesId == -1
              && reg.curOrganismId == r.value.organismId + 1
              && r.value.genome.nodes == m.nodes && r.value.genome.connections == m.connections
              && r.value.genome.Compiled()
              && r.value.fitness == Fitter(old(AsParent()), old(co.AsParent())).fitness)
    {
      var offspring, fault := MateMultipoint(co, CrossoverOf(ms, md), reg);
      if fault.Some? {
        return Failure(fault.value);
      }
      var fitter := if fitness > co.fitness then this else co;
      var child := Offspring(offspring, reg, fitter.fitness);
      r := Success(child);
    }

    /** `reproduce`: without a co-parent by cloning and mutating, with one by crossover. */
    method Reproduce(co: Option<Organism>, reg: InnovationHandler, s: Mutation.Settings, d: Mutation.Draws,
                     ms: MateSettings, md: MateDraws)
      returns (r: Result<Organism, ReproduceFault>)
      requires reg.Valid() && genome.Valid()
      requires co.None? ==> genome.Compiled()
      requires co.Some? ==> co.value.genome.Valid()
      modifies reg
      ensures reg.Valid()
      ensures r.Success? ==> fresh(r.value) && fresh(r.value.genome) && r.value.speciesId == -1
      ensures r.Success? ==> reg.curOrganismId == r.value.organismId + 1
      ensures co.None? && r.Success? ==> r.value.fitness == fitness && r.value.genome.Valid()
      ensures co.None? && r.Failure? ==> r.error.MutationFault?
      ensures co.Some? && r.Success? ==>
        && r.value.genome.Compiled()
        && r.value.fitness >= fitness && r.value.fitness >= co.value.fitness
        && (r.value.fitness == fitness || r.value.fitness == co.value.fitness)
    {
      if co.None? {
        r := ReproduceAlone(reg, s, d);
      } else {
        r := ReproduceWith(co.value, reg, ms, md);
      }
    }

    /** `clone`: a new organism over a copy of the genome with the same organism id, fitness
        and species id; the registry is not asked. */
    method Clone() returns (o: Organism)
      ensures fresh(o) && fresh(o.genome)
      ensures o.organismId == organismId && o.fitness == fitness && o.speciesId == speciesId
      ensures o.genome.nodes == genome.nodes && o.genome.connections == genome.connections
      ensures genome.Valid() ==> o.genome.Valid()
      ensures genome.Compiled() ==> o.genome.Compiled()
    {
      var g := genome.Clone();
      o := new Organism(g, organismId);
      o.fitness := fitness;
      o.speciesId := speciesId;
    }
  }
}
