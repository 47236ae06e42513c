/** Node references as the source holds them: Python objects, which `Node` compares by
    identity because it defines no equality of its own. The rest of the model names nodes
    by id. This module keeps, for the one place where identity and id part ways, which
    genome's node list each reference came from: a disjoint gene's gater after crossover,
    met again by `mutate_remove_node`. */
module GaterIdentity {
  import opened NeatTypes
  import Mutation
  import OrganismModel

  /** A node object: the id it carries and the genome whose node list created it. Two
      references are the same object exactly when both agree. */
  datatype NodeRef = NodeRef(id: int, owner: nat)

  /** A connection object whose endpoints and gater are node objects. */
  datatype RefConnection = RefConnection(
    connectionId: int,
    weight: real,
    input: NodeRef,
    gater: Option<NodeRef>,
    output: NodeRef,
    isEnabled: bool)

  /** The connection by node id, as the rest of the model keeps it. */
  function ById(c: RefConnection): (r: Connection)
    ensures r.connectionId == c.connectionId && r.weight == c.weight && r.isEnabled == c.isEnabled
    ensures r.inputNode == c.input.id && r.outputNode == c.output.id
    ensures r.gaterNode.Some? <==> c.gater.Some?
    ensures c.gater.Some? ==> r.gaterNode.value == c.gater.value.id
  {
    Connection(c.connectionId, c.weight, c.input.id,
               if c.gater.Some? then Some(c.gater.value.id) else None, c.output.id, c.isEnabled)
  }

  /** Every connection of the list by node id. */
  function ByIds(cs: seq<RefConnection>): (r: seq<Connection>)
    ensures |r| == |cs| && forall k :: 0 <= k < |cs| ==> r[k] == ById(cs[k])
  {
    if cs == [] then [] else [ById(cs[0])] + ByIds(cs[1..])
  }

  /** A disjoint or excess connection of the fitter parent as offspring genome `o` receives
      it under connection id `id`: the endpoints are the offspring's nodes with the same ids,
      the gater is the parent's node object itself, and the connection is enabled. */
  function DisjointGeneAsWritten(c: RefConnection, id: int, o: nat): (r: RefConnection)
    ensures r.input.owner == o && r.output.owner == o
    ensures r.gater == c.gater
  {
    RefConnection(id, c.weight, NodeRef(c.input.id, o), c.gater, NodeRef(c.output.id, o), true)
  }

  /** By id, the copied connection is the gene the model's crossover gives it. */
  lemma DisjointGeneById(c: RefConnection, id: int, o: nat)
    ensures var g := OrganismModel.DisjointGene(ById(c));
      var r := ById(DisjointGeneAsWritten(c, id, o));
      r == Connection(id, g.weight, g.inputNode, g.gaterNode, g.outputNode, g.isEnabled)
  {
  }

  /** The gater-clearing loop of `mutate_remove_node` as written: a gater is cleared when
      it is the removed node object. */
  function ClearGaterAsWritten(cs: seq<RefConnection>, removed: NodeRef): (r: seq<RefConnection>)
    ensures |r| == |cs|
    ensures forall k :: 0 <= k < |cs| ==> r[k].gater == (if cs[k].gater == Some(removed) then None else cs[k].gater)
    ensures forall k :: 0 <= k < |cs| ==> r[k].(gater := cs[k].gater) == cs[k]
  {
    if cs == [] then []
    else
      var c := if cs[0].gater == Some(removed) then cs[0].(gater := None) else cs[0];
      [c] + ClearGaterAsWritten(cs[1..], removed)
  }

  /** The connections whose endpoints are not the removed node object, in order. */
  function DetachedAsWritten(cs: seq<RefConnection>, removed: NodeRef): (r: seq<RefConnection>)
    ensures forall c :: c in r <==> c in cs && c.input != removed && c.output != removed
  {
    if cs == [] then []
    else
      var rest := DetachedAsWritten(cs[1..], removed);
      assert forall c :: c in cs <==> c == cs[0] || c in cs[1..];
      if cs[0].input != removed && cs[0].output != removed then [cs[0]] + rest else rest
  }

  /** What the phenotype's lookups need: every endpoint and gater id is a node id. */
  predicate RefsResolve(ids: set<int>, cs: seq<RefConnection>) {
    forall k :: 0 <= k < |cs| ==>
      && cs[k].input.id in ids && cs[k].output.id in ids
      && (cs[k].gater.Some? ==> cs[k].gater.value.id in ids)
  }

  /** While every gater belongs to the genome the removed node belongs to, identity and id
      agree: clearing as written is the model's clearing by id. */
  lemma {:induction false} ClearGaterAsWrittenById(cs: seq<RefConnection>, removed: NodeRef)
    requires forall k :: 0 <= k < |cs| && cs[k].gater.Some? ==> cs[k].gater.value.owner == removed.owner
    ensures ByIds(ClearGaterAsWritten(cs, removed)) == Mutation.ClearGater(ByIds(cs), removed.id)
  {
    var l := ByIds(ClearGaterAsWritten(cs, removed));
    var r := Mutation.ClearGater(ByIds(cs), removed.id);
    forall k | 0 <= k < |cs| ensures l[k] == r[k] {
      if cs[k].gater.Some? {
        assert cs[k].gater == Some(removed) <==> cs[k].gater.value.id == removed.id;
      }
    }
  }

  /** A parent's gater that the offspring's node removal does not recognise: the copied
      connection keeps it through clearing and detaching, and its id names no remaining
      node. */
  lemma {:induction false} ParentGaterSurvives(c: RefConnection, id: int, o: nat, ids: set<int>)
    requires c.gater.Some? && c.gater.value.owner != o
    requires c.input.id != c.gater.value.id && c.output.id != c.gater.value.id
    requires c.gater.value.id !in ids
    ensures var x := NodeRef(c.gater.value.id, o);
      var d := DisjointGeneAsWritten(c, id, o);
      var after := DetachedAsWritten(ClearGaterAsWritten([d], x), x);
      && after == [d]
      && !RefsResolve(ids, after)
  {
    var x := NodeRef(c.gater.value.id, o);
    var d := DisjointGeneAsWritten(c, id, o);
    var cleared := ClearGaterAsWritten([d], x);
    assert cleared[0] == d;
    assert cleared == [d];
    assert DetachedAsWritten([d], x) == [d] + DetachedAsWritten([], x);
  }

  /** The counterexample. The fitter parent (genome 1) has a connection 0 -> 1 gated by its
      hidden node 2; the offspring (genome 2) has nodes 0, 1 and 2 and receives it as a
      disjoint gene. Removing the offspring's node 2 leaves the gater in place, so building
      the phenotype over nodes 0 and 1 looks up id 2 and raises. By id, the removal clears
      that gater and every reference resolves. */
  lemma ParentGaterKeyError()
    ensures var parent := RefConnection(5, 0.5, NodeRef(0, 1), Some(NodeRef(2, 1)), NodeRef(1, 1), true);
      var d := DisjointGeneAsWritten(parent, 5, 2);
      var removed := NodeRef(2, 2);
      && DetachedAsWritten(ClearGaterAsWritten([d], removed), removed) == [d]
      && !RefsResolve({0, 1}, DetachedAsWritten(ClearGaterAsWritten([d], removed), removed))
      && Mutation.Detached(Mutation.ClearGater([ById(d)], 2), 2) == [ById(d).(gaterNode := None)]
      && ConnectionsResolve([Node(0, Input, Identity, 0.0), Node(1, Output, Identity, 0.0)],
                            Mutation.Detached(Mutation.ClearGater([ById(d)], 2), 2))
  {
    var parent := RefConnection(5, 0.5, NodeRef(0, 1), Some(NodeRef(2, 1)), NodeRef(1, 1), true);
    ParentGaterSurvives(parent, 5, 2, {0, 1});
    var d := DisjointGeneAsWritten(parent, 5, 2);
    var cleared := Mutation.ClearGater([ById(d)], 2);
    assert cleared == [ById(d).(gaterNode := None)];
    assert Mutation.Detached(cleared, 2) == [cleared[0]] + Mutation.Detached([], 2);
    var nodes := [Node(0, Input, Identity, 0.0), Node(1, Output, Identity, 0.0)];
    assert nodes[0].nodeId == 0 && nodes[1].nodeId == 1;
  }
}
