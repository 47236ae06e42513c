/** The innovation registry: the process-wide allocator of organism, node and connection ids.
    Node ids are memoised per split connection and connection ids per ordered node-id pair,
    so that the same structural mutation made in two genomes receives the same id. */
module Innovation {
  import opened NeatTypes

  /** The registry's whole state as a value. */
  datatype RegistryState = RegistryState(
    curOrganismId: int,
    curNodeId: int,
    curConnectionId: int,
    nodeIdMapping: map<int, int>,
    connectionIdMapping: map<(int, int), int>)

  /** The state right after the singleton is first created: organism and connection
      counters at 0, node ids starting after the fixed input and output nodes. */
  function InitialState(inputsCount: nat, outputsCount: nat): (s: RegistryState)
    ensures s.curOrganismId == 0 && s.curConnectionId == 0
    ensures s.curNodeId == inputsCount + outputsCount
    ensures s.nodeIdMapping == map[] && s.connectionIdMapping == map[]
    ensures StateValid(s, inputsCount + outputsCount)
  {
    RegistryState(0, inputsCount + outputsCount, 0, map[], map[])
  }

  /** What the registry keeps true: memoised node ids lie in [firstNodeId, curNodeId) and are
      pairwise distinct; the connection memo is a bijection onto [0, curConnectionId). */
  ghost predicate StateValid(s: RegistryState, firstNodeId: int) {
    && 0 <= s.curOrganismId
    && firstNodeId <= s.curNodeId
    && (forall src :: src in s.nodeIdMapping ==>
          firstNodeId <= s.nodeIdMapping[src] < s.curNodeId)
    && (forall a, b :: a in s.nodeIdMapping && b in s.nodeIdMapping && a != b ==>
          s.nodeIdMapping[a] != s.nodeIdMapping[b])
    && (forall p :: p in s.connectionIdMapping ==> 0 <= s.connectionIdMapping[p] < s.curConnectionId)
    && (forall p, q :: p in s.connectionIdMapping && q in s.connectionIdMapping && p != q ==>
          s.connectionIdMapping[p] != s.connectionIdMapping[q])
    && s.curConnectionId == |s.connectionIdMapping|
  }

  /** get_next_organism_id on the state value. */
  function NextOrganismIdStep(s: RegistryState): (RegistryState, int) {
    (s.(curOrganismId := s.curOrganismId + 1), s.curOrganismId)
  }

  /** assign_node_id on the state value: a memoised source gets its id back; anything else
      gets the counter, which then advances, and a non-None source is memoised. */
  function AssignNodeIdStep(s: RegistryState, source: Option<int>): (RegistryState, int) {
    if source.Some? && source.value in s.nodeIdMapping then
      (s, s.nodeIdMapping[source.value])
    else
      var mapping := if source.Some? then s.nodeIdMapping[source.value := s.curNodeId]
                     else s.nodeIdMapping;
      (s.(curNodeId := s.curNodeId + 1, nodeIdMapping := mapping), s.curNodeId)
  }

  /** assign_connection_id on the state value, keyed by the ordered (input id, output id) pair. */
  function AssignConnectionIdStep(s: RegistryState, pair: (int, int)): (RegistryState, int) {
    if pair in s.connectionIdMapping then (s, s.connectionIdMapping[pair])
    else (s.(curConnectionId := s.curConnectionId + 1,
             connectionIdMapping := s.connectionIdMapping[pair := s.curConnectionId]),
          s.curConnectionId)
  }

  /** Every operation keeps the registry invariant. */
  lemma NextOrganismIdPreservesValid(s: RegistryState, firstNodeId: int)
    requires StateValid(s, firstNodeId)
    ensures StateValid(NextOrganismIdStep(s).0, firstNodeId)
  {
  }

  lemma AssignNodeIdPreservesValid(s: RegistryState, firstNodeId: int, source: Option<int>)
    requires StateValid(s, firstNodeId)
    ensures StateValid(AssignNodeIdStep(s, source).0, firstNodeId)
    ensures firstNodeId <= AssignNodeIdStep(s, source).1 < AssignNodeIdStep(s, source).0.curNodeId
  {
    if source.Some? && source.value in s.nodeIdMapping {
      var v := source.value;
      assert v in s.nodeIdMapping;
    } else if source.Some? {
      var m := s.nodeIdMapping[source.value := s.curNodeId];
      forall a | a in m ensures firstNodeId <= m[a] < s.curNodeId + 1 {
        if a != source.value {
          assert a in s.nodeIdMapping;
        }
      }
    }
  }

  lemma AssignConnectionIdPreservesValid(s: RegistryState, firstNodeId: int, pair: (int, int))
    requires StateValid(s, firstNodeId)
    ensures StateValid(AssignConnectionIdStep(s, pair).0, firstNodeId)
    ensures 0 <= AssignConnectionIdStep(s, pair).1 < AssignConnectionIdStep(s, pair).0.curConnectionId
  {
    if pair !in s.connectionIdMapping {
      var m := s.connectionIdMapping;
      var m' := m[pair := s.curConnectionId];
      assert m'.Keys == m.Keys + {pair};
      forall p | p in m' ensures 0 <= m'[p] < s.curConnectionId + 1 {
        if p != pair {
          assert p in m;
        }
      }
    }
  }

  /** Issuing connection ids for a list of pairs, one after the other. */
  function AssignConnectionIds(s: RegistryState, pairs: seq<(int, int)>): (r: (RegistryState, seq<int>))
    ensures |r.1| == |pairs|
    decreases |pairs|
  {
    if pairs == [] then (s, [])
    else
      var (s1, id) := AssignConnectionIdStep(s, pairs[0]);
      var (s2, ids) := AssignConnectionIds(s1, pairs[1..]);
      (s2, [id] + ids)
  }

  /** Connection ids are idempotent per pair, and a pair never seen before receives an id
      beyond every id issued earlier: after a run of requests, every old pair keeps its id,
      each requested pair is memoised with the id it was given, and new pairs hold ids at or
      above the old counter. */
  lemma {:induction false} AssignConnectionIdsSpec(s: RegistryState, f: int, pairs: seq<(int, int)>)
    requires StateValid(s, f)
    ensures var (s', ids) := AssignConnectionIds(s, pairs);
      && |ids| == |pairs|
      && StateValid(s', f)
      && s.curConnectionId <= s'.curConnectionId
      && (forall p :: p in s.connectionIdMapping ==>
            p in s'.connectionIdMapping && s'.connectionIdMapping[p] == s.connectionIdMapping[p])
      && (forall p :: p in s'.connectionIdMapping && p !in s.connectionIdMapping ==>
            s.curConnectionId <= s'.connectionIdMapping[p])
      && (forall i :: 0 <= i < |pairs| ==>
            pairs[i] in s'.connectionIdMapping && ids[i] == s'.connectionIdMapping[pairs[i]])
    decreases |pairs|
  {
    if pairs != [] {
      var (s1, id) := AssignConnectionIdStep(s, pairs[0]);
      AssignConnectionIdPreservesValid(s, f, pairs[0]);
      AssignConnectionIdsSpec(s1, f, pairs[1..]);
      var (s2, ids) := AssignConnectionIds(s1, pairs[1..]);
      assert AssignConnectionIds(s, pairs) == (s2, [id] + ids);
      forall i | 0 <= i < |pairs|
        ensures pairs[i] in s2.connectionIdMapping && ([id] + ids)[i] == s2.connectionIdMapping[pairs[i]]
      {
        if i > 0 {
          assert pairs[i] == pairs[1..][i - 1];
        }
      }
    }
  }

  /** Issuing ids for one more pair continues from the state the earlier pairs left. */
  lemma {:induction false} AssignConnectionIdsAppend(s: RegistryState, pairs: seq<(int, int)>, p: (int, int))
    ensures AssignConnectionIds(s, pairs + [p]) ==
      (AssignConnectionIdStep(AssignConnectionIds(s, pairs).0, p).0,
       AssignConnectionIds(s, pairs).1 + [AssignConnectionIdStep(AssignConnectionIds(s, pairs).0, p).1])
    decreases |pairs|
  {
    if pairs == [] {
      assert pairs + [p] == [p] && [p][1..] == [];
      var step := AssignConnectionIdStep(s, p);
      assert AssignConnectionIds(step.0, []) == (step.0, []);
      assert AssignConnectionIds(s, [p]) == (step.0, [step.1] + []);
      assert AssignConnectionIds(s, pairs) == (s, []);
      assert [step.1] + [] == [] + [step.1];
    } else {
      var first := AssignConnectionIdStep(s, pairs[0]);
      var rest := AssignConnectionIds(first.0, pairs[1..]);
      assert (pairs + [p])[0] == pairs[0] && (pairs + [p])[1..] == pairs[1..] + [p];
      assert AssignConnectionIds(s, pairs) == (rest.0, [first.1] + rest.1);
      assert AssignConnectionIds(s, pairs + [p]) ==
        (AssignConnectionIds(first.0, pairs[1..] + [p]).0, [first.1] + AssignConnectionIds(first.0, pairs[1..] + [p]).1);
      AssignConnectionIdsAppend(first.0, pairs[1..], p);
      assert [first.1] + (rest.1 + [AssignConnectionIdStep(rest.0, p).1])
          == ([first.1] + rest.1) + [AssignConnectionIdStep(rest.0, p).1];
    }
  }

  /** A pair that is new to the registry when a run of requests starts gets an id that no
      earlier pair holds. */
  lemma FreshPairGetsUnusedId(s: RegistryState, f: int, pairs: seq<(int, int)>, i: nat)
    requires StateValid(s, f)
    requires i < |pairs| && pairs[i] !in s.connectionIdMapping
    ensures s.curConnectionId <= AssignConnectionIds(s, pairs).1[i] < AssignConnectionIds(s, pairs).0.curConnectionId
    ensures forall p :: p in s.connectionIdMapping ==>
              s.connectionIdMapping[p] != AssignConnectionIds(s, pairs).1[i]
  {
    AssignConnectionIdsSpec(s, f, pairs);
  }

  /** The registry itself, updated in place as the source's singleton is. */
  class InnovationHandler {
    var curOrganismId: int
    var curNodeId: int
    var curConnectionId: int
    var nodeIdMapping: map<int, int>
    var connectionIdMapping: map<(int, int), int>
    /** The first node id this registry hands out (inputs_count + outputs_count). */
    const firstNodeId: int

    function State(): RegistryState
      reads this
    {
      RegistryState(curOrganismId, curNodeId, curConnectionId, nodeIdMapping, connectionIdMapping)
    }

    ghost predicate Valid()
      reads this
    {
      StateValid(State(), firstNodeId)
    }

    constructor (inputsCount: nat, outputsCount: nat)
      ensures Valid()
      ensures State() == InitialState(inputsCount, outputsCount)
      ensures firstNodeId == inputsCount + outputsCount
    {
      curOrganismId := 0;
      curNodeId := inputsCount + outputsCount;
      curConnectionId := 0;
      nodeIdMapping := map[];
      connectionIdMapping := map[];
      firstNodeId := inputsCount + outputsCount;
    }

    /** Returns the organism counter and advances it by one: 0, 1, 2, ... */
    method GetNextOrganismId() returns (id: int)
      requires Valid()
      modifies this
      ensures Valid()
      ensures (State(), id) == NextOrganismIdStep(old(State()))
      ensures id == old(curOrganismId) && curOrganismId == id + 1
    {
      id := curOrganismId;
      curOrganismId := curOrganismId + 1;
      NextOrganismIdPreservesValid(old(State()), firstNodeId);
    }

    /** A memoised source returns its id with no other change; anything else takes the node
        counter, the counter grows by exactly one, and only a non-None source is memoised. */
    method AssignNodeId(source: Option<int>) returns (id: int)
      requires Valid()
      modifies this
      ensures Valid()
      ensures (State(), id) == AssignNodeIdStep(old(State()), source)
      ensures source.Some? && source.value in old(nodeIdMapping) ==>
                id == old(nodeIdMapping)[source.value] && State() == old(State())
      ensures !(source.Some? && source.value in old(nodeIdMapping)) ==>
                id == old(curNodeId) && curNodeId == old(curNodeId) + 1
      ensures firstNodeId <= id < curNodeId
    {
      if source.Some? && source.value in nodeIdMapping {
        id := nodeIdMapping[source.value];
      } else {
        id := curNodeId;
        curNodeId := curNodeId + 1;
        if source.Some? {
          nodeIdMapping := nodeIdMapping[source.value := id];
        }
      }
      AssignNodeIdPreservesValid(old(State()), firstNodeId, source);
    }

    /** The id of an ordered (input id, output id) pair: the memoised one if the pair was seen
        before, otherwise the next connection id, after which the counter grows by one. */
    method AssignConnectionId(pair: (int, int)) returns (id: int)
      requires Valid()
      modifies this
      ensures Valid()
      ensures (State(), id) == AssignConnectionIdStep(old(State()), pair)
      ensures pair in connectionIdMapping && connectionIdMapping[pair] == id
      ensures pair in old(connectionIdMapping) ==> State() == old(State())
      ensures pair !in old(connectionIdMapping) ==>
                id == old(curConnectionId) && curConnectionId == old(curConnectionId) + 1
      ensures 0 <= id < curConnectionId
    {
      if pair in connectionIdMapping {
        id := connectionIdMapping[pair];
      } else {
        id := curConnectionId;
        connectionIdMapping := connectionIdMapping[pair := id];
        curConnectionId := curConnectionId + 1;
      }
      AssignConnectionIdPreservesValid(old(State()), firstNodeId, pair);
    }
  }

  /** Two requests with no source never share an id. */
  lemma {:induction false} NoneSourcesAreFresh(s: RegistryState, firstNodeId: int)
    requires StateValid(s, firstNodeId)
    ensures var (s1, a) := AssignNodeIdStep(s, None);
            var (s2, b) := AssignNodeIdStep(s1, None);
            a != b && b == a + 1 && s2.nodeIdMapping == s.nodeIdMapping
  {
  }

  /** A freshly issued node id exceeds every id the registry memoised before it, so a new
      split source can never collide with an earlier one. */
  lemma FreshNodeIdExceedsMemo(s: RegistryState, firstNodeId: int, source: Option<int>)
    requires StateValid(s, firstNodeId)
    requires !(source.Some? && source.value in s.nodeIdMapping)
    ensures forall src :: src in s.nodeIdMapping ==> s.nodeIdMapping[src] < AssignNodeIdStep(s, source).1
  {
  }
}
