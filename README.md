# NEAT chess bot: a verified model of the evolutionary core

This project models, in Dafny, the core of `python_neat`. That is a NEAT-style
neuro-evolution system that evolves recurrent networks to play chess puzzles. The model
covers:

- the innovation registry that hands out organism, node and connection ids
  (`innovation.dfy`);
- the genome and its compiled phenotype: activation order, id/position maps, weight and
  gate matrix, and the swept activation (`ordering.dfy`, `phenotype.dfy`, `genome.dfy`);
- every mutation operator and the `mutate_genome` dispatcher (`mutation.dfy`);
- organism construction, cloning, asexual reproduction and multipoint crossover
  (`organism.dfy`), and the node identities that crossover and node removal disagree on
  (`gater_identity.dfy`);
- the population: speciation, threshold adaptation, elitist culling, champion and
  challenger selection (`population.dfy`);
- the JSON record serialiser and its round trip (`json_converter.dfy`);
- the chess bit encodings and the ASCII decoder (`chess_util.dfy`);
- the scoring glue: score comparison, best-move choice, puzzle inputs and puzzle scores
  (`game_controller.dfy`), and the fitness result table (`fitness.dfy`);
- the UCI bot's input helpers, min-max rescaling and `position` handling
  (`uci_bot_tester.dfy`);
- the generator of the non-minimal starting genome (`nonminimal_structure.dfy`).

`types.dfy` holds the shared value types (node, connection, node type, activation
function, `Option`, `Result`) and `seqs.dfy` small sequence helpers.

Objects that the source updates in place are classes:

- `InnovationHandler`;
- `Genome`;
- `Organism`;
- `Population`;
- `UciInteractionBot`.

Each class is paired with a heap-free specification (a registry state, pure functions
over node and connection lists, a speciation record). Lemmas about those specifications
carry the properties. Pure code (selection functions, encodings, scores) is written as
functions.

Conventions:

- Floats are `real`.
- Activation functions are an uninterpreted `apply` parameter.
- Every random draw is an oracle parameter; `random.choice` over a list of length n picks
  the element at `draw % n`.
- Python exceptions and non-terminating loops become explicit `Result`/`Outcome` failure
  values.

Two points of the code decide how the model reads it:

- The ordering loop of `determine_activation_order` has no way out of a stall
  (`python_neat/src/genome.py:99-107`), so a stall is a `Stalled` failure. No node is
  placed by force.
- `genome.py` is older than its callers. The model uses the callers'
  interface:
  - both adders return the created element;
  - `is_enabled` defaults to true;
  - an explicit id bypasses the registry.

## Model

| member | source | states |
|---|---|---|
| Innovation.InitialState | python_neat/src/innovation_handler.py:10-14 | the registry starts with organism and connection counters at 0, the node counter at inputs + outputs, and both memo tables empty, which satisfies the registry invariant |
| Innovation.InnovationHandler.constructor | python_neat/src/innovation_handler.py:7-15 | a new registry is in that initial state and valid |
| Innovation.InnovationHandler.GetNextOrganismId | python_neat/src/innovation_handler.py:17-20 | returns the old organism counter and advances it by exactly one, so successive calls give 0, 1, 2, … |
| Innovation.NextOrganismIdPreservesValid | python_neat/src/innovation_handler.py:17-20 | issuing an organism id keeps the registry invariant (every memoised id below its counter) |
| Innovation.InnovationHandler.AssignNodeId | python_neat/src/innovation_handler.py:22-32 | a memoised source returns its stored id and changes nothing; any other source gets the current node counter, which grows by one; the id lies between the first node id and the new counter |
| Innovation.AssignNodeIdPreservesValid | python_neat/src/innovation_handler.py:22-32 | assigning a node id keeps the registry invariant, and the id is at least inputs + outputs and below the new counter |
| Innovation.NoneSourcesAreFresh | python_neat/src/innovation_handler.py:29-30 | two calls with no source give two different consecutive ids and memoise nothing |
| Innovation.FreshNodeIdExceedsMemo | python_neat/src/innovation_handler.py:25-27 | a freshly issued node id is greater than every memoised one |
| Innovation.InnovationHandler.AssignConnectionId | python_neat/src/innovation_handler.py:34-41 | a known (input, output) pair returns its id and changes nothing; a new pair gets the current counter, which grows by one, and is memoised |
| Innovation.AssignConnectionIdPreservesValid | python_neat/src/innovation_handler.py:34-41 | assigning a connection id keeps the registry invariant, and the id is below the new counter |
| Innovation.AssignConnectionIdsSpec | python_neat/src/innovation_handler.py:34-41 | after a run of requests, old memo entries are kept, new entries are at or above the old counter, and each request's id is its pair's memoised id |
| Innovation.AssignConnectionIdsAppend | python_neat/src/innovation_handler.py:34-41 | a run of requests followed by one more equals that one request applied to the run's final state |
| Innovation.FreshPairGetsUnusedId | python_neat/src/innovation_handler.py:38-40 | a pair that was not memoised gets an id no previously memoised pair has |
| ActivationOrder.PassPermutes | python_neat/src/genome.py:103-107 | one pass over the remaining nodes splits them into placed and left over, losing and adding nothing |
| ActivationOrder.PassSpec | python_neat/src/genome.py:103-107 | every node a pass places has all its non-self predecessors placed before it; a pass that places nothing leaves every node unready |
| ActivationOrder.PassesPermutes | python_neat/src/genome.py:99-107 | repeated passes also lose and add no node |
| ActivationOrder.PassesSpec | python_neat/src/genome.py:99-107 | after the passes, each placed node follows its predecessors and each leftover node still waits on an unplaced predecessor |
| ActivationOrder.ScanOnce | python_neat/src/genome.py:103-107 | the loop over the remaining nodes computes one pass, placing nodes as soon as they are ready |
| ActivationOrder.PlaceByPasses | python_neat/src/genome.py:99-107 | the while loop computes the passes until nothing remains or a pass places nothing |
| ActivationOrder.OrderCoversEveryNodeOnce | python_neat/src/genome.py:96-109 | a successful activation order holds every node id, each exactly once |
| ActivationOrder.OrderIsTopological | python_neat/src/genome.py:87-107 | the order starts with a topological order of the input-to-input edges, and every later node has all its non-self predecessors earlier |
| ActivationOrder.StallLeavesCycle | python_neat/src/genome.py:99-107 | when the loop stalls, every leftover node waits on another leftover node, so the leftovers contain a cycle |
| ActivationOrder.InputCycleLeavesCycle | python_neat/src/genome.py:87-93 | when the input subgraph cannot be sorted, every leftover input node waits on another leftover input node |
| Phenotype.PhenoToGeno | python_neat/src/genome.py:47 | the position-to-id map is defined exactly on positions 0 .. N-1 |
| Phenotype.GenoToPheno | python_neat/src/genome.py:48 | the id-to-position map is defined exactly on the ids in the order |
| Phenotype.PhenoGenoInverse | python_neat/src/genome.py:47-48 | for an order without duplicates, the two maps are mutually inverse bijections between ids and 0 .. N-1 |
| Phenotype.CellWeightUnwritten | python_neat/src/genome.py:51-61 | a matrix cell that no connection lands on keeps weight 0 |
| Phenotype.CellWeightIsLastWrite | python_neat/src/genome.py:54-61 | a cell's weight is that of the last connection landing on it, enabled or not |
| Phenotype.CellGateUnwritten | python_neat/src/genome.py:52-67 | a cell that no gated connection lands on has no gate (the NaN sentinel) |
| Phenotype.CellGateIsLastGatedWrite | python_neat/src/genome.py:63-67 | a cell's gate is the position of the gater of the last gated connection landing on it |
| Phenotype.BuildMatrix | python_neat/src/genome.py:51-67 | the built N×N weight and gate matrices hold, cell by cell, the last-write values above, and every gate is a valid position |
| Phenotype.SweepFrame | python_neat/src/genome.py:128-143 | a sweep leaves untouched every position that no node in the order maps to |
| Phenotype.SweepsCompose | python_neat/src/genome.py:128-143 | k1 + k2 sweeps equal k2 sweeps after k1 sweeps |
| Phenotype.Incoming | python_neat/src/genome.py:133-137 | computes a node's incoming sum: weight times source value, times the gater's value where a gate is set, over all positions |
| Phenotype.RunSweep | python_neat/src/genome.py:129-143 | one sweep updates the nodes in activation order, each from the in-progress values, using the bias and function of `nodes[position]` |
| Phenotype.InjectInputsFrame | python_neat/src/genome.py:121-125 | injecting inputs changes no position that belongs to a non-input node |
| Phenotype.InjectInputsPlacesEach | python_neat/src/genome.py:121-125 | the i-th input node (in list order) receives the i-th input value, unless a later input node shares its position |
| Phenotype.OutputValues | python_neat/src/genome.py:145-146 | one value per output node, in node-list order |
| GenomeModel.OrderIndexFacts | python_neat/src/genome.py:47-109 | a successful order has no duplicates, and its id-to-position map covers exactly the genome's node ids, with positions below N |
| GenomeModel.Genome.constructor | python_neat/src/genome.py:28-32 | a new genome has no nodes, no connections and no activations |
| GenomeModel.Genome.AddNode | python_neat/src/genome.py:34-38 | appends exactly one node; it takes a registry id only when no id is given, and otherwise leaves the registry unchanged |
| GenomeModel.Genome.AddConnection | python_neat/src/genome.py:40-43 | appends exactly one connection; its id is the registry id of its (input, output) pair unless an id is given; `is_enabled` is as passed |
| GenomeModel.ComputeOrder | python_neat/src/genome.py:72-109 | computes the activation order of the node and connection lists (all connections, enabled or not) |
| GenomeModel.Genome.DetermineActivationOrder | python_neat/src/genome.py:72-109 | stores that order on success and changes nothing else |
| GenomeModel.Compile | python_neat/src/genome.py:45-70 | on success builds the order, both id maps and the matrices that together form a phenotype of the lists |
| GenomeModel.Genome.CreatePhenotype | python_neat/src/genome.py:45-70 | on success the genome is compiled and its activations are N zeros; on failure nothing changes |
| GenomeModel.Genome.Activate | python_neat/src/genome.py:111-151 | fails exactly when the input count differs from the number of input nodes; otherwise injects the inputs, runs exactly `max_iterations` sweeps, returns the output nodes' values, and keeps the old activations when `simulate_only` |
| GenomeModel.Run | python_neat/src/genome.py:125-146 | computes the swept state and the output values of one activation |
| GenomeModel.InjectInputsLoop | python_neat/src/genome.py:121-125 | writes each input value at its input node's position |
| GenomeModel.OutputsLoop | python_neat/src/genome.py:145-146 | collects the output nodes' values in node-list order |
| GenomeModel.Genome.ResetState | python_neat/src/genome.py:153-154 | activations become N zeros |
| GenomeModel.Genome.Clone | python_neat/src/organism.py:121-125 | a fresh genome with the same lists, phenotype and activations |
| Mutation.Clamp | python_neat/src/mutation_handler.py:44-56 | `min(max(x, lo), hi)`: in range when lo ≤ hi, the identity inside the range |
| Mutation.PerturbedWeight | python_neat/src/mutation_handler.py:40-45 | only the weight changes; an unperturbed connection stays as it is; a perturbed weight lies in [min_val, max_val] |
| Mutation.PerturbedBias | python_neat/src/mutation_handler.py:50-57 | only the bias changes; input nodes and unperturbed nodes stay as they are; a perturbed bias lies in [min_val, max_val] |
| Mutation.MutateWeights | python_neat/src/mutation_handler.py:39-46 | every connection is replaced by its perturbed version; node and connection counts are unchanged; the phenotype is rebuilt |
| Mutation.MutateBiases | python_neat/src/mutation_handler.py:49-58 | every node is replaced by its perturbed version; input biases never change; counts are unchanged; the phenotype is rebuilt |
| Mutation.FirstAccepted | python_neat/src/mutation_handler.py:65-80 | a re-draw loop stops at the first acceptable draw, and rejects every draw before it |
| Mutation.MutateAddGate | python_neat/src/mutation_handler.py:61-69 | raises on an empty connection list; otherwise gates the chosen connection with the first drawn node that is neither of its endpoints, and changes nothing else |
| Mutation.MutateActivationFunction | python_neat/src/mutation_handler.py:72-81 | raises on an empty node list; otherwise gives the first drawn non-input node the first drawn function that differs from its current one, and changes nothing else |
| Mutation.DisabledMissing | python_neat/src/mutation_handler.py:85 | the disabled connections not yet in the eligible list, in genome order |
| Mutation.ExtendedEligible | python_neat/src/mutation_handler.py:85 | the extended list holds every disabled connection, stays in range, and stays free of duplicates |
| Mutation.MutateToggleEnable | python_neat/src/mutation_handler.py:84-89 | returns the caller's list extended with the missing disabled connections; flips exactly the chosen connection's flag when that list is non-empty, and otherwise changes nothing |
| Mutation.MutateGeneReenable | python_neat/src/mutation_handler.py:92-97 | enables exactly one disabled connection, or changes nothing when none is disabled |
| Mutation.MutateRemoveConnection | python_neat/src/mutation_handler.py:100-104 | removes exactly the chosen eligible connection, or changes nothing when none is eligible |
| Mutation.RemovableFrom | python_neat/src/mutation_handler.py:180-182 | the removable connections, in genome order: input node with more than one enabled non-self outgoing edge, output node with more than one enabled non-self incoming edge or an input node |
| Mutation.RemovableKeepsAnExit | python_neat/src/mutation_handler.py:176-181 | a removable connection's input node keeps another enabled non-self outgoing edge |
| Mutation.CountDegrees | python_neat/src/mutation_handler.py:172-178 | the two counting loops compute every node's enabled non-self out- and in-degree |
| Mutation.FindConsForRemoval | python_neat/src/mutation_handler.py:171-182 | returns exactly the removable connections, in genome order |
| Mutation.SplitConnectionShape | python_neat/src/mutation_handler.py:205-213 | a split appends one hidden node, disables the split connection, and appends in→new with weight 1 and new→out with the old weight, both enabled |
| Mutation.SplitIsReproducible | python_neat/src/mutation_handler.py:210-213 | splitting the same connection id again, in any genome, yields the same node id and the same two connection ids |
| Mutation.FindSplit | python_neat/src/mutation_handler.py:190-202 | finds the first draw that hits an enabled connection with pheno(in) < pheno(out), or reports that the cap was reached |
| Mutation.Split | python_neat/src/mutation_handler.py:205-213 | performs the split on the genome and the registry |
| Mutation.AddNodeMutation | python_neat/src/mutation_handler.py:185-216 | raises on no connections; returns skipped, changing nothing, after the retry cap; otherwise splits the first splittable drawn connection and rebuilds the phenotype |
| Mutation.AreConnected | python_neat/src/mutation_handler.py:236-241 | true exactly when a connection joins the two nodes in either direction |
| Mutation.FindPair | python_neat/src/mutation_handler.py:220-243 | finds the first drawn node pair with no connection in either direction (self-pairs allowed), or reports the cap |
| Mutation.AddConnectionMutation | python_neat/src/mutation_handler.py:219-253 | raises on no nodes; returns skipped after the cap; otherwise appends exactly one enabled connection between unconnected nodes, with the registry id of the pair |
| Mutation.ConnectingKeepsPairsUnique | python_neat/src/mutation_handler.py:236-248 | adding only unconnected pairs keeps every ordered pair of endpoints unique |
| Mutation.HiddenFrom | python_neat/src/mutation_handler.py:108-112 | the positions of exactly the hidden nodes, in order |
| Mutation.Neighbours | python_neat/src/mutation_handler.py:119-130 | the far ends and the gaters of exactly the non-self connections into (or out of) the removed node |
| Mutation.Between | python_neat/src/mutation_handler.py:136 | the positions, in order, of exactly the connections from s to t |
| Mutation.EnableEach | python_neat/src/mutation_handler.py:142 | the loop over the existing connections enables exactly those |
| Mutation.BridgePairSpec | python_neat/src/mutation_handler.py:136-143 | bridging one pair keeps every existing connection's wiring, appends only s→t connections, and leaves an enabled s→t |
| Mutation.BridgeFromSpec | python_neat/src/mutation_handler.py:133-143 | after bridging every source with every target, each pair has an enabled connection, old enabled edges stay enabled, and only source→target connections are appended |
| Mutation.BridgeStep | python_neat/src/mutation_handler.py:136-143 | bridges one source–target pair in the genome and the registry |
| Mutation.BridgeAll | python_neat/src/mutation_handler.py:133-143 | the nested loop bridges every pair, as the specification does |
| Mutation.Placements | python_neat/src/mutation_handler.py:146-152 | one picked pool position per gater while the pool lasts (min of gaters left and pool size), each from the pool |
| Mutation.PlaceGatersSpec | python_neat/src/mutation_handler.py:146-152 | placing gaters changes only gaters, only at picked pool positions (so at most one per gater), and each changed gater is one of those collected |
| Mutation.PlaceGatersPicked | python_neat/src/mutation_handler.py:146-152 | the j-th picked connection ends up gated by the j-th gater, unless a later gater picks it again |
| Mutation.PlaceGatersLoop | python_neat/src/mutation_handler.py:146-152 | each gater in turn goes to one drawn bridging connection, which then leaves the pool, until the pool is empty |
| Mutation.ClearGater | python_neat/src/mutation_handler.py:155-157 | exactly the connections gated by the removed node's id lose their gater (the corrected comparison, see Findings) |
| Mutation.DetachedResolve | python_neat/src/mutation_handler.py:155-166 | after clearing by id and detaching, no connection names the removed node, and every reference resolves among the remaining nodes |
| Mutation.ClearGaterLoop | python_neat/src/mutation_handler.py:155-157 | the loop clears exactly those gaters |
| Mutation.Detached | python_neat/src/mutation_handler.py:160-163 | exactly the connections that neither start nor end at the removed node are kept |
| Mutation.DetachLoop | python_neat/src/mutation_handler.py:160-163 | the removal loop keeps exactly those, in order |
| Mutation.CollectNeighbours | python_neat/src/mutation_handler.py:119-130 | the two collection loops compute the sources, targets and gaters |
| Mutation.RemovedWiringSpec | python_neat/src/mutation_handler.py:114-163 | after removal no connection uses the node as input, output or gater, every connection resolves to a remaining node, and each s→removed, removed→t pair has an enabled s→t |
| Mutation.RemoveNodeAt | python_neat/src/mutation_handler.py:114-166 | removes the node at the chosen position and rewires the connections and the registry as the specification says |
| Mutation.MutateRemoveNode | python_neat/src/mutation_handler.py:107-168 | skips, changing nothing, when there is no hidden node; otherwise removes exactly the chosen hidden node, leaves the connections and registry `RemovedWiring` gives (bridges, gaters placed by `PlaceGaters`, gaters cleared, connections detached) and rebuilds the phenotype |
| Mutation.PlanIsExclusive | python_neat/src/mutation_handler.py:13-36 | one call runs `add_node_mutation` alone, or `add_connection_mutation` alone, or only parameter-group operators |
| Mutation.GroupPlan | python_neat/src/mutation_handler.py:19-36 | the parameter group never includes the two structural operators |
| Mutation.GroupPlanOrdered | python_neat/src/mutation_handler.py:19-36 | each parameter-group operator runs at most once, in source order |
| Mutation.GroupPlanPrefix | python_neat/src/mutation_handler.py:19-36 | the operators decided so far are a prefix of the whole group's plan |
| Mutation.RunGroupOperator | python_neat/src/mutation_handler.py:19-36 | runs one parameter-group operator and keeps the shared removable list in range for the later operators that use it |
| Mutation.GroupStep | python_neat/src/mutation_handler.py:19-36 | one decision of the group extends the operators run by that decision's operator when its roll passes |
| Mutation.MutateGroup | python_neat/src/mutation_handler.py:17-36 | runs a prefix of the group plan, all of it unless an operator raises |
| Mutation.MutateGenome | python_neat/src/mutation_handler.py:12-36 | runs a prefix of the plan, all of it unless an operator raises, and keeps genome and registry valid |
| OrganismModel.Select | python_neat/src/organism.py:31-36 | a selected value lies between the two parents' values; choosing returns one of them, averaging their midpoint |
| OrganismModel.CrossoverOf | python_neat/src/organism.py:31-36 | averaging is chosen exactly when the roll is below `mate_avg_genes_prob` |
| OrganismModel.Fitter | python_neat/src/organism.py:39-48 | the fitter parent is one of the two with the greater fitness, and ties go to the co-parent |
| OrganismModel.Other | python_neat/src/organism.py:48-56 | the other parent is the one not chosen as fitter |
| OrganismModel.FirstWithIdSpec | python_neat/src/organism.py:54-56 | a parent has a node with an id exactly when the first-match lookup finds one |
| OrganismModel.FirstWithIdIsFirst | python_neat/src/organism.py:54-56 | the lookup returns the first node with that id |
| OrganismModel.OffspringNodeSpec | python_neat/src/organism.py:52-65 | each offspring node has the fitter parent's id, type and function; a node present in both takes the selected bias, any other is copied unchanged |
| OrganismModel.OffspringNodesAt | python_neat/src/organism.py:52-65 | the i-th offspring node is built from the fitter parent's i-th node |
| OrganismModel.OffspringNodesSameIds | python_neat/src/organism.py:52-65 | offspring node ids are exactly the fitter parent's, in its order |
| OrganismModel.MatchingPair | python_neat/src/organism.py:68-73 | each matching pair is a connection of self and the first co-parent connection with its id |
| OrganismModel.MatchingCovers | python_neat/src/organism.py:68-69 | a connection of self is matched exactly when the co-parent has a connection with its id |
| OrganismModel.IsMatchedSpec | python_neat/src/organism.py:113 | an id counts as matched exactly when some matching pair has it |
| OrganismModel.CountIdSpec | python_neat/src/organism.py:94-99 | the count of nodes with an id is positive exactly when a node has it |
| OrganismModel.InheritedGaterSpec | python_neat/src/organism.py:85-106 | no gater from two gaterless parents; a lone gater only if the offspring has it; with two, the one present, or the drawn one if both are; failure only when two gaters are both absent |
| OrganismModel.MatchedGeneSpec | python_neat/src/organism.py:71-109 | a matching connection keeps its endpoints, takes the selected weight and the inherited gater, and is enabled exactly when enabled in both or re-enabled by a roll above `inherit_disable_chance` |
| OrganismModel.MatchedPrefixGene | python_neat/src/organism.py:71-109 | each offspring connection built so far is the matched gene of its pair |
| OrganismModel.MatchedPrefixFault | python_neat/src/organism.py:97-106 | the matching loop stops at the first pair whose gater cannot be inherited |
| OrganismModel.MatchedPrefixStops | python_neat/src/organism.py:71-109 | once a fault occurs, the later pairs change nothing |
| OrganismModel.DisjointGeneFrom | python_neat/src/organism.py:112-116 | every disjoint gene comes from an unmatched connection of the fitter parent |
| OrganismModel.DisjointGeneOf | python_neat/src/organism.py:112-116 | every unmatched connection of the fitter parent yields a disjoint gene |
| OrganismModel.MateResolves | python_neat/src/organism.py:44-119 | without a fault, every offspring connection's endpoints and gater name offspring nodes |
| OrganismModel.MateConnectionsAre | python_neat/src/organism.py:68-116 | offspring connections are the matching genes then the disjoint genes, with the registry's ids for their pairs |
| OrganismModel.MateMatchedConnection | python_neat/src/organism.py:71-109 | the k-th offspring connection is built from the k-th matching pair: endpoints, gater, selected weight and enable rule |
| OrganismModel.MateDisjointConnection | python_neat/src/organism.py:112-116 | every later offspring connection copies an unmatched connection of the fitter parent |
| OrganismModel.MateDisjointCopied | python_neat/src/organism.py:112-116 | every unmatched connection of the fitter parent is copied into the offspring |
| OrganismModel.MateConnectionIds | python_neat/src/organism.py:109-116 | the registry stays valid, old memo entries are kept, and each offspring connection's id is the memoised id of its pair |
| OrganismModel.AppendGene | python_neat/src/organism.py:109-116 | appends one gene as a connection with its registry id |
| OrganismModel.AddOffspringNodes | python_neat/src/organism.py:52-65 | adds the offspring nodes under their own ids, without touching the registry |
| OrganismModel.AddMatched | python_neat/src/organism.py:71-109 | the matching loop adds the matched genes and stops at the first fault |
| OrganismModel.AddMatchedGene | python_neat/src/organism.py:72-109 | one iteration of the matching loop |
| OrganismModel.AddDisjointGene | python_neat/src/organism.py:113-116 | one iteration of the disjoint loop: adds the connection only when its id is unmatched |
| OrganismModel.AddDisjoint | python_neat/src/organism.py:112-116 | the disjoint loop adds every unmatched connection of the fitter parent |
| OrganismModel.Organism.constructor | python_neat/src/organism.py:12-17 | a new organism with a given id has fitness -1 and species id -1 |
| OrganismModel.Organism.FromRegistry | python_neat/src/organism.py:12-19 | without a given id, the organism takes the registry's next organism id |
| OrganismModel.Organism.MateMultipoint | python_neat/src/organism.py:44-119 | the offspring's lists and the registry are those of the crossover specification, and it is compiled when no fault occurs |
| OrganismModel.Organism.ReproduceAlone | python_neat/src/organism.py:22-28 | asexual reproduction gives a fresh organism with the next id, species -1 and the parent's fitness |
| OrganismModel.Organism.MutatedClone | python_neat/src/organism.py:24-25 | a fresh valid genome, with this organism's genome left as it was; the operators run are a prefix of the rolled plan, all of it when nothing fails |
| OrganismModel.Organism.ReproduceWith | python_neat/src/organism.py:30-42 | sexual reproduction gives a fresh compiled organism with the crossover's lists, the next id and the fitter parent's fitness |
| OrganismModel.Organism.Reproduce | python_neat/src/organism.py:21-42 | dispatches on the co-parent; offspring fitness is the parent's, or the fitter parent's |
| OrganismModel.Organism.Clone | python_neat/src/organism.py:121-125 | the clone keeps id, fitness, species id and the genome's lists |
| GaterIdentity.ById | python_neat/src/genome.py:18-23 | a connection object read by node id keeps its id, weight, flag, endpoint ids and gater id |
| GaterIdentity.DisjointGeneAsWritten | python_neat/src/organism.py:112-116 | the offspring's copy of a disjoint gene has endpoints from the offspring and the parent's own gater object |
| GaterIdentity.DisjointGeneById | python_neat/src/organism.py:112-116 | read by id, that copy is the gene the model's crossover gives |
| GaterIdentity.ClearGaterAsWritten | python_neat/src/mutation_handler.py:155-157 | exactly the gaters that are the removed node object are cleared, nothing else changes |
| GaterIdentity.DetachedAsWritten | python_neat/src/mutation_handler.py:160-163 | exactly the connections whose endpoints are not the removed node object are kept |
| GaterIdentity.ClearGaterAsWrittenById | python_neat/src/mutation_handler.py:155-157 | when every gater belongs to the removed node's genome, clearing by identity is the model's clearing by id |
| GaterIdentity.ParentGaterSurvives | python_neat/src/mutation_handler.py:155-167 | a disjoint gene's gater from the other parent survives the offspring's removal of the node with its id, and then names no remaining node |
| GaterIdentity.ParentGaterKeyError | python_neat/src/genome.py:63-67 | in a three-node example the surviving gater names a removed node, while the clearing by id leaves every reference resolved |
| PopulationModel.Trunc | python_neat/src/population.py:85 | Python's `int()` truncation toward zero |
| PopulationModel.InsertBySorted | python_neat/src/population.py:65-69 | inserting into a list sorted by descending key keeps it sorted |
| PopulationModel.SortBy | python_neat/src/population.py:65-69 | a sort by descending key is a permutation and is sorted |
| PopulationModel.SortByFitness | python_neat/src/population.py:65-69 | sorting by fitness, descending, permutes the organisms |
| PopulationModel.SortedPrefixFittest | python_neat/src/population.py:67-68 | every organism in a sorted prefix is at least as fit as any organism left out |
| PopulationModel.Members | python_neat/src/population.py:65-69 | the organisms of (or not of) a species |
| PopulationModel.MembersCount | python_neat/src/population.py:65-69 | the filter keeps every copy of a member and no copy of anything else |
| PopulationModel.MembersInhabited | python_neat/src/population.py:66 | a species has members exactly when some organism carries its id |
| PopulationModel.SpeciesTopN | python_neat/src/population.py:65-69 | at most n members of the species, sorted by descending fitness, all of them when fewer than n |
| PopulationModel.SpeciesTopNFittest | python_neat/src/population.py:65-69 | every member left out is no fitter than any member returned |
| PopulationModel.SpeciesChampionFittest | python_neat/src/population.py:65-69 | the species champion is at least as fit as every member |
| PopulationModel.FittestIndex | python_neat/src/population.py:71-72 | the first position of maximal fitness |
| PopulationModel.Superchamp | python_neat/src/population.py:71-72 | no result exactly for an empty population; otherwise the first organism of maximal fitness |
| PopulationModel.SpeciesChampions | python_neat/src/population.py:74-75 | one champion per species id, each an organism of that species |
| PopulationModel.SpeciesChampionsDefined | python_neat/src/population.py:74-75 | champions exist exactly when every listed species has a member (`[0]` of an empty list raises) |
| PopulationModel.SpeciesChampionsFittest | python_neat/src/population.py:74-75 | each champion is at least as fit as every member of its species |
| PopulationModel.NDiffSpeciesChamps | python_neat/src/population.py:74-77 | min(n, species) champions, sorted by descending fitness, each from a listed species |
| PopulationModel.NDiffSpeciesChampsFittest | python_neat/src/population.py:74-77 | each returned champion is at least as fit as every member of its species |
| PopulationModel.NDiffSpeciesChampsTop | python_neat/src/population.py:76-77 | a champion that was cut is no fitter than any champion kept |
| PopulationModel.NDiffSpeciesChampsDistinct | python_neat/src/population.py:74-77 | with distinct species ids, the returned champions come from distinct species |
| PopulationModel.FirstMatch | python_neat/src/population.py:103-109 | the first representative within the threshold, rejecting all before it, or none |
| PopulationModel.SpeciateOne | python_neat/src/population.py:102-114 | an organism joins the first representative's species within the threshold; otherwise it gets a fresh id and becomes a representative; no other label changes |
| PopulationModel.SpeciateAll | python_neat/src/population.py:102-114 | speciating a list only appends representatives from the list, each with a fresh id, and leaves the labels of organisms outside it |
| PopulationModel.SpeciateFreshId | python_neat/src/population.py:111-114 | the k-th new representative gets species id next + k |
| PopulationModel.SpeciesLabels | python_neat/src/population.py:120 | each organism's species id, in list order |
| PopulationModel.SpeciesIdsOf | python_neat/src/population.py:117-123 | each organism's species id exactly once and nothing else |
| PopulationModel.Represented | python_neat/src/population.py:126 | exactly the representatives whose species survives |
| PopulationModel.AdaptThreshold | python_neat/src/population.py:129-136 | fewer species than the target lowers the threshold by the modifier, more raises it, equal keeps it, and it never ends below the modifier |
| PopulationModel.EliteCount | python_neat/src/population.py:85-91 | keep 0 of none, 1 of one, and max(int(n · pct), 2) of two or more |
| PopulationModel.Ranked | python_neat/src/population.py:81-82 | the species' members sorted by fitness, as a permutation of them |
| PopulationModel.EliteSize | python_neat/src/population.py:85-91 | the number kept never exceeds the species' size |
| PopulationModel.Culled | python_neat/src/population.py:94 | the members to remove are all of that species and drawn from the population |
| PopulationModel.RemoveEach | python_neat/src/population.py:94-95 | removing each culled organism's first occurrence takes exactly those copies out |
| PopulationModel.EliminateKeepsOthers | python_neat/src/population.py:79-95 | culling leaves every other species' organisms as they were |
| PopulationModel.EliminateKeepsElite | python_neat/src/population.py:79-95 | culling leaves exactly the elite of the species |
| PopulationModel.Population.constructor | python_neat/src/population.py:14-37 | keeps the given organisms and settings and speciates them from no representatives, species counter 0 and the initial threshold: labels, counter, species ids and representatives are those of `SpeciateAll` on that start, the threshold adapted once from the initial one; species ids distinct, each organism's id listed, each listed id inhabited |
| PopulationModel.Population.GetNextSpeciesId | python_neat/src/population.py:138-141 | returns the old species counter and advances it by exactly one |
| PopulationModel.Population.Start | python_neat/src/population.py:102 | the speciation record of the current labels, representatives and counter |
| PopulationModel.Population.JoinSpecies | python_neat/src/population.py:107 | the organism takes the representative's species id |
| PopulationModel.Population.FoundSpecies | python_neat/src/population.py:111-114 | the organism gets the next species id and becomes a representative |
| PopulationModel.Population.SpeciateOrganism | python_neat/src/population.py:103-114 | one organism is speciated as the specification says |
| PopulationModel.Population.AssignSpecies | python_neat/src/population.py:102-114 | the loop over the organisms speciates them all, in order |
| PopulationModel.Population.Regroup | python_neat/src/population.py:117-136 | rebuilds the species ids, drops dead representatives and adapts the threshold |
| PopulationModel.Population.Speciate | python_neat/src/population.py:101-136 | the whole `speciate`: labels as specified, species ids distinct and exactly the organisms' ids, surviving representatives' ids listed, threshold adapted |
| PopulationModel.Population.SpeciesIdsFacts | python_neat/src/population.py:117-123 | the rebuilt species ids are distinct and are exactly the organisms' ids |
| PopulationModel.Population.RemoveOrganism | python_neat/src/population.py:95 | `list.remove` takes out the first occurrence only |
| PopulationModel.Population.RemoveAll | python_neat/src/population.py:94-95 | the removal loop takes out each doomed organism once |
| PopulationModel.Population.EliminateSpeciesWeakest | python_neat/src/population.py:79-95 | removes exactly the culled members of the species and nothing else |
| PopulationModel.HallPicks | python_neat/src/population.py:48-51 | h entries, the i-th the hall-of-fame member chosen by draw i |
| PopulationModel.Fill | python_neat/src/population.py:54-61 | the fill loop: fails on an empty population exactly when places are left, fails with out-of-draws whenever fewer draws remain than places, and on success extends the chosen list to the total with population members |
| PopulationModel.FillDistinct | python_neat/src/population.py:56-59 | every organism the fill appends has an organism id different from all chosen before it |
| PopulationModel.FillMoreDraws | python_neat/src/population.py:54-61 | a fill that succeeds is unchanged by further draws: it never consumes more than it needs |
| PopulationModel.ChallengersAfter | python_neat/src/population.py:44-63 | never a missing champion; empty-population failure only with no organisms; out-of-draws when the hall-of-fame picks lack draws |
| PopulationModel.ChallengersAfterList | python_neat/src/population.py:44-63 | a successful selection is champions, then the drawn hall-of-fame members, then organisms with new ids, to exactly the target count |
| PopulationModel.Population.PickHallOfFame | python_neat/src/population.py:48-51 | the drawn hall-of-fame entries of `HallPicks`, or failure exactly when the draws run out |
| PopulationModel.Population.FillRandom | python_neat/src/population.py:54-61 | the loop returns exactly what `Fill` specifies, failures included |
| PopulationModel.Population.AddChallengers | python_neat/src/population.py:44-63 | exactly `ChallengersAfter` (failures included), and a challenger list on success |
| PopulationModel.Population.SelectChallengers | python_neat/src/population.py:39-63 | fails with a missing champion exactly when a species has no champion; otherwise exactly `ChallengersAfter` on the champions, a challenger list on success |
| JsonConverter.GenomeToJson | python_neat/src/json_converter.py:6-35 | one record per node and per connection, in order, carrying every field |
| JsonConverter.LoadNodes | python_neat/src/json_converter.py:42-48 | nodes are recreated from their records with the stored ids, in order |
| JsonConverter.LoadConnection | python_neat/src/json_converter.py:51-67 | loading fails exactly when an endpoint id is unknown; otherwise it keeps id, weight, endpoints and flag, and an unknown gater becomes none |
| JsonConverter.LoadConnections | python_neat/src/json_converter.py:51-67 | all records load exactly when each does, one connection per record |
| JsonConverter.LoadConnectionsFirstError | python_neat/src/json_converter.py:60-62 | the error reported is that of the first record that fails |
| JsonConverter.Load | python_neat/src/json_converter.py:38-71 | a successful load resolves every connection and has an activation order |
| JsonConverter.JsonToGenome | python_neat/src/json_converter.py:38-71 | succeeds exactly when the load does, yielding a compiled genome with the loaded lists and no registry change |
| JsonConverter.AddNodeRecords | python_neat/src/json_converter.py:42-48 | the node loop adds the loaded nodes without drawing registry ids |
| JsonConverter.AddConnectionRecords | python_neat/src/json_converter.py:51-67 | the connection loop adds the loaded connections or stops at the first failure |
| JsonConverter.AddConnectionRecord | python_neat/src/json_converter.py:52-67 | one record is loaded and appended, or the genome is left unchanged |
| JsonConverter.ConnectionsRoundTrip | python_neat/src/json_converter.py:24-67 | loading the records of resolving connections gives them back |
| JsonConverter.RoundTrip | python_neat/src/json_converter.py:6-71 | loading the records of a genome reproduces its node and connection lists field for field, or fails with the ordering error |
| ChessUtil.DigitsInjective | python_neat/src/game_controller.py:141 | the conversion of a bit string to one 1.0 or 0.0 per character loses nothing: equal vectors come from equal strings |
| ChessUtil.EncodePiece | python_neat/src/chess_util.py:25-36 | four bits, the first '1' exactly for a white piece |
| ChessUtil.EncodeSquare | python_neat/src/chess_util.py:15-19 | four bits per square; an empty square is "0000" |
| ChessUtil.EncodeSquareInjective | python_neat/src/chess_util.py:15-36 | distinct squares get distinct codes |
| ChessUtil.BoardBitsAreBits | python_neat/src/chess_util.py:12-22 | the board string consists of bits |
| ChessUtil.BoardChunk | python_neat/src/chess_util.py:15-19 | characters 4i .. 4i+3 encode square i |
| ChessUtil.BoardToBinary | python_neat/src/chess_util.py:12-22 | the loop builds the board string, which is 256 characters long |
| ChessUtil.Bits4 | python_neat/src/chess_util.py:45-48 | `format(n, '04b')`: four bits whose value is n |
| ChessUtil.MoveToBinary | python_neat/src/chess_util.py:39-77 | 28 bits |
| ChessUtil.MoveFields | python_neat/src/chess_util.py:39-77 | the fields are origin file, origin rank, destination file and destination rank; then the capture, en-passant, promotion and castling flags; then the captured colour (opposite to the mover, on a capture) and code, and the promotion colour (the mover, on a promotion) and code |
| ChessUtil.DecodedSquares | python_neat/src/chess_util.py:95-111 | 64 decoded squares |
| ChessUtil.RowAt | python_neat/src/chess_util.py:114 | a rank's line is its 8 symbols separated by single spaces |
| ChessUtil.PictureAt | python_neat/src/chess_util.py:110-114 | the picture is 8 lines, rank 8 first, joined by newlines |
| ChessUtil.BinaryBoardToAsciiBoard | python_neat/src/chess_util.py:80-115 | a string too short for 64 chunks raises; otherwise the result is the picture of the decoded squares |
| ChessUtil.DecodeSquare | python_neat/src/chess_util.py:85-107 | decoding a square's code gives its symbol: the lower-case letter, upper-cased for white, '.' when empty |
| ChessUtil.DecodeBoardSquare | python_neat/src/chess_util.py:95-111 | decoding the board string gives each square's symbol |
| ChessUtil.EncodedBoardPicture | python_neat/src/chess_util.py:136-142 | decoding the encoding of a board reproduces the board's printed picture |
| GameController.ScoresToInt | python_neat/src/game_controller.py:54-63 | -1, 0 or 1: 0 exactly when the scores are within 0.0001; 1 exactly when the first is bigger (or smaller, with the flag off) |
| GameController.ScoresToIntSymmetry | python_neat/src/game_controller.py:54-63 | swapping the scores negates the result, and the flag swaps the arguments |
| GameController.FirstArgMax | python_neat/src/game_controller.py:98-108 | the first index with the strictly greatest output above -10000000, none exactly when no output exceeds it |
| GameController.FirstArgMaxUnique | python_neat/src/game_controller.py:98-108 | that index is unique |
| GameController.GetPlayerBestMove | python_neat/src/game_controller.py:92-123 | returns the first argmax and its post-activation state; afterwards activations are that state when applying the best, else the snapshot |
| GameController.StreakStops | python_neat/src/game_controller.py:200-208 | counting correct picks stops at the first wrong one |
| GameController.PuzzleScoreBounds | python_neat/src/game_controller.py:210-212 | a puzzle scores between 0 and its difficulty |
| GameController.TotalScoreStep | python_neat/src/game_controller.py:196-212 | each puzzle adds (correct / decisions) · difficulty, and a puzzle without decisions divides by zero |
| GameController.TotalScoreFails | python_neat/src/game_controller.py:210-211 | one puzzle without decisions fails the whole score |
| GameController.TotalScoreBounds | python_neat/src/game_controller.py:196-213 | the score fails exactly when a puzzle has no decisions, and otherwise lies between 0 and the sum of difficulties |
| GameController.PlayChessPuzzlesSingleplayer | python_neat/src/game_controller.py:189-213 | returns the organism id and the total score, and leaves the state reset |
| GameController.PlayPuzzles | python_neat/src/game_controller.py:193-212 | the puzzle loop computes the total score from the reset state |
| GameController.PlayOne | python_neat/src/game_controller.py:197-212 | one puzzle's share of the score, with the state reset afterwards |
| GameController.PlayPuzzle | python_neat/src/game_controller.py:198-208 | the number of correct picks up to the first wrong one, after the initial activation |
| GameController.MoveInput | python_neat/src/game_controller.py:140-141 | each per-move input has 284 values |
| GameController.GetModelInputArrsFromBoard | python_neat/src/game_controller.py:135-143 | one input per legal move, in order, each the board bits then that move's bits |
| GameController.InitialInputFlipsFirst | python_neat/src/game_controller.py:161-165 | the initial input is the board bits with the first bit inverted, then 28 zeros |
| GameController.IndexOf | python_neat/src/game_controller.py:177 | the first position of the correct move among the legal moves |
| GameController.DecisionAtIs | python_neat/src/game_controller.py:172-178 | a decision holds each legal move's input and the index of the puzzle's move |
| GameController.DecisionsStep | python_neat/src/game_controller.py:170-182 | a decision is recorded before each move at an odd index, and none at even indices |
| GameController.PuzzleStep | python_neat/src/game_controller.py:170-182 | one move of the loop fails exactly when the move is illegal, and otherwise extends the decisions |
| GameController.DecisionsComplete | python_neat/src/game_controller.py:169-184 | after all moves, the decisions are exactly those before the odd-indexed moves |
| GameController.RowPuzzleIsPuzzleOf | python_neat/src/game_controller.py:153-184 | the constructed puzzle is the only one that fits the row's description, and exists exactly when every move is legal |
| GameController.PuzzleInputs | python_neat/src/game_controller.py:153-184 | builds a row's puzzle exactly when all its moves are legal |
| GameController.GetChessPuzzlesInputs | python_neat/src/game_controller.py:146-186 | the first `num_puzzles_per_game` rows become puzzles, one each, failing exactly when one has an illegal move |
| Fitness.PutValid | python_neat/src/fitness.py:64 | storing a key keeps the dict's insertion order consistent with its entries |
| Fitness.EvaluateFitnessSync | python_neat/src/fitness.py:53-67 | the nested loops compute the specified result table |
| Fitness.PlayBoth | python_neat/src/fitness.py:57-64 | one challenger adds its two games, host white first |
| Fitness.GamesValid | python_neat/src/fitness.py:56-64 | the result table is a consistent dict |
| Fitness.GamesKeys | python_neat/src/fitness.py:56-64 | the keys are exactly (host id, challenger id, w) for every challenger and both colours |
| Fitness.GamesValue | python_neat/src/fitness.py:59-64 | each key holds the precalculated result when present in a non-empty table, else the played game (the last challenger with that id wins) |
| Fitness.PrecalcOnly | python_neat/src/fitness.py:60-61 | with every key precalculated, no game is played and every value is the precalculated one |
| Fitness.ScheduleAt | python_neat/src/fitness.py:57-59 | for each challenger, the first game has the host white, the second black |
| Fitness.GamesSize | python_neat/src/fitness.py:56-64 | at most 2 · challengers entries |
| Fitness.GamesOrder | python_neat/src/fitness.py:56-64 | with distinct challenger ids, exactly 2 · challengers entries, in play order |
| UciBotTester.NullMoveInputLayout | python_neat/src/uci_bot_tester.py:11-17 | 284 values: the board bits, then 28 zeros |
| UciBotTester.NullMoveVersusInitial | python_neat/src/uci_bot_tester.py:11-17 | the null-move input differs from the puzzle's initial input only in the first bit |
| UciBotTester.ArgMin | python_neat/src/uci_bot_tester.py:21 | a position of a minimal value |
| UciBotTester.ArgMax | python_neat/src/uci_bot_tester.py:22 | a position of a maximal value |
| UciBotTester.ScaleBounds | python_neat/src/uci_bot_tester.py:23 | scaling maps min to -1, max to 1, and the rest into [-1, 1] |
| UciBotTester.ScaleMonotone | python_neat/src/uci_bot_tester.py:23 | scaling preserves strict order |
| UciBotTester.MinMaxScale | python_neat/src/uci_bot_tester.py:20-24 | no result exactly on an empty dict (where `min` raises) or equal values (where the source's division yields NaN); otherwise keeps the keys in order |
| UciBotTester.MinMaxScaleBounds | python_neat/src/uci_bot_tester.py:20-24 | every scaled value lies in [-1, 1]; the minimum maps to -1 and the maximum to 1 |
| UciBotTester.MinMaxScaleOrder | python_neat/src/uci_bot_tester.py:23 | a smaller value gets exactly a smaller scaled value |
| UciBotTester.JoinSplit | python_neat/src/uci_bot_tester.py:57-60 | joining the split tokens gives back the command |
| UciBotTester.SplitJoin | python_neat/src/uci_bot_tester.py:57-60 | splitting joined space-free tokens gives them back |
| UciBotTester.FenEnd | python_neat/src/uci_bot_tester.py:58-60 | the FEN tokens run up to the first 'moves' after 'fen' |
| UciBotTester.FenCommandIndices | python_neat/src/uci_bot_tester.py:58-67 | in a `position fen … moves …` command, 'fen' is token 1 and 'moves' follows the FEN fields |
| UciBotTester.FenSwallowsMoves | python_neat/src/uci_bot_tester.py:58-61 | as written, the FEN handed to `set_fen` contains 'moves' and the moves |
| UciBotTester.FenSwallowsMovesExample | python_neat/src/uci_bot_tester.py:58-61 | for the start position plus `moves e2e4`, the FEN as written has 8 fields instead of 6 |
| UciBotTester.ParsePositionFen | python_neat/src/uci_bot_tester.py:58-68 | the corrected parse sets up exactly the FEN fields and replays exactly the moves |
| UciBotTester.ParsePositionStartpos | python_neat/src/uci_bot_tester.py:62-68 | `position startpos moves …` resets and replays exactly the moves |
| UciBotTester.Replay | python_neat/src/uci_bot_tester.py:66-78 | replaying pushes exactly the moves onto the board |
| UciBotTester.UciInteractionBot.constructor | python_neat/src/uci_bot_tester.py:27-30 | a new bot is on the starting board with the player's colour unknown |
| UciBotTester.UciInteractionBot.Position | python_neat/src/uci_bot_tester.py:56-78 | with the corrected parse (the FEN ends at 'moves', see Findings): sets up the board (resetting the genome's state on 'startpos') and replays the moves, activating before each one as the source does |
| UciBotTester.UciInteractionBot.ReplayMoves | python_neat/src/uci_bot_tester.py:66-78 | the move loop updates board and activations as the replay specification says |
| NonminimalStructure.CreateStructure | python_neat/src/create_chessbot_nonminimal_structure.py:11-168 | the generated genome is the whole layout: 359 node records with ids 0 .. 358 and their types (inputs with the identity and bias 0, the output tanh), and 358 enabled connections with ids 1 .. 358 wired as the script wires them, every weight and bias in [-1, 1] |
| NonminimalStructure.InputNodes | python_neat/src/create_chessbot_nonminimal_structure.py:17-23 | the first 285 records are input nodes 0 .. 284 with the identity and bias 0 |
| NonminimalStructure.FirstLayer | python_neat/src/create_chessbot_nonminimal_structure.py:58-75 | appends hidden nodes 287 .. 350 and connections 3 .. 258, node 287 + g fed by inputs 1 + 4g .. 4 + 4g with the first of each group gated by node 286 |
| NonminimalStructure.AggregatorLayer | python_neat/src/create_chessbot_nonminimal_structure.py:78-103 | appends node 351 and connections 259 .. 323: each first-layer node feeds node 351, which feeds the output |
| NonminimalStructure.SecondLayer | python_neat/src/create_chessbot_nonminimal_structure.py:106-133 | appends nodes 352 .. 356 and connections 324 .. 348: node 352 + g fed by inputs 257 + 4g .. 260 + 4g, each feeding the output |
| NonminimalStructure.ThirdLayer | python_neat/src/create_chessbot_nonminimal_structure.py:136-163 | appends nodes 357 and 358 and connections 349 .. 358: fed by inputs 277 .. 284 in two groups of four, first and last input gated, each feeding the output |
| NonminimalStructure.WiringInRange | python_neat/src/create_chessbot_nonminimal_structure.py:34-163 | every connection starts at a generated node other than the output, ends at a non-input node, and is gated, if at all, by node 286 |
| NonminimalStructure.GatedInputs | python_neat/src/create_chessbot_nonminimal_structure.py:59-150 | node 286 gates exactly the first input of each group of four in 1 .. 256, and inputs 277, 280, 281 and 284 |
| NonminimalStructure.AggregatorFed | python_neat/src/create_chessbot_nonminimal_structure.py:84-92 | every first-layer node feeds the aggregator |
| NonminimalStructure.GeneratedLoads | python_neat/src/create_chessbot_nonminimal_structure.py:34-163 | the generated records load without error, and every gater survives the load |
| NonminimalStructure.GeneratedIds | python_neat/src/create_chessbot_nonminimal_structure.py:17-163 | node ids are unique, and connection k has id k + 1 |

## Left out

- Floating point: weights, biases and activations are `real`. `round(…, 3)` is not
  applied. NaN checks (`python_neat/src/game_controller.py:43-44`) and torch device moves
  are not modelled.
- Activation functions: sigmoid, tanh and relu are one uninterpreted `apply` parameter.
  The enum values of `NodeType` and `ActivationFunction` are not part of this model; a
  fixed list of functions stands in for them.
- Randomness: every `random.random()`, `uniform` and `choice` is an oracle parameter. An
  unbounded re-draw loop reads a finite draw list and reports `OutOfDraws` when it runs
  out. The source would keep drawing.
- Python `set` iteration order: the ordering loop scans the remaining nodes in node-list
  order. `nx.topological_sort` is modelled by the same pass algorithm, so it yields some
  topological order of the input subgraph, not necessarily networkx's.
- `determine_activation_order` never returns when a pass places no node. The model
  reports `Stalled` instead; `StallLeavesCycle` says why.
- `Genome.clone`, `genetic_difference`, `Genome()` with its filled initial genome, and
  `fill_genome` are not part of this model. `genetic_difference` is a parameter of
  speciation, and the clone copies the lists.
- `Population.select_and_reproduce` is an empty stub.
- The population's initial filling with ten mutations per organism is not modelled.
- `Population.constructor` takes already-built organisms.
- The population's pure functions read fitness and species ids through a snapshot
  (`ViewOf`) taken when they are called.
- Library calls: python-chess answers come in as data.
  - `MoveFacts` carries the UCI string, capture, en-passant, promotion, castling, the
    captured piece and the side to move.
  - The `Chess` oracle of `uci_bot_tester.dfy` supplies squares, side to move and move
    inputs.
  - A puzzle row supplies its positions and legal moves.
  - FEN parsing and `set_fen` validity are not modelled.
- `STARTING_POSITION_INPUT_TENSOR` is not used by the core and is not modelled.
- `get_player_best_move`'s `calculate_full_preference` branch and `get_move` are not
  modelled. They depend on `analyze_full_input_arr`, which is not part of this model.
- The UCI loop's `uci`, `isready`, `go` and `quit` commands are console I/O and are not
  modelled; only `position` is.
- File and console I/O are not modelled: JSON files, the structure script's file write,
  stdin/stdout and timing prints.
- `Constants` values are parameters, for example `num_puzzles_per_game` and the mutation
  settings.
- Concurrency (process pools in `main.py`) and the commented-out fitness code are not
  modelled.
- `visualize.py`, `move_evaluation_gui.py`, `main.py` and `dataset_manager.py` are not
  part of this model.
- NonminimalStructure.CreateStructure: states that every weight and non-input bias lies
  in [-1, 1], but not which draw of the random stream each one is.
- GenomeModel.Genome.ResetState: states the new activations only. That the genome stays
  compiled follows from the frame (`modifies this`activations`) rather than an `ensures`.
- The generated non-minimal genome has 285 input nodes, while every model input in the
  puzzle and UCI code has 284 values. `Activate` on such a genome therefore takes its
  failure branch. The model records both sizes and does not reconcile them.
- Mutation.ClearGater: compares gaters by node id. The source compares node objects, which
  misses a gater that crossover copied from the other parent (Findings,
  `GaterIdentity.ParentGaterKeyError`). Outside `gater_identity.dfy` the model names nodes
  by id, so the sharing of node objects between parent and offspring is not modelled.
- Mutation.MutateRemoveNode: works per node id, while `mutate_remove_node` compares node
  objects (`python_neat/src/mutation_handler.py:120-136`, `160-161`). A genome can hold
  two nodes with one id. For example: split 0→1, which creates node 2; split 0→2, which
  creates node 3; add 3→1; remove node 3, which re-enables 0→1; split 0→1 again, and the
  registry's memo gives id 2 a second time. When one of the two nodes with id 2 is
  removed, the source drops only that object's connections and keeps its twin's. The
  model drops every connection at id 2, bridges the twin's neighbours too, and clears
  the twin's gates.
- Mutation.RemoveNodeAt: the same per-id rewiring as `MutateRemoveNode`. With two nodes of
  the removed id, it differs from the source's per-object removal.
- Mutation.Neighbours: collects sources, targets and gaters by id. With two nodes of the
  removed id, it also collects the twin's edges, which the source leaves out.
- Mutation.Between: matches endpoints by id, where the source compares node objects. With
  twins it also finds connections of the other node.
- Mutation.Detached: keeps the connections that touch neither endpoint id. The source keeps
  every connection that does not touch the removed node object, including a twin's.
- Mutation.CountDegrees: one counter per node id, while `find_cons_for_removal`
  (`python_neat/src/mutation_handler.py:171-182`) keys its counters on node objects. Two
  nodes with one id share a counter here.
- Mutation.DegreeMap: the per-id counters of `CountDegrees`, with the same difference.
- Mutation.RemovableFrom: tests degrees pooled per id. With twins it can accept or reject a
  connection that the source's per-object counts decide the other way.
- Mutation.FindConsForRemoval: the per-id counts of `CountDegrees`. It agrees with the
  source whenever node ids are distinct within the genome.
- UciBotTester.UciInteractionBot.Position: uses the corrected `ParsePosition`, whose FEN
  stops at 'moves'. The source passes every token after 'fen' to `set_fen`
  (`FenSwallowsMoves` under Findings); what `set_fen` then does with such a string is
  not modelled.
- UciBotTester.MinMaxScale: the equal-values case is `None`. The source does not raise
  there: its tensor division gives NaN for every key, which `real` cannot express.
- PopulationModel.SpeciesIdsOf: lists the species ids in first-occurrence order. The
  source builds them with `list(set(...))` (`python_neat/src/population.py:120`), whose
  order is Python's set order. That order decides which of two equally fit champions
  `SpeciesChampions` and `NDiffSpeciesChamps` list first.
- `Net`: the members that take a `net` (`GameController.Outputs`, `BestState`,
  `GetPlayerBestMove`, `Streak`, `StreakStops`, `PuzzleScore`, `PuzzleScoreBounds`,
  `TotalScore`, `TotalScoreStep`, `TotalScoreFails`, `TotalScoreBounds`,
  `PlayChessPuzzlesSingleplayer`, `PlayPuzzles`, `PlayOne` and `PlayPuzzle`;
  `UciBotTester.Replay`,
  `UciInteractionBot.Position` and `UciInteractionBot.ReplayMoves`) use an arbitrary
  function from activations and an input to outputs and new activations. It stands for
  `Genome.activate` but is not tied to `GenomeModel` `Activate`, nor to its failure on
  an input of the wrong size (`python_neat/src/genome.py:121-124`).
- `select_challengers`'s random fill (`python_neat/src/population.py:54-60`) never ends
  when fewer distinct organism ids remain than places to fill. `Fill` reports
  `OutOfDraws` once its draws run out, which covers that case too.
- Mutation.MutateGenome: a fault inside one operator ends the call with that fault. As in
  the source, the edits made before it remain; the model states only that the operators
  run so far are a prefix of the plan, not what the genome holds afterwards.
- Mutation.MutateGroup: the same as `MutateGenome`, for the group of optional operators.
- OrganismModel.Organism.MutatedClone: the same as `MutateGenome`: on a fault the clone
  keeps the earlier operators' edits, and the model states only the prefix of the plan.
- OrganismModel.Organism.Reproduce: without a co-parent, a mutation fault becomes a
  `MutationFault` failure; the prefix of operators run is not part of its result.

## Findings

| source | as written | input that shows it | evidently intended | confidence | as-written member | corrected member |
|---|---|---|---|---|---|---|
| python_neat/src/uci_bot_tester.py:58-61 | the FEN is every token after 'fen', joined by spaces, so with a `moves` part the FEN also contains 'moves' and the moves | `position fen rnbqkbnr/pppppppp/8/8/8/8/PPPPPPPP/RNBQKBNR w KQkq - 0 1 moves e2e4` gives `set_fen` a string of 8 fields | the FEN is the tokens between 'fen' and 'moves' (the UCI protocol's `position fen <fenstring> moves …`) | not executed | UciBotTester.FenSwallowsMoves | UciBotTester.ParsePositionFen |
| python_neat/src/mutation_handler.py:155-157 | a gater is cleared only when it is the removed node object, but a disjoint gene copied by crossover (`python_neat/src/organism.py:116`) keeps the fitter parent's gater object, so removing the offspring's node with that id leaves the gater, and `create_phenotype` then looks up a missing id (`python_neat/src/genome.py:63-67`) | parent connection 0 -> 1 gated by its node 2, copied as a disjoint gene into an offspring with nodes 0, 1, 2; `mutate_remove_node` then removes the offspring's node 2 | the gater is cleared whenever its node id is the removed node's id | not executed | GaterIdentity.ParentGaterKeyError | Mutation.DetachedResolve |
