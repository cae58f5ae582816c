# Ecosystem simulation core, modelled in Dafny

This project models the discrete core of an agent-based ecosystem simulation, in which creatures of eight species flock, flee predators and chase prey:

- **Agent registries.** Three ways of keeping the live agents in fixed arrays:
  - `AgentsData`: a compacted prefix, with a LIFO free list of ids.
  - `SharedMemoryManager`: an active mask, never compacted, with ids that are never reused.
  - A structured shared buffer handled with batch add, remove and update.
- **Force kernels.** Three kernels compute flocking and predator/prey forces:
  - the numba kernel: distance matrix, separation, cohesion, environment forces, predator/prey and the final magnitude clamp;
  - the C++ predator/prey kernel;
  - the per-species numba kernel.

  The numba and C++ kernels select the nearest candidate by a strict-`<` scan; the per-species kernel takes `np.argmin` over the index-ordered filtered candidates. The model proves that the scan picks the lowest-index nearest candidate and that the filtered arg-min picks the same agent.
- **Small stateful containers.**
  - `DelayedQueue`: a clocked FIFO.
  - `FlameBuffer`: a bounded deque of interpolated position frames.
  - Two trait tables with a GLOBAL fallback: `DNAManager` with its lookup cache, and `ConfigManager` with its per-species records.

The model has one module per source file, plus shared modules:

- `Common`: Option, Result and the Python exceptions.
- `Geometry`: plane vectors over the reals.
- `Nearest`: the selection scan and its reference meaning.
- `TraitValues`: trait values and text parsing.

Stateful classes are Dafny classes:

- Each class has a ghost `State()` that returns a value.
- Each method's postcondition ties the new state to a specification function of the old state.
- The properties are proved as lemmas about those functions.

Every modelled method or function with a contract is listed in the table below.

## Model

| member | source | states |
|---|---|---|
| Common.FirstIndexOf | agents_data.py:61-63 | first position of a value in a sequence, -1 exactly when it is absent |
| Common.PyIndex | TEST/multi_processinng_test2/multi-threading-simulation.py:21-22 | Python subscript: negative indices count from the end, out-of-range ones are rejected (-1) |
| Common.Where | TEST/multi_processinng_test2/multi-threading-simulation.py:45 | `np.where(mask)[0]`: exactly the set indices, strictly increasing |
| Common.WhereNone | TEST/multi_processinng_test2/multi-threading-simulation.py:45 | an all-clear mask selects nothing |
| Geometry.AddPair | keep/predator_prey.cpp:69-70 | a NaN operand poisons the sum; otherwise componentwise addition |
| Geometry.Distance | numba_simulation.py:10-12 | distances are non-negative and zero exactly for equal positions |
| Geometry.DistanceSymmetric | numba_simulation.py:10-12 | distance is the same in both directions |
| Geometry.ScaleShrinks | numba_simulation.py:25-26 | a scale in [0, 1] never lengthens a vector |
| Nearest.Scan | numba_simulation.py:86-94 | the running best of a strict-`<` scan is a candidate at its recorded distance, or none with the initial bound |
| Nearest.ScanIsNearest | numba_simulation.py:81-90 | from an infinite bound the scan returns the lowest-index candidate of least distance, or -1 when there is no candidate |
| Nearest.NearestIsUnique | numba_simulation.py:81-90 | two selections meeting the "nearest" definition agree |
| Nearest.MaskBelow | keep/predator_prey.cpp:42-55 | candidates strictly below a limit, both directions |
| Nearest.FiniteScanIsMaskedScan | keep/predator_prey.cpp:42-55 | a scan from the `FLT_MAX` sentinel equals an unbounded scan over candidates below the sentinel |
| Nearest.ArgMin | predator_prey_force_numba.py:27 | `np.argmin`: a least element, strictly less than every earlier one |
| Nearest.FilteredArgMin | predator_prey_force_numba.py:25-27 | `close[np.argmin(dists[dists < limit])]`: the candidates filtered in index order, their distances' arg-min mapped back to an agent index, or -1 when none is close; FilteredArgMinIsNearest identifies it |
| Nearest.FilteredArgMinIsNearest | predator_prey_force_numba.py:25-27 | arg-min over the index-ordered filtered candidates picks the same agent as the strict-`<` scan, the nearest one |
| NumbaSimulation.CalculateDistances | numba_simulation.py:14-20 | an n-by-n matrix of pairwise distances with a zero diagonal |
| NumbaSimulation.DistancesSymmetric | numba_simulation.py:14-20 | the distance matrix is symmetric |
| NumbaSimulation.ClampScale | numba_simulation.py:25 | the clamp factor is at most 1, non-negative for a non-negative maximum, exactly 1 when the vector is already short enough, and scales the vector's length to at most the maximum |
| NumbaSimulation.LimitMagnitude | numba_simulation.py:22-26 | each vector is scaled by its own factor; with a non-negative maximum no vector is longer than the maximum and none grows, and short vectors are unchanged |
| NumbaSimulation.ClampedLength | numba_simulation.py:22-26 | a clamped vector has length `max_magnitude * norm(v) / (norm(v) + 1e-5)` when the cap is below `norm(v) + 1e-5` and `norm(v)` otherwise, so with a non-negative cap it is never longer than the cap |
| NumbaSimulation.InRange | numba_simulation.py:35 | the neighbour mask is exactly `0 < dist < limit` |
| NumbaSimulation.Neighbours | numba_simulation.py:34-35 | exactly the qualifying neighbours |
| NumbaSimulation.SelfIsNeverNeighbour | numba_simulation.py:35 | the agent itself, and any agent at its position, never qualifies as a neighbour |
| NumbaSimulation.NoNeighbours | numba_simulation.py:34-35 | with nobody in range the neighbour list is empty |
| NumbaSimulation.SeparationOf | numba_simulation.py:32-39 | the inner loop for agent i computes the separation force `SeparationAt`: the sum of `diff / (dist + 1e-5)`, weighted when some neighbour counted |
| NumbaSimulation.Separation | numba_simulation.py:28-40 | one separation force per agent, from its own row |
| NumbaSimulation.SeparationZeroWhenIsolated | numba_simulation.py:34-39 | no neighbour inside the separation distance means zero separation |
| NumbaSimulation.SeparationOfPairIsOpposite | numba_simulation.py:34-39 | two agents that are each other's only neighbour are pushed apart by equal and opposite forces |
| NumbaSimulation.CohesionOf | numba_simulation.py:46-54 | the inner loop for agent i computes `CohesionAt`: zero without neighbours, else (centroid - position) times the weight |
| NumbaSimulation.Cohesion | numba_simulation.py:42-55 | one cohesion force per agent |
| NumbaSimulation.CohesionTowardsSingleNeighbour | numba_simulation.py:46-54 | with a single neighbour j, cohesion points straight at j, scaled by the weight |
| NumbaSimulation.TowardsCenter | numba_simulation.py:59-61 | the vector to the centre divided by its length plus `1e-5`, the direction the attraction and confinement terms use |
| NumbaSimulation.Confinement | numba_simulation.py:64-65 | zero inside the world radius; outside it is proportional to the overshoot, along the direction to the centre |
| NumbaSimulation.Rotation | numba_simulation.py:67-69 | the rotation force is perpendicular to the vector towards the centre |
| NumbaSimulation.EnvironmentForces | numba_simulation.py:57-71 | one force per agent, and entry i is exactly agent i's EnvironmentForce, so the per-agent lemmas (Confinement, Rotation, EnvironmentInsideRadius) apply to the batch |
| NumbaSimulation.EnvironmentInsideRadius | numba_simulation.py:57-71 | inside the radius the environment force is centre attraction plus rotation only |
| NumbaSimulation.PredatorMask | numba_simulation.py:87 | predator candidates are agents of the predator species closer than the escape distance |
| NumbaSimulation.PreyMask | numba_simulation.py:87-91 | prey candidates exclude every predator candidate (the `elif`) |
| NumbaSimulation.Steer | numba_simulation.py:96-106 | the unit-direction term is zero when source and target coincide (the `norm > 0` guard) |
| NumbaSimulation.NearestPredator | numba_simulation.py:78-90 | the chosen predator is the nearest candidate with the lowest index, or -1; the species table is indexed by `species - 1`, wrapping for species 0 |
| NumbaSimulation.NearestPrey | numba_simulation.py:79-94 | the chosen prey is the nearest candidate left over after the `elif` |
| NumbaSimulation.NearestPredatorAndPrey | numba_simulation.py:81-94 | the single loop over the row finds both the nearest predator and the nearest prey |
| NumbaSimulation.PredatorPreyOf | numba_simulation.py:96-106 | agent i's force is escape then chase, each added only when its target exists |
| NumbaSimulation.PredatorPreyForces | numba_simulation.py:73-108 | one predator/prey force per agent |
| NumbaSimulation.PredatorPreyZeroWithoutCandidates | numba_simulation.py:96-106 | no predator candidate and no prey candidate means zero force |
| NumbaSimulation.CalculateForces | numba_simulation.py:221-245 | the four terms are summed and clamped once; with `max_force >= 0` no force is longer than `max_force` and the clamp never increases a force |
| NumbaSimulation.IsolatedAgentFeelsOnlyEnvironment | numba_simulation.py:232-244 | an agent with nobody inside any threshold feels only the environment force before the clamp |
| NumbaSimulation.AddZeros | numba_simulation.py:244 | zero separation, cohesion and predator/prey terms leave the environment term |
| NumbaSimulation.EnvironmentForce | numba_simulation.py:58-71 | one agent's environment term: centre attraction plus the confinement pull outside the radius plus the rotation term; Confinement, Rotation and EnvironmentInsideRadius state its parts |
| NumbaSimulation.SeparationAt | numba_simulation.py:29-40 | one agent's separation: the sum over neighbours strictly inside the window of the offset divided by distance plus epsilon, weighted only when some neighbour qualified; SeparationOf is proved equal to it |
| NumbaSimulation.CohesionAt | numba_simulation.py:43-55 | one agent's cohesion: zero without neighbours, otherwise the weighted offset to their mean position; CohesionOf is proved equal to it |
| NumbaSimulation.PredatorPreyAt | numba_simulation.py:77-106 | one agent's predator/prey force: a unit step away from the nearest predator, then towards the nearest prey, each only when one was found and the points differ; PredatorPreyOf is proved equal to it |
| NumbaSimulation.TotalForceAt | numba_simulation.py:233-244 | one agent's unclamped total: separation + cohesion + environment + predator/prey over its distance row; CalculateForces clamps it |
| PredatorPreyCpp.Candidates | keep/predator_prey.cpp:48-57 | a candidate of a branch is another agent (never i itself) of the branch's target species within its distance; called once with the predator species and escape distance, once with the prey species and chase distance, so the two tests are independent |
| PredatorPreyCpp.SteerTerm | keep/predator_prey.cpp:66-70 | the weighted unit direction is NaN exactly when the two positions coincide (0/0) |
| PredatorPreyCpp.Chosen | keep/predator_prey.cpp:42-63 | the running distance ends below `FLT_MAX` exactly when some candidate is nearer than `FLT_MAX`, and then the index is that candidate's and the distance its own; otherwise the pair stays `(0, FLT_MAX)` |
| PredatorPreyCpp.ScanRow | keep/predator_prey.cpp:47-63 | the inner loop yields both choices, starting from `FLT_MAX` and index 0 |
| PredatorPreyCpp.PredatorPreyForces | keep/predator_prey.cpp:10-83 | RuntimeError exactly when a buffer has the wrong dimensionality; otherwise one force per agent, as `ForceAt` |
| PredatorPreyCpp.EscapeFromNearestPredator | keep/predator_prey.cpp:47-55 | the agent fled from is the lowest-index nearest predator candidate below `FLT_MAX`, never the agent itself |
| PredatorPreyCpp.EscapeAppliedIffCandidate | keep/predator_prey.cpp:65 | when the escape distance is at most `FLT_MAX`, the escape term is applied exactly when some other predator-species agent is within it, and then it steers away from the nearest one |
| PredatorPreyCpp.ChaseFromNearestPrey | keep/predator_prey.cpp:56-61 | the agent chased is the lowest-index nearest prey candidate below `FLT_MAX`, never the agent itself |
| PredatorPreyCpp.ChaseAppliedIffCandidate | keep/predator_prey.cpp:73 | when the chase distance is at most `FLT_MAX`, the chase term is applied exactly when some other prey-species agent is within it, and then it steers towards the nearest one; otherwise nothing is added |
| PredatorPreyCpp.InfiniteEscapeFleesAgentZero | keep/predator_prey.cpp:42-44 | an escape distance above `FLT_MAX` passes the guard with no candidate, and the agent flees agent 0 (also keep/predator_prey.cpp:65-70) |
| PredatorPreyCpp.CoincidentPredatorGivesNaN | keep/predator_prey.cpp:65-70 | a chosen predator at the agent's own position makes its force NaN |
| PredatorPreyCpp.CoincidingTablesCancel | keep/predator_prey.cpp:51-78 | when the predator and prey entries coincide, the predator scan and the prey scan choose the same agent, escape and chase both apply to it, and with equal distances and weights the two terms cancel |
| PredatorPreyCpp.EscapeTerm | keep/predator_prey.cpp:65-71 | the escape term of agent i: applied when the chosen predator distance ended below the escape distance, steering away from the chosen index; EscapeAppliedIffCandidate characterises when it applies |
| PredatorPreyCpp.ChaseTerm | keep/predator_prey.cpp:73-79 | the chase term of agent i: applied when the chosen prey distance ended below the chase distance, steering towards the chosen index; ChaseAppliedIffCandidate characterises when it applies |
| PredatorPreyCpp.ForceAt | keep/predator_prey.cpp:40-80 | agent i's total: zero, plus the escape term, plus the chase term; ScanRow and PredatorPreyForces are proved against it |
| PredatorPreyGroup.IndicesOf | predator_prey_force_numba.py:12 | exactly the agents of one species, in increasing order |
| PredatorPreyGroup.DistancesFrom | predator_prey_force_numba.py:23 | the distance from agent a to each agent |
| PredatorPreyGroup.CloseOf | predator_prey_force_numba.py:25 | close candidates are agents of the target species strictly inside the limit |
| PredatorPreyGroup.UnitTerm | predator_prey_force_numba.py:29-30 | normalising gives NaN exactly for a zero direction (no guard here) |
| PredatorPreyGroup.NoTargetNoTerm | predator_prey_force_numba.py:20 | with no agent of the target species, nothing is close and no term is added (also predator_prey_force_numba.py:26) |
| PredatorPreyGroup.CalculateForces | predator_prey_force_numba.py:5-47 | one force per agent: zero for species outside 1..8, otherwise escape then chase, each added when some target is close |
| PredatorPreyGroup.EscapeBlock | predator_prey_force_numba.py:17-30 | after the escape block of species s, every agent holds its stage-one value |
| PredatorPreyGroup.AddEscapes | predator_prey_force_numba.py:21-30 | the loop over the members of species s adds each member's escape term |
| PredatorPreyGroup.ChaseBlock | predator_prey_force_numba.py:32-45 | after the chase block of species s, every agent holds its finished value |
| PredatorPreyGroup.AddChases | predator_prey_force_numba.py:36-45 | the loop over the members adds each member's chase term |
| PredatorPreyGroup.AddEscape | predator_prey_force_numba.py:30 | only agent a changes, and it gets the escaped value |
| PredatorPreyGroup.AddChase | predator_prey_force_numba.py:45 | only agent a changes, and it gets its final force |
| PredatorPreyGroup.EscapeTargetIsNearest | predator_prey_force_numba.py:23-27 | the predator fled from is the lowest-index nearest close agent of the predator species |
| PredatorPreyGroup.OwnPredatorGivesNaN | predator_prey_force_numba.py:18-29 | a species that is its own predator picks the agent itself and gets NaN |
| PredatorPreyGroup.EscapeOf | predator_prey_force_numba.py:20-30 | agent a's escape term: none when no predator-species agent is within the escape distance, else the unit step away from the arg-min of the filtered distances; EscapeTargetIsNearest identifies that agent |
| PredatorPreyGroup.ChaseOf | predator_prey_force_numba.py:35-45 | agent a's chase term: none without a prey-species agent within the chase distance, else the unit step towards the filtered arg-min |
| PredatorPreyGroup.ForceOf | predator_prey_force_numba.py:11-47 | agent a's final force: zero for a species outside 1..8, otherwise escape then chase added to zero; CalculateForces is proved to produce it for every agent |
| AgentsRegistry.Initial | agents_data.py:5-12 | the fresh registry is empty and satisfies the invariant |
| AgentsRegistry.Added | agents_data.py:22-37 | at capacity nothing changes and the result is None; otherwise the id is the last freed one (LIFO), or `next_id`, which then advances; slot `count` is written and no other slot changes |
| AgentsRegistry.Removed | agents_data.py:60-78 | succeeds exactly for an active id; the last slot moves into the hole, the tail is cleared to zeros/0/-1, the count drops and the id is pushed on the free list; a missing id changes nothing |
| AgentsRegistry.Synced | agents_data.py:88-95 | no snapshot gives false and no change; a snapshot succeeds exactly when its positions match the active count or are a single row, and raises ValueError otherwise; on success active slot k holds row k (or the single row), the count is the snapshot's and nothing else changes |
| AgentsRegistry.SyncedKeepsInvIff | agents_data.py:91-92 | a fitting sync keeps the registry invariant exactly when the snapshot's count equals the registry's: a larger count exposes cleared slots with id -1, a smaller one leaves live ids past the count |
| AgentsRegistry.AddPreservesInv | agents_data.py:22-37 | an add keeps active ids distinct and disjoint from the free list, and the count within capacity |
| AgentsRegistry.RemovePreservesInv | agents_data.py:60-78 | a removal keeps the same invariant |
| AgentsRegistry.AddThenRemove | agents_data.py:22-78 | removing the agent just added restores the arrays and the count, and the whole registry when its id came from the free list |
| AgentsRegistry.RemoveDropsOnlyThatId | agents_data.py:61-73 | the active ids after a removal are the old ones minus that id |
| AgentsRegistry.SwapRemoveMultiset | agents_data.py:66-73 | swap-with-last then drop-last removes exactly one element |
| AgentsRegistry.CapacityTenScenario | TEST/agents_data_test.py:20-56 | five adds give ids 0-4; removing 2 and 4 then adding three hands out 4, 2 and 5; of five more adds, four succeed and the fifth fails |
| AgentsRegistry.AgentsData.constructor | agents_data.py:5-12 | the arrays start at zeros/0/-1 with no agents |
| AgentsRegistry.AgentsData.AddAgentInternal | agents_data.py:22-37 | the new state and the result are `Added` of the old state |
| AgentsRegistry.AgentsData.AddAgentNoNotify | agents_data.py:47-48 | same as the internal add, with no notification |
| AgentsRegistry.AgentsData.AddAgent | agents_data.py:39-45 | the internal add, plus one notification exactly when it succeeded |
| AgentsRegistry.AgentsData.RemoveAgent | agents_data.py:60-78 | the new state is `Removed`; one notification exactly when the id was active |
| AgentsRegistry.AgentsData.UpdateFromBox2d | agents_data.py:88-95 | the state effect and the result are those of `Synced` |
| AgentsRegistry.AgentsData.AvailableAgentIds | agents_data.py:132-133 | exactly the ids of the active prefix; distinct under the invariant |
| AgentsRegistry.MoveLastInto | agents_data.py:66-72 | the slot at `index` takes the last active slot's value (a no-op copy when they coincide) and the last slot is cleared to the blank value; nothing else in the array changes |
| SharedMemory.Initial | TEST/multi_processinng_test2/multi-threading-simulation.py:7-16 | the fresh manager has zero ids, zero mask and a count of zero |
| SharedMemory.Added | TEST/multi_processinng_test2/multi-threading-simulation.py:18-30 | at capacity returns -1 and changes nothing; otherwise writes slot `count`, sets its mask, returns the old `next_agent_id`, advances it and logs ('add', id); a count below -capacity raises IndexError |
| SharedMemory.Removed | TEST/multi_processinng_test2/multi-threading-simulation.py:32-41 | succeeds exactly when the id is anywhere in `agent_ids`; clears the first matching mask bit, decrements the count and logs ('remove', id), without moving any slot |
| SharedMemory.IsActive | TEST/multi_processinng_test2/multi-threading-simulation.py:45 | a slot is active exactly when its mask is 1 |
| SharedMemory.ActiveIndices | TEST/multi_processinng_test2/multi-threading-simulation.py:45 | exactly the active slots, in increasing order |
| SharedMemory.TensorflowView | TEST/multi_processinng_test2/multi-threading-simulation.py:43-46 | the positions of the active slots, in slot order |
| SharedMemory.Scatter | TEST/multi_processinng_test2/multi-threading-simulation.py:63-65 | the first u listed slots receive the values; every other slot keeps its position |
| SharedMemory.Updated | TEST/multi_processinng_test2/multi-threading-simulation.py:56-66 | only the first `min(#active, len(new))` active slots change, in slot order; ids, mask, count and log are unchanged |
| SharedMemory.IdsNeverReused | TEST/multi_processinng_test2/multi-threading-simulation.py:23-27 | an add after another add and any removal returns a larger id |
| SharedMemory.UpdateThenView | TEST/multi_processinng_test2/multi-threading-simulation.py:43-66 | writing exactly one position per active agent and reading back gives those positions |
| SharedMemory.DoubleRemoval | TEST/multi_processinng_test2/multi-threading-simulation.py:32-41 | removing the same id again succeeds again and decrements the count again (no guard) |
| SharedMemory.RemoveZeroFromFresh | TEST/multi_processinng_test2/multi-threading-simulation.py:11 | removing id 0 from a fresh manager succeeds and drives the count to -1 (also TEST/multi_processinng_test2/multi-threading-simulation.py:34-40) |
| SharedMemory.AddOverwritesLiveAgent | TEST/multi_processinng_test2/multi-threading-simulation.py:21-25 | with capacity 2, add, add, remove the first, then add again: the new agent overwrites the live second agent's slot |
| SharedMemory.SharedMemoryManager.constructor | TEST/multi_processinng_test2/multi-threading-simulation.py:7-16 | the state is `Initial` |
| SharedMemory.SharedMemoryManager.AddAgent | TEST/multi_processinng_test2/multi-threading-simulation.py:18-30 | the result and the new state are those of `Added` |
| SharedMemory.SharedMemoryManager.RemoveAgent | TEST/multi_processinng_test2/multi-threading-simulation.py:32-41 | the result and the new state are those of `Removed` |
| SharedMemory.SharedMemoryManager.GetDataForTensorflow | TEST/multi_processinng_test2/multi-threading-simulation.py:43-46 | the view is the active positions, each one drawn from the array |
| SharedMemory.SharedMemoryManager.UpdatePositions | TEST/multi_processinng_test2/multi-threading-simulation.py:56-66 | always returns True; the new state is `Updated` |
| SparseAgents.AddedBatch | sparse_agent_array2.py:26-32 | the count becomes `min(count + k, capacity)`; old records are kept, the new slots filled in list order, the rest untouched |
| SparseAgents.AddThenGetAll | sparse_agent_array2.py:26-54 | reading all after a batch add gives the old records followed by the admitted incoming ones |
| SparseAgents.Kept | sparse_agent_array2.py:38 | the kept records are exactly those whose id is not listed |
| SparseAgents.KeptAppend | sparse_agent_array2.py:38-39 | keeping distributes over concatenation (order preserved) |
| SparseAgents.KeptNoMatch | sparse_agent_array2.py:38-39 | nothing is dropped when no id matches |
| SparseAgents.KeptIdempotent | sparse_agent_array2.py:38-39 | filtering twice equals filtering once |
| SparseAgents.RemovedBatch | sparse_agent_array2.py:34-40 | the kept active records move to the front in order, the count is their number, and the tail is untouched |
| SparseAgents.RemoveNoMatch | sparse_agent_array2.py:34-40 | a batch remove naming no active id changes nothing |
| SparseAgents.RemoveTwice | sparse_agent_array2.py:34-40 | removing the same ids twice equals removing them once |
| SparseAgents.LastIndexOf | sparse_agent_array2.py:46 | the id-to-index dict maps an id to its last occurrence in the active prefix |
| SparseAgents.LastWriter | sparse_agent_array2.py:47-49 | the last incoming record the index sends to a slot, or none when no record does |
| SparseAgents.AppliedUpdates | sparse_agent_array2.py:42-49 | each slot holds the incoming record LastWriter names for it, so the last duplicate wins; slots no record maps to are untouched, unknown ids are ignored and every written slot keeps its id |
| SparseAgents.UpdateKeepsIds | sparse_agent_array2.py:46-49 | after a batch update every active slot still holds a record with its old id |
| SparseAgents.UpdateOneKnownId | sparse_agent_array2.py:46-49 | a single known id replaces exactly the last slot holding it |
| SparseAgents.SetPositionsAndVelocities | sparse_agent_array2.py:80-84 | only the position and velocity fields of the active prefix change; a right-hand side that neither matches nor broadcasts raises, after the positions were written if only the velocities fail |
| SparseAgents.SharedAgents.constructor | sparse_agent_array2.py:14-21 | an empty buffer of the given capacity |
| SparseAgents.SharedAgents.AddAgentsBatch | sparse_agent_array2.py:26-32 | the contents and the count become `AddedBatch` of the old ones |
| SparseAgents.SharedAgents.RemoveAgentsBatch | sparse_agent_array2.py:34-40 | the contents and the count become `RemovedBatch` |
| SparseAgents.SharedAgents.UpdateAgentsBatch | sparse_agent_array2.py:42-49 | the contents become `AppliedUpdates` with the index built from the old active prefix; the count is unchanged |
| SparseAgents.SharedAgents.GetAllAgents | sparse_agent_array2.py:51-54 | exactly the records `[0, count)` |
| SparseAgents.SharedAgents.UpdatePositionsAndVelocities | sparse_agent_array2.py:80-84 | the contents and the result are `SetPositionsAndVelocities` |
| SparseAgents.WithPositions | sparse_agent_array2.py:83 | the position field of the first `count` records takes one row each, or the single row broadcast, and every other field and record is kept |
| SparseAgents.WithVelocities | sparse_agent_array2.py:84 | the velocity field of the first `count` records takes one row each, or the single row broadcast, and every other field and record is kept |
| DelayedQueues.ReadyCount | delayed_queue.py:23 | the number of ready items at the head: all of them ready, and the next one (if any) not ready |
| DelayedQueues.CallsOf | delayed_queue.py:24-25 | one callback invocation per processed item, in queue order |
| DelayedQueues.HeadUnreadyAfterUpdate | delayed_queue.py:23 | after an update the queue is empty or its head is not ready |
| DelayedQueues.UpdateIdempotent | delayed_queue.py:23 | a second update at the same time takes nothing (also TEST/delayed_queue_test.py:48-51) |
| DelayedQueues.OnlyPrefixTaken | delayed_queue.py:23 | an item behind an unready item stays queued, ready or not |
| DelayedQueues.ReadyCountMonotone | delayed_queue.py:23 | waiting longer never takes fewer items |
| DelayedQueues.CallsAppend | delayed_queue.py:24-25 | calls of a longer prefix extend the calls of the shorter one |
| DelayedQueues.DelayedQueue.constructor | delayed_queue.py:14-15 | an empty queue with no calls made |
| DelayedQueues.DelayedQueue.Add | delayed_queue.py:17-19 | one item, stamped with the current time, is appended at the tail; nothing else changes |
| DelayedQueues.DelayedQueue.Update | delayed_queue.py:21-25 | exactly the ready prefix is popped and each popped item's callback is called once, in order |
| DelayedQueues.OrderScenario | TEST/delayed_queue_test.py:53-68 | with delays 0.2, 0.1 and 0.3: nothing is processed at 0.15, item2 then item1 at 0.25, and item3 at 0.35 |
| DelayedQueues.Ready | delayed_queue.py:23 | an item is ready once the time reaches its timestamp plus its delay; ReadyCount and ReadyCountMonotone are stated with it |
| FlameBuffers.DequeAppend | keep/flame_buffer.py:8 | a bounded deque append keeps the newest `maxlen` elements |
| FlameBuffers.Pushed | keep/flame_buffer.py:80-85 | the buffer is the newest `max_size` of old and new frames, and the overflow counter grows by exactly the number dropped |
| FlameBuffers.PushedWithRoom | keep/flame_buffer.py:82-85 | with room for every frame, nothing is dropped |
| FlameBuffers.PushedKeepsHead | keep/flame_buffer.py:85 | frames leave in arrival order: with room, the head is unchanged by a push (also keep/flame_buffer.py:88) |
| FlameBuffers.Interpolate | keep/flame_buffer.py:71-78 | exactly `steps` frames, each with one position per agent |
| FlameBuffers.InterpolationEndsAtNext | keep/flame_buffer.py:74-78 | the last interpolated frame equals the latest positions |
| FlameBuffers.InterpolationStepsEvenly | keep/flame_buffer.py:74-78 | consecutive frames are one equal step `(next - current) / steps` apart |
| FlameBuffers.AsFrames | keep/flame_buffer.py:78 | every interpolated array becomes a stored frame, in order |
| FlameBuffers.Trunc | keep/flame_buffer.py:52 | Python `int()` of a float truncates toward zero |
| FlameBuffers.InterpolationSteps | keep/flame_buffer.py:52-60 | a zero frame time raises ZeroDivisionError; otherwise steps are `max(1, base) + 2`, plus 1 below target, or minus 1 (floored at 1) above target, so always at least 1 |
| FlameBuffers.StepsFavourRefill | keep/flame_buffer.py:56-60 | a buffer below target gets more frames per physics step than one above it |
| FlameBuffers.AssignPrefix | keep/flame_buffer.py:18-20 | a slice assignment writes the prefix and leaves the rest of the array alone |
| FlameBuffers.FlameBuffer.constructor | keep/flame_buffer.py:6-15 | empty buffer, zero positions, ids -1, counters zero |
| FlameBuffers.FlameBuffer.Initialize | keep/flame_buffer.py:17-23 | both arrays hold the initial positions and the ids their values, the slots past them are unchanged, the buffer holds exactly one frame and the count is the input length |
| FlameBuffers.FlameBuffer.AddFrames | keep/flame_buffer.py:80-85 | the buffer and the overflow counter become `Pushed` of the old ones |
| FlameBuffers.FlameBuffer.GetNextPosition | keep/flame_buffer.py:87-88 | pops and returns the oldest frame; an empty buffer returns the current positions and stays empty |
| FlameBuffers.FlameBuffer.GetStats | keep/flame_buffer.py:90-95 | reports the current size and overflow count; the size never exceeds the maximum |
| FlameBuffers.FlameBuffer.Advance | keep/flame_buffer.py:36-41 | current takes the previous next, next takes the new positions, and the interpolated frames are pushed |
| FlameBuffers.FlameBuffer.UpdateWithPhysicsData | keep/flame_buffer.py:47-69 | the arrays advance over the first n slots and keep the rest; the step rule decides the frame count; a zero frame time raises after the arrays moved, leaving the buffer untouched |
| FlameBuffers.FlameBuffer.Reset | keep/flame_buffer.py:26-33 | on a count mismatch the first n slots of current, next and ids take the new values, the slots past n are unchanged, the bounded deque receives a view of the current positions (dropping its oldest frame when full, without counting an overflow) and the recorded count becomes n |
| FlameBuffers.FlameBuffer.UpdateFrames | keep/flame_buffer.py:25-41 | on an agent-count mismatch both arrays reset to the new positions and one frame is appended before interpolating; the slots past the new count are unchanged |
| FlameBuffers.FlameBuffer.Update | keep/flame_buffer.py:25-45 | as written: raises AttributeError after the arrays' first n slots and the frames were updated as in UpdateIntended, the slots past n unchanged |
| FlameBuffers.FlameBuffer.UpdateIntended | keep/flame_buffer.py:25-45 | without the missing call: the same arrays, buffer and overflow count as `update` (reset on a count mismatch, then the interpolated frames pushed, the array slots past the new count unchanged), the count recorded, and the stats returned with the buffer within its maximum |
| FlameBuffers.Resolve | keep/flame_buffer.py:88 | what a buffered frame shows when read: an interpolated frame its own positions, a view of `current_positions` the array's current prefix |
| TraitValues.ParseText | dna_manager.py:35-43 | int when `int()` accepts the text, else float when `float()` does, else the text itself (both directions) |
| TraitValues.IntToString | dna_manager.py:47 | the decimal rendering of an int is non-empty |
| TraitValues.NatToString | dna_manager.py:47 | decimal digits only; a single digit exactly below 10 |
| TraitValues.NatToStringInjective | dna_manager.py:47 | different naturals render differently |
| DnaManagers.KeyIndex | dna_manager.py:59-61 | the position of a key in a table, -1 exactly when absent |
| DnaManagers.Find | dna_manager.py:59-61 | `dict.get`: None exactly when the key is absent, otherwise a stored value |
| DnaManagers.Put | dna_manager.py:76-79 | `d[k] = v`: k now maps to v, every other key is unchanged, a new key goes last, existing keys keep their positions, and keys stay distinct |
| DnaManagers.Filled | dna_manager.py:24-33 | the table has at most one entry per cell |
| DnaManagers.FilledKeysDistinct | dna_manager.py:24-33 | distinct column keys give a table with distinct keys |
| DnaManagers.FindFilled | dna_manager.py:24-33 | a column's key finds that column's parsed cell, or nothing when the cell was empty |
| DnaManagers.FirstFilled | dna_manager.py:61 | the first non-empty cell, all earlier ones being empty |
| DnaManagers.FilledHead | dna_manager.py:61 | the first table entry is the first filled column; the table is empty exactly when every cell is |
| DnaManagers.RowKeysDistinct | dna_manager.py:24-33 | GLOBAL, 1..8, Min and Max are distinct keys |
| DnaManagers.Resolve | dna_manager.py:56-61 | StopIteration exactly for a default lookup on an empty table; species value, else GLOBAL, else None; without a species GLOBAL, else the first value |
| DnaManagers.SpeciesLookupFromRow | dna_manager.py:24-33 | a species cell wins over GLOBAL, and GLOBAL over None (also dna_manager.py:58-59) |
| DnaManagers.DefaultLookupFromRow | dna_manager.py:24-33 | without a species: GLOBAL when filled, else the first filled column in row order, else StopIteration (also dna_manager.py:61) |
| DnaManagers.Range | dna_manager.py:88-92 | Min and Max, defaulting to -inf and +inf |
| DnaManagers.RangeFromRow | dna_manager.py:24-33 | a loaded row's range is its parsed Min and Max cells, or the infinities (also dna_manager.py:88-92) |
| DnaManagers.Loaded | dna_manager.py:11-18 | loading never loses a trait |
| DnaManagers.LoadedLastRowWins | dna_manager.py:15-18 | a trait's table is the one built from the last row naming it; rows with an empty name are skipped (also dna_manager.py:25) |
| DnaManagers.LoadedKeepsInv | dna_manager.py:11-33 | every loaded table has distinct keys |
| DnaManagers.Got | dna_manager.py:45-65 | a cached entry is returned first; KeyError for an unknown trait, StopIteration for a default lookup on an empty table; otherwise `Resolve`'s answer is cached under the string key; the tables never change |
| DnaManagers.Updated | dna_manager.py:71-83 | KeyError exactly for an unknown trait, changing nothing; otherwise one key of that trait's table is set and exactly one cache key is evicted |
| DnaManagers.RepeatedLookupStable | dna_manager.py:47-51 | a second lookup returns the same value and changes nothing (also dna_manager.py:63) |
| DnaManagers.LookupAfterClear | dna_manager.py:53-65 | after clearing the cache a lookup reads the tables (also dna_manager.py:67-69) |
| DnaManagers.StaleAfterGlobalUpdate | dna_manager.py:58-59 | a species that cached GLOBAL's value keeps the old value after GLOBAL is updated (also dna_manager.py:76-83) |
| DnaManagers.CacheKeyCollision | dna_manager.py:47 | a lookup of trait "t_s" without species poisons the cache entry of trait t for species s |
| DnaManagers.GotIntended | dna_manager.py:45-65 | with a pair-keyed cache that is coherent, every lookup returns what the tables say now, and the cache stays coherent |
| DnaManagers.UpdatedIntended | dna_manager.py:71-83 | dropping every cached answer for the trait keeps the cache coherent; the tables are updated as in `Put` |
| DnaManagers.IntendedSeesGlobalUpdate | dna_manager.py:76-83 | with the corrected cache, a species lookup sees a GLOBAL update |
| DnaManagers.DnaManager.constructor | dna_manager.py:5-18 | tables loaded from the rows, empty cache, every table a dict |
| DnaManagers.DnaManager.LoadConfig | dna_manager.py:11-18 | the tables become `Loaded` over the rows; the cache is unchanged |
| DnaManagers.DnaManager.ProcessRow | dna_manager.py:24-33 | only that trait's table is replaced, by the row's filled cells in column order |
| DnaManagers.DnaManager.GetTraitValue | dna_manager.py:45-65 | the result and the new state are those of `Got` |
| DnaManagers.DnaManager.ClearCache | dna_manager.py:67-69 | the cache becomes empty; the tables are unchanged |
| DnaManagers.DnaManager.UpdateConfig | dna_manager.py:71-83 | the result and the new state are those of `Updated` |
| DnaManagers.DnaManager.GetTraitRange | dna_manager.py:84-92 | KeyError exactly for an unknown trait; otherwise `Range` |
| DnaManagers.DnaManager.Species | dna_manager.py:94-95 | a new view of this manager for that species |
| DnaManagers.DnaSpecies.constructor | dna_manager.py:97-100 | holds the manager and the species |
| DnaManagers.DnaSpecies.GetTraitValue | dna_manager.py:102-103 | the manager's lookup with this species |
| DnaManagers.CacheKey | dna_manager.py:47 | the cache key of a lookup: the bare trait name without a species, `trait_species` with one; the same key is evicted by `update_config` (also dna_manager.py:82), and CacheKeyCollision shows two lookups sharing one key |
| ConfigManagers.SpeciesDna.GetTrait | config_manager.py:9-10 | `traits.get`: None for an unknown trait |
| ConfigManagers.SpeciesNameIsDigits | config_manager.py:40-42 | no species column is named GLOBAL, Min or Max |
| ConfigManagers.ParseCell | config_manager.py:56-65 | None and '' give None; otherwise int, float or the text |
| ConfigManagers.Cleaned | config_manager.py:37 | a row keeps exactly its non-empty cells |
| ConfigManagers.RowTableCells | config_manager.py:37-42 | each species column holds its own cell when filled, else GLOBAL's cell, else None; the other columns are the non-empty cells |
| ConfigManagers.FirstMissingName | config_manager.py:35 | the first row without a TRAIT_NAME column, where loading raises KeyError |
| ConfigManagers.AppliedKeepsComplete | config_manager.py:34-42 | after loading, every trait table has all eight species columns |
| ConfigManagers.SpeciesRecord | config_manager.py:50-54 | a species record holds exactly the traits whose table has its column |
| ConfigManagers.SpeciesKnowAllTraits | config_manager.py:50-54 | with complete tables every species record knows every trait |
| ConfigManagers.TraitValue | config_manager.py:67-70 | KeyError exactly for an unknown trait; otherwise GLOBAL's cell parsed, None when it was empty |
| ConfigManagers.SpeciesValueFromRow | config_manager.py:37-54 | a species cell overrides GLOBAL; an empty species cell reads GLOBAL's parsed value (also TEST/config_manager_test.py:32-42) |
| ConfigManagers.ConfigManager.constructor | config_manager.py:21-27 | empty tables and records |
| ConfigManagers.ConfigManager.LoadConfig | config_manager.py:30-54 | rows up to the first one without TRAIT_NAME are loaded, then KeyError; otherwise records for species 1..8 are built from the tables |
| ConfigManagers.ConfigManager.BuildSpecies | config_manager.py:49-54 | one record per species 1..8, built from the current tables |
| ConfigManagers.ConfigManager.FillSpecies | config_manager.py:37-42 | the table of a row is its non-empty cells plus species columns filled from GLOBAL |
| ConfigManagers.ConfigManager.GetTraitValue | config_manager.py:67-70 | `TraitValue` on the current tables |
| ConfigManagers.ConfigManager.GetSpeciesTraitValue | config_manager.py:72-75 | KeyError exactly for a species without a record; an unknown trait gives None |
| ConfigManagers.ConfigManager.GetDnaForSpecies | config_manager.py:77-80 | KeyError exactly for a species without a record; otherwise that record |
| ConfigManagers.ConfigManager.GetTraitRange | config_manager.py:82-88 | as written: KeyError for an unknown trait, OverflowError when Min or Max is absent, otherwise both cells parsed |
| ConfigManagers.ConfigManager.GetTraitRangeIntended | config_manager.py:82-88 | only an unknown trait raises; an absent bound is the matching infinity, and it agrees with `GetTraitRange` wherever that succeeds |
| ConfigManagers.FillStep | config_manager.py:40-42 | one fill step adds GLOBAL's cell for a missing species and never changes GLOBAL |
| ConfigManagers.DnaMatchesLookup | config_manager.py:75-80 | a species record and the species lookup agree on every trait (also TEST/config_manager_test.py:50-54) |
| ConfigManagers.LoadedSpeciesLookup | config_manager.py:37-54 | after loading, a species lookup gives its own parsed cell, or exactly the GLOBAL lookup's value (also config_manager.py:72-75) |
| ConfigManagers.RangeFromRow | config_manager.py:82-88 | a loaded row has a range only when both Min and Max were filled; otherwise OverflowError |
| ConfigManagers.IntendedRangeFromRow | config_manager.py:82-88 | with the defaults returned as they are, every loaded row has a range: parsed cells or the infinities |
| ConfigManagers.RowTable | config_manager.py:36-41 | the table a row becomes: its non-empty cells (kept as written, whitespace included), with every species column 1..8 that is missing filled from GLOBAL's cell (None without one); RowTableCells states each cell |
| ConfigManagers.Applied | config_manager.py:34-41 | the rows applied in order: a row with an empty trait name is skipped and a later row for the same trait replaces the earlier table; LoadedSpeciesLookup and AppliedKeepsComplete are proved about it |

## Left out

- The Euclidean norm is a parameter `norm`. The model assumes only that it is non-negative, zero exactly at the zero vector, symmetric under negation and homogeneous. Square-root accuracy is not modelled.
- Float semantics:
  - Positions and forces are reals. float32 rounding is not modelled, nor are `1e-5` magnitudes in float arithmetic or infinities other than the trait defaults.
  - NaN is modelled only where a kernel divides 0 by 0, as the `NaN` case of `FloatPair`.
- Numba `prange`, `@vectorize` and `set_num_threads` are not modelled; each loop is modelled sequentially.
- Inter-process I/O is not modelled. This covers:
  - queue puts and gets, threads and locks, `mp.RawArray`, prints and logging;
  - `send_data_*`;
  - the queue read of `update_from_box2d`, whose snapshot is a parameter.

  Notifications are a recorded list of events.
- The clock of `DelayedQueue` is a parameter, and each callback is an identifier whose calls are recorded. Callbacks are assumed to return normally and not to touch the queue: a `process_func` that raises (stopping the loop after its item was popped) or that calls `add` while `update` runs is not modelled.
- TensorFlow code is not modelled: `get_tf_*`, `set_forces`, `update_forces`, `save_simulation_state` and `load_simulation_state` of sparse_agent_array2.py, and the TF force modules.
- The Box2D, pygame and UI code are not modelled.
- `NumbaSimulation.update_parameters` reads a UI queue and is not modelled.
- The `ConfigManager` display methods only print, and are not modelled.
- CSV file reading is not modelled, nor are `FileNotFoundError` and `csv.Error`:
  - rows are given as values;
  - a `DNAManager` row is a fixed-column record, so a missing header column (a KeyError in `_process_row`) is not modelled;
  - `ConfigManager` rows are string maps.
- `ConfigManager` singletons are not modelled. `__new__` is not modelled, and `__init__` is a constructor followed by an explicit `LoadConfig` call (config_manager.py:13-28).
- Python's `int()` and `float()` on strings are an abstract `Recognisers` parameter; their parsing rules are not modelled.
- Integer widths are unbounded: int32 ids, species and counts do not wrap.
- The two positions are one `Vec2`; the `dimensions` parameter of `SharedMemoryManager` is fixed at 2.
- The structured array buffer is a sequence of records; the byte layout of `agent_dtype` is not modelled.
- Aliasing of returned numpy views is not modelled:
  - `get_next_position` and `initialize` return or store views of `current_positions`. A view frame shows the array's contents when it is read; later writes through the caller's alias are not modelled.
  - AgentsRegistry.AgentsData.AvailableAgentIds returns the ids of the active prefix as a value, while `available_agent_ids` returns the view `agent_ids[:current_agent_count]`. After a later `remove_agent` an array the caller still holds would show the swapped-in last id and the -1 tail; the model does not capture that change.
- numpy broadcast and shape errors are modelled only where the model states them (`Synced`, `SetPositionsAndVelocities`). Elsewhere the matching shapes are preconditions.
- Python index wrap-around is modelled only where it is reachable. That is the numba species table (`species - 1` for species 0) and the `SharedMemoryManager` count after over-removal.
- The interpolation step count is a `nat` parameter of `update`. The `current_agent_count` argument of `update` and of `update_with_physics_data` (FlameBuffers.FlameBuffer.UpdateWithPhysicsData) is the length of the new positions; a caller passing a different count, which numpy would reject or broadcast, is not modelled.
- FlameBuffers.FlameBuffer.constructor: requires `max_size >= 1`. A `deque(maxlen=0)`, which keeps nothing, is not modelled.
- FlameBuffers.FlameBuffer.Initialize and the update methods require inputs no longer than `max_agents`. The numpy ValueError of an over-long slice assignment is not modelled.
- AgentsRegistry.Synced and AgentsRegistry.AgentsData.UpdateFromBox2d require the snapshot's count to be within capacity. A physics side reporting more agents than the arrays hold is not modelled.
- NumbaSimulation.PredatorPreyForces and NumbaSimulation.CalculateForces require every species value in -7..8. The kernel is compiled by `@njit` without bounds checking, so other values read outside the int32 tables: undefined behaviour, not an exception, and not modelled.
- PredatorPreyCpp.PredatorPreyForces requires every species value to index the tables. An out-of-range read is undefined behaviour in C++.

## Findings

| source | as written | input that shows it | evidently intended | confidence | as-written member | corrected member |
|---|---|---|---|---|---|---|
| keep/flame_buffer.py:42 | `update` calls `self._adjust_buffer_size()`, which `FlameBuffer` does not define, so it raises AttributeError after the frames were buffered | any call of `update` | `update` records the agent count and returns the stats | high (not executed) | FlameBuffers.FlameBuffer.Update | FlameBuffers.FlameBuffer.UpdateIntended |
| dna_manager.py:76-83 | `update_config(t, None, v)` evicts only the cache key `t`, so a per-species entry `t_s` that cached GLOBAL's value stays stale | look up `(t, s)` for a species with no own cell, update `(t, None)` to a new value, look up `(t, s)` again: the old value is returned | an update invalidates every cached answer that depends on it | high (not executed) | DnaManagers.StaleAfterGlobalUpdate | DnaManagers.UpdatedIntended |
| dna_manager.py:47 | the cache key is the string `f"{trait}_{species}"`, so trait `"A_1"` without species and trait `"A"` with species 1 share one key | look up `("A_1", None)`, then `("A", 1)`: the second returns the first's value | the cache is keyed by the pair (trait, species) | high (not executed) | DnaManagers.CacheKeyCollision | DnaManagers.GotIntended |
| config_manager.py:86-87 | an absent Min or Max defaults to `float('-inf')` or `float('inf')`, which `_parse_value` passes to `int()`, raising OverflowError | a trait row with the Min cell empty | the infinite default is returned as the range bound | high (not executed) | ConfigManagers.RangeFromRow | ConfigManagers.ConfigManager.GetTraitRangeIntended |
