# A verified model of the ASS combat simulator core

This project models, in Dafny, three sequential pieces of the ASS library for
StarCraft: Brood War bots.

- **The combat simulator** (`Simulator`). Two groups of agents, `playerA`
  and `playerB`, stand on an 8192×8192 map. A flat grid of signed bytes
  counts the ground agents on each 16×16 tile. Agents enter the simulator
  through bounds-checked insertion. A frame loop (`simulate` → `step` →
  `removeDead` → `updateStats` / `updatePosition`) runs every agent's
  behaviour, swap-removes the dead, moves the living and updates their
  counters. `reset` empties the simulator. The `RoleBasedBehavior`
  dispatcher routes a unit to its suicider, healer, repairer or attacker
  behaviour. `IntEvaluation` holds the per-side score sums.
- **The two SCV repair behaviours** (`RepairerBehavior.simUnit` and the
  older `RepairerSimulator.simUnit`). Each one picks a damaged mechanical
  ally with a nearest-search that stops early once a candidate is within
  repair range. It then either steers toward that ally or repairs it,
  capped at its maximum health. `RepairerBehavior` also keeps repairing its
  last ally under a stickiness test.
- **The straight-line scans of jump point search** (`Jps.jumpHorizontal`,
  `Jps.jumpVertical`) and the start-equals-end shortcut of `findPath`.

Modules follow the program's structure:

- `Agents`: the `Agent` class with the fields the core touches, plus the
  unseen distance and steering helpers.
- `Unordered`: the swap-with-last removal of `UnorderedCollection`.
- `Grid`: the collision grid as values. This covers byte wrap-around,
  `colindex`, a tile's occupancy, the single-agent move and the
  whole-group move, and the lemmas that these keep the grid consistent.
- `Evaluation`: `IntEvaluation`.
- `Simulation`: the `Simulator` class, the builder and the behaviour
  dispatch.
- `Repair`: what the two repair behaviours share. This is the repair range,
  the capped heal and a loop-free description (`Picked`) of the ally a scan
  chooses.
- `RepairerBehavior` and `RepairerSimulator`: the two behaviours.
- `Jps`: the scans and the shortcut.
- `Wrappers`: `Option`, `Result` and `Outcome`.

The simulator's invariant is `Simulator.Valid`:

- no agent occurs twice or in both groups;
- every agent lies inside the map;
- every grid counter equals, wrapped to a Java `byte`, the number of ground
  agents on its tile.

Every state-changing operation keeps this invariant. Thrown exceptions
become `Result` / `Outcome` error values.

The simulator also carries ghost logs that have no counterpart in the Java
code and exist only so that contracts can say what happened:

- `actions`: every primitive behaviour run, in order, with its agent and
  answer;
- `visits`: every behaviour call of the `step` loops, with the runs it
  made;
`Dispatched` states which runs one behaviour call makes, and `Behaved`
relates a step's two loops to these logs.

`simulate` also returns a ghost log `rounds`, with one `Round` per `step`
it ran. A round records the groups the step began with, the visits of its
two loops, its answer, and the action log before and after it.
`Answered` states that every round is a `step` as `Behaved` describes it,
that every answer but the last is true, and that the loop stalled exactly
when the last answer was false.

## Model

| member | source | states |
|---|---|---|
| Simulation.ConfigCheck | src/main/java/org/bk/ass/sim/Simulator.java:48-51 | construction fails exactly when frameSkip < 1 or a behaviour is missing, and the frame-skip check comes first, then player A, then player B |
| Simulation.Simulator.Create | src/main/java/org/bk/ass/sim/Simulator.java:48-56 | fails exactly on the constructor's three argument errors, with the first of them as the error; on success it gives a fresh, valid, empty simulator holding the given frame skip and behaviours |
| Simulation.Simulator.constructor | src/main/java/org/bk/ass/sim/Simulator.java:40-56 | both groups are empty, every grid counter is zero, and the invariant holds |
| Simulation.NewBuilder | src/main/java/org/bk/ass/sim/Simulator.java:349-354 | the builder defaults to frame skip 1 and the role-based behaviour for both players, a configuration that passes the constructor checks |
| Simulation.Build | src/main/java/org/bk/ass/sim/Simulator.java:371-373 | building fails exactly when the builder's settings fail the constructor checks, and otherwise gives a valid empty simulator with the builder's frame skip |
| Grid.Wrap8 | src/main/java/org/bk/ass/sim/Simulator.java:43 | narrowing to a Java byte is the identity on [-128, 128) |
| Grid.Wrap8Congruent | src/main/java/org/bk/ass/sim/Simulator.java:62 | narrowing changes a number by a multiple of 256 |
| Grid.Wrap8Shift | src/main/java/org/bk/ass/sim/Simulator.java:236-237 | incrementing or decrementing a wrapped counter is the wrap of the exact count, so counters stay exact modulo 256 |
| Grid.JavaDiv | src/main/java/org/bk/ass/sim/Simulator.java:246 | Java's truncating division agrees with Euclidean division on non-negative operands |
| Grid.TileBounds | src/main/java/org/bk/ass/sim/Simulator.java:34-39 | an in-map coordinate falls in one of the 512 tile rows or columns |
| Grid.ColIndex | src/main/java/org/bk/ass/sim/Simulator.java:245-247 | an in-map point has a counter index in [0, 512*512) |
| Grid.ColIndexSameTile | src/main/java/org/bk/ass/sim/Simulator.java:245-247 | two in-map points share a counter exactly when they lie on the same 16×16 tile (both directions) |
| Grid.OccupancyConcat | src/main/java/org/bk/ass/sim/Simulator.java:40-43 | the occupancy of a tile over two groups is the sum over each group |
| Grid.OccupancyRemoveAt | src/main/java/org/bk/ass/sim/Simulator.java:190-191 | swap-removing a body lowers each tile's occupancy by exactly that body's contribution |
| Grid.OccupancyEmptyTile | src/main/java/org/bk/ass/sim/Simulator.java:141-149 | a tile under no ground body has occupancy zero |
| Grid.PlaceKeepsConsistent | src/main/java/org/bk/ass/sim/Simulator.java:58-65 | incrementing the counter under a new ground body (and leaving the grid alone for a flyer) keeps every counter equal to its tile's wrapped occupancy |
| Grid.UnplaceKeepsDrained | src/main/java/org/bk/ass/sim/Simulator.java:189-191 | decrementing the counter of a swap-removed ground body keeps each counter at its starting value minus the occupancy removed so far |
| Grid.ShrinkKeepsConsistent | src/main/java/org/bk/ass/sim/Simulator.java:186-197 | once a group's dead are drained from the grid, the grid is consistent with the surviving bodies |
| Grid.Move | src/main/java/org/bk/ass/sim/Simulator.java:222-243 | a move keeps the grid size and the flyer flag, and ends inside the map |
| Grid.MoveCases | src/main/java/org/bk/ass/sim/Simulator.java:222-243 | an off-map destination leaves everything in place; a flyer or a move within one tile ignores the grid; a ground body entering another tile moves only when that tile's counter is at most TILE_SIZE/8 - 1, and then shifts one unit from the old counter to the new one; otherwise it stays |
| Grid.MoveKeepsConsistent | src/main/java/org/bk/ass/sim/Simulator.java:222-243 | moving one body of a group keeps every counter equal to its tile's wrapped occupancy |
| Grid.MoveFrom | src/main/java/org/bk/ass/sim/Simulator.java:200-205 | the reverse-order move of a group keeps its length, its flyer flags and the map bounds, and leaves the bodies below the starting slot untouched |
| Grid.MoveFromStep | src/main/java/org/bk/ass/sim/Simulator.java:200-205 | one more iteration of the reverse loop moves the next lower body on the grid the higher bodies left |
| Grid.MoveAll | src/main/java/org/bk/ass/sim/Simulator.java:199-220 | moving a whole group keeps its length, flyer flags and map bounds |
| Grid.MoveAllKeepsConsistent | src/main/java/org/bk/ass/sim/Simulator.java:199-220 | moving a whole group keeps the grid consistent with that group together with any other bodies around it |
| Grid.MoveFirstKeepsConsistent | src/main/java/org/bk/ass/sim/Simulator.java:181 | updateStats(playerA) keeps the grid consistent with both groups |
| Grid.MoveSecondKeepsConsistent | src/main/java/org/bk/ass/sim/Simulator.java:182 | updateStats(playerB) keeps the grid consistent with both groups |
| Grid.ShrinkFirstKeepsConsistent | src/main/java/org/bk/ass/sim/Simulator.java:179 | removeDead(playerA) leaves the grid consistent with A's survivors and all of B |
| Grid.ShrinkSecondKeepsConsistent | src/main/java/org/bk/ass/sim/Simulator.java:180 | removeDead(playerB) leaves the grid consistent with all of A and B's survivors |
| Grid.PlaceSecondKeepsConsistent | src/main/java/org/bk/ass/sim/Simulator.java:75-82 | addAgentB keeps the grid consistent with A followed by the grown B |
| Grid.Cleared | src/main/java/org/bk/ass/sim/Simulator.java:142-145 | zeroing the tiles of a group keeps the grid's size |
| Grid.ClearedEffect | src/main/java/org/bk/ass/sim/Simulator.java:142-149 | reset's loop zeroes exactly the tiles of the group's bodies and leaves every other counter as it was |
| Grid.ClearingBothEmpties | src/main/java/org/bk/ass/sim/Simulator.java:141-151 | after zeroing the tiles of both groups every counter of a consistent grid is zero |
| Unordered.RemoveAt | src/main/java/org/bk/ass/sim/Simulator.java:187-196 | swap-with-last removal: one element shorter, every other slot unchanged, the last element moved into the freed slot |
| Unordered.RemoveAtMultiset | src/main/java/org/bk/ass/sim/Simulator.java:190 | removal takes out exactly the removed element |
| Simulation.Simulator.AddAgentA | src/main/java/org/bk/ass/sim/Simulator.java:58-65 | an out-of-map agent is refused with nothing changed; otherwise it is appended to player A and exactly the counter under a ground agent is incremented; the invariant is kept for an agent new to both groups |
| Simulation.Simulator.AddAgentB | src/main/java/org/bk/ass/sim/Simulator.java:75-82 | the same for player B |
| Simulation.PlaceFirstIsSound | src/main/java/org/bk/ass/sim/Simulator.java:58-65 | appending a new in-map agent to A and placing its body keeps the simulator invariant |
| Simulation.PlaceSecondIsSound | src/main/java/org/bk/ass/sim/Simulator.java:75-82 | appending a new in-map agent to B and placing its body keeps the simulator invariant |
| Simulation.Simulator.EvalToInt | src/main/java/org/bk/ass/sim/Simulator.java:105-111 | the evaluation is the sum of the scorer over A's agents and over B's agents |
| Simulation.SumScoresConcat | src/main/java/org/bk/ass/sim/Simulator.java:105-111 | a group's score sum splits over any partition into a prefix and a suffix |
| Simulation.SumScoresPermutation | src/main/java/org/bk/ass/sim/Simulator.java:105-111 | two groups holding the same agents in any order have the same score sum, so the evaluation does not depend on the swap-removals that reorder a group |
| Simulation.Views | src/main/java/org/bk/ass/sim/Simulator.java:107-109 | the scorer sees one view per agent, slot by slot |
| Evaluation.SubtractSelfIsZero | src/main/java/org/bk/ass/sim/Simulator.java:327-346 | subtracting an evaluation from itself gives (0, 0) with delta 0 |
| Evaluation.DeltaOfSubtract | src/main/java/org/bk/ass/sim/Simulator.java:327-346 | the delta of a difference is the difference of the deltas |
| Evaluation.CrossAntisymmetric | src/main/java/org/bk/ass/sim/Simulator.java:335-337 | cross is antisymmetric and vanishes on equal evaluations |
| Evaluation.DotSymmetric | src/main/java/org/bk/ass/sim/Simulator.java:331-333 | dot is symmetric, and an evaluation dotted with itself is delta times (evalA + evalB) |
| Simulation.RoundUpFrames | src/main/java/org/bk/ass/sim/Simulator.java:129 | a positive frame count is raised to a multiple of frameSkip that is at least the count and less than count + frameSkip |
| Simulation.RoundUpFramesIsLeast | src/main/java/org/bk/ass/sim/Simulator.java:129 | the rounded count is the least multiple of frameSkip at or above the count |
| Simulation.RoundUpFramesIsWhole | src/main/java/org/bk/ass/sim/Simulator.java:129 | the rounded count is a whole number of frame skips |
| Simulation.RoundUp | src/main/java/org/bk/ass/sim/Simulator.java:129 | the floorMod rounding gives a whole number of frame skips in [frames, frames + frameSkip) |
| Simulation.WholeCountIsRounded | src/main/java/org/bk/ass/sim/Simulator.java:129 | any whole number of frame skips in [frames, frames + frameSkip) is the rounded count, so the rounding is unique |
| Simulation.CountdownStep | src/main/java/org/bk/ass/sim/Simulator.java:130-131 | each pass of the loop takes off one frame skip, and a positive count stays a non-negative whole number of frame skips that strictly decreases |
| Simulation.CountdownDone | src/main/java/org/bk/ass/sim/Simulator.java:130 | when the count condition ends the loop, no frames are left (or, for a negative count, the step budget is spent) |
| Simulation.DefaultCountdown | src/main/java/org/bk/ass/sim/Simulator.java:118-120 | simulate() leaves the rounded 96 frames less the frames stepped, a non-negative multiple of frameSkip |
| Simulation.Simulator.Simulate | src/main/java/org/bk/ass/sim/Simulator.java:128-139 | a positive count is rounded up and then loses one frame skip per step; the loop ends with 0 frames left, an empty group, or a step without activity; simulate(0) steps nothing and returns 0; a negative count only decreases; groups only lose agents; `rounds` holds one round per step, each a `Behaved` step, every answer but the last true, and the run stalled exactly when the last answer was false; the invariant is kept |
| Simulation.Simulator.SimulateDefault | src/main/java/org/bk/ass/sim/Simulator.java:118-120 | simulate() returns the rounded 96 frames less those stepped, a non-negative multiple of frameSkip, and stops early only on an empty group or a step without activity; `rounds` holds one `Behaved` step per step taken, and only the last may have answered false, exactly when the run stalled |
| Simulation.Simulator.CountDown | src/main/java/org/bk/ass/sim/Simulator.java:130-135 | the loop of simulate keeps the invariant and the frame bookkeeping and ends on one of its three exit conditions; `rounds` logs each step it ran as a `Behaved` round; all its answers are true except a last false one, exactly when the loop broke off on an inactive step |
| Simulation.Simulator.Tick | src/main/java/org/bk/ass/sim/Simulator.java:131-134 | one pass takes off one frame skip and runs one whole step, keeping the invariant and the bookkeeping. It appends one round to the log; that round holds the groups and action log the step began with, the action log it left, its visits (the visit log's growth) and its answer, which is `running`; the extended log is `Answered`, so the new round is a `Behaved` step. From the post-behaviour states `ma` and `mb`, which keep the old bodies: each group becomes the `Cull` of its dead, the grid, positions and counters are as `Updated` describes, and every survivor is settled |
| Simulation.Simulator.Advance | src/main/java/org/bk/ass/sim/Simulator.java:132 | a step within the loop keeps the invariant, the visit log's prefix and group shrinkage; its answer, visits and runs are those of a `Behaved` step from the groups it began with; its second half is `Step`'s: `Cull` survivors of the post-behaviour healths, then `Updated`, with everyone settled |
| Simulation.Simulator.Lap | src/main/java/org/bk/ass/sim/Simulator.java:131-134 | one pass as the loop uses it: one frame skip less, an appended round that holds the groups, action logs, visits and answer of the step, and an extended log that is `Answered` |
| Simulation.Simulator.Step | src/main/java/org/bk/ass/sim/Simulator.java:163-184 | the behaviour runs exactly for the agents of A that are not locked down or stasised, from the last slot down, then for those of B; every run does what the side's behaviour dispatches and the runs are logged in that order; the answer is true exactly when some agent was immobilised or some run was active; each group becomes the swap-removal scan of its dead, judged on the healths the behaviours left; the grid in between counts exactly the survivors' ground bodies, and the final grid, positions and counters are those of moving and refreshing A's survivors and then B's; every survivor is alive, still and unhealed; the invariant is kept |
| Simulation.Scheduled | src/main/java/org/bk/ass/sim/Simulator.java:165-177 | only agents of the group that are neither locked down nor stasised have their behaviour run |
| Simulation.VisitedAgents | src/main/java/org/bk/ass/sim/Simulator.java:165-177 | the log of visits names the visited agents in order |
| Simulation.Simulator.ActAll | src/main/java/org/bk/ass/sim/Simulator.java:165-171 | one group's loop runs the behaviour for exactly the scheduled agents, last slot first, each run being what the behaviour dispatches and appended to the log in that order; it is active exactly when some agent is immobilised or some run is active |
| Simulation.Simulator.ActA | src/main/java/org/bk/ass/sim/Simulator.java:165-171 | player A's loop as ActAll states it, with A's behaviour, and with the bodies of both groups unchanged |
| Simulation.Simulator.ActB | src/main/java/org/bk/ass/sim/Simulator.java:172-178 | player B's loop as ActAll states it, with B's behaviour, and with the bodies of both groups unchanged |
| Simulation.Simulator.ActBoth | src/main/java/org/bk/ass/sim/Simulator.java:164-178 | A's scheduled agents run before B's, the log grows by A's runs and then B's, and the step is active exactly when either group had an immobilised agent or an active run |
| Simulation.Simulator.Behave | src/main/java/org/bk/ass/sim/Simulator.java:164-178 | both behaviour loops keep both groups' membership and order and the invariant, and report the groups' states afterwards, whose bodies are those at entry and whose healths are the ones removeDead then tests |
| Simulation.Simulator.Consult | src/main/java/org/bk/ass/sim/Simulator.java:170 | one behaviour call for an agent of the group runs what the side's behaviour dispatches for it, logging exactly those runs |
| Simulation.DispatchedConcerns | src/main/java/org/bk/ass/sim/Simulator.java:276-293 | every run the dispatcher starts for an agent is a run for that agent |
| Simulation.OnlyScheduledAct | src/main/java/org/bk/ass/sim/Simulator.java:165-177 | every primitive behaviour a step runs is run for an agent of the group that is neither locked down nor stasised |
| Simulation.TraceOrigin | src/main/java/org/bk/ass/sim/Simulator.java:165-177 | each logged run comes from one visit of the loop |
| Simulation.Simulator.SimUnit | src/main/java/org/bk/ass/sim/Simulator.java:170 | a player's behaviour is either the role-based dispatcher or one custom behaviour run once |
| Simulation.Simulator.RoleBasedSimUnit | src/main/java/org/bk/ass/sim/Simulator.java:276-293 | a suicider runs only the suicider behaviour, else a healer only the healer behaviour; a repairer runs the repairer behaviour and is done if that was active, else it falls through to the attacker behaviour; everyone else runs the attacker behaviour; the answer is that of the last behaviour run |
| Simulation.Simulator.Act | src/main/java/org/bk/ass/sim/Simulator.java:306-310 | an unseen behaviour is run once and its answer logged |
| Simulation.Simulator.RemoveDead | src/main/java/org/bk/ass/sim/Simulator.java:186-197 | the survivors are the group after the swap-removal scan of its dead; the counter of each removed ground agent is decremented once |
| Simulation.Simulator.Bury | src/main/java/org/bk/ass/sim/Simulator.java:190-192 | one removal swap-removes the agent and decrements its counter, keeping the grid drained by exactly the removed bodies |
| Simulation.Simulator.TakeOff | src/main/java/org/bk/ass/sim/Simulator.java:191 | a removed ground agent's counter is decremented, a flyer's grid is untouched |
| Simulation.Healths | src/main/java/org/bk/ass/sim/Simulator.java:189 | the health removeDead tests, slot by slot |
| Simulation.CullKeepsOnlyTheLiving | src/main/java/org/bk/ass/sim/Simulator.java:186-197 | every agent removeDead keeps has health at least 1 |
| Simulation.CullKeepsTheLiving | src/main/java/org/bk/ass/sim/Simulator.java:186-197 | every agent with health at least 1 is kept |
| Simulation.CullShrinks | src/main/java/org/bk/ass/sim/Simulator.java:186-197 | the survivors are a sub-multiset of the group |
| Simulation.CullKeepsDistinct | src/main/java/org/bk/ass/sim/Simulator.java:186-197 | removeDead keeps a group free of duplicates and adds no agent |
| Simulation.CullDropsOnly | src/main/java/org/bk/ass/sim/Simulator.java:186-197 | every survivor was in the group |
| Simulation.CullFirstIsSound | src/main/java/org/bk/ass/sim/Simulator.java:179 | removeDead(playerA) keeps the simulator invariant |
| Simulation.CullSecondIsSound | src/main/java/org/bk/ass/sim/Simulator.java:180 | removeDead(playerB) keeps the simulator invariant |
| Simulation.RemoveAtKeepsDistinct | src/main/java/org/bk/ass/sim/Simulator.java:190 | a swap-removal keeps a group free of duplicates and adds no agent |
| Simulation.Simulator.ReapBoth | src/main/java/org/bk/ass/sim/Simulator.java:179-180 | both groups lose exactly their dead, judged on their healths at entry, keep only agents they had, and their states become the same scan of the states at entry; the invariant is kept, and everyone left is alive |
| Simulation.Simulator.ReapA | src/main/java/org/bk/ass/sim/Simulator.java:179 | removeDead(playerA) as a state change: A becomes its survivors, the invariant is kept |
| Simulation.Simulator.ReapB | src/main/java/org/bk/ass/sim/Simulator.java:180 | removeDead(playerB) as a state change |
| Simulation.Simulator.ReapAndRefresh | src/main/java/org/bk/ass/sim/Simulator.java:179-182 | from the given post-behaviour states: each group becomes its survivors, the grid in between counts exactly their ground bodies, and the final grid, positions and counters come from moving and refreshing A's survivors then B's; all are alive, still and unhealed |
| Simulation.Simulator.Conclude | src/main/java/org/bk/ass/sim/Simulator.java:179-182 | the second half of step, leaving the logs alone, with the same outcome as ReapAndRefresh |
| Simulation.Simulator.Settle | src/main/java/org/bk/ass/sim/Simulator.java:181-182 | with the survivors of the given states on the grid left by removeDead, the two updateStats calls finish what Updated describes, keeping the groups and the invariant |
| Simulation.CullStates | src/main/java/org/bk/ass/sim/Simulator.java:186-197 | the scan of a group of agents and the scan of their states keep the same slots |
| Simulation.CullWithin | src/main/java/org/bk/ass/sim/Simulator.java:186-197 | the survivors of a group drawn from some pool are drawn from it too |
| Simulation.LogAnswer | src/main/java/org/bk/ass/sim/Simulator.java:130-134 | logging one more `Behaved` round after a log of true-answering rounds gives an `Answered` log, stalled exactly when that round answered false; when it answered true the streak goes on |
| Simulation.StreakLast | src/main/java/org/bk/ass/sim/Simulator.java:130-135 | a log of `Behaved` rounds that all answered true is the `Answered` log of a loop that ended without stalling |
| Simulation.RegenerateEffect | src/main/java/org/bk/ass/sim/Simulator.java:212-218 | cooldown and stim frames drop by frameSkip, shields rise by 7·frameSkip and energy by 8·frameSkip; plague damage is taken only while it is below the health, and regeneration adds 4·frameSkip; nothing is clamped |
| Simulation.RegenerateKeepsAlive | src/main/java/org/bk/ass/sim/Simulator.java:214-217 | plague never takes a living agent below 1 health |
| Simulation.TimesIsProduct | src/main/java/org/bk/ass/sim/Simulator.java:214 | the repeated sum standing for plague·frameSkip is the product |
| Simulation.RefreshSettles | src/main/java/org/bk/ass/sim/Simulator.java:206-218 | after updateStats every living agent is still alive, stands still and is not marked healed |
| Simulation.Simulator.UpdatePosition | src/main/java/org/bk/ass/sim/Simulator.java:222-243 | the agent's position and the grid become the single-body move of its old position by its velocity |
| Simulation.Simulator.RefreshStats | src/main/java/org/bk/ass/sim/Simulator.java:206-218 | the agent's velocity is zeroed, the healed flag cleared and its counters regenerated |
| Simulation.Simulator.UpdateAgent | src/main/java/org/bk/ass/sim/Simulator.java:201-218 | one agent is moved before its counters are updated |
| Simulation.Simulator.UpdateAt | src/main/java/org/bk/ass/sim/Simulator.java:200-218 | updating the agent in one slot changes only that agent |
| Simulation.Simulator.UpdateStats | src/main/java/org/bk/ass/sim/Simulator.java:199-220 | the grid becomes the reverse-order move of the whole group, each agent ends at its move's position, and its counters are refreshed |
| Simulation.Simulator.UpdateGroup | src/main/java/org/bk/ass/sim/Simulator.java:199-220 | the same, as whole-group equations on bodies and counters |
| Simulation.Simulator.RefreshBoth | src/main/java/org/bk/ass/sim/Simulator.java:181-182 | both groups' counters are refreshed; the grid and the bodies become those of moving A first and then B over the grid they start on; everyone is settled, and the invariant is kept |
| Simulation.Simulator.RefreshA | src/main/java/org/bk/ass/sim/Simulator.java:181 | updateStats(playerA): the grid and A's bodies become the whole-group move of A's bodies by their velocities, A's counters are refreshed, and B's bodies, velocities and counters are left alone |
| Simulation.Simulator.RefreshB | src/main/java/org/bk/ass/sim/Simulator.java:182 | updateStats(playerB): the same for B over the grid A left, with A left alone |
| Simulation.MoveFirstIsSound | src/main/java/org/bk/ass/sim/Simulator.java:181 | moving A keeps the simulator invariant |
| Simulation.MoveSecondIsSound | src/main/java/org/bk/ass/sim/Simulator.java:182 | moving B keeps the simulator invariant |
| Simulation.Bodies | src/main/java/org/bk/ass/sim/Simulator.java:61-62 | the grid-relevant part of each agent, slot by slot |
| Simulation.Velocities | src/main/java/org/bk/ass/sim/Simulator.java:223-224 | each agent's velocity, slot by slot |
| Simulation.AllStats | src/main/java/org/bk/ass/sim/Simulator.java:206-218 | each agent's counters, slot by slot |
| Simulation.Simulator.ClearTiles | src/main/java/org/bk/ass/sim/Simulator.java:142-149 | one loop of reset zeroes the tiles under the group's agents, from the last slot down |
| Simulation.Simulator.Reset | src/main/java/org/bk/ass/sim/Simulator.java:141-156 | both groups become empty and every counter is zero, which is a state independent of the one before, so reset is idempotent |
| Simulation.Simulator.ClearBoth | src/main/java/org/bk/ass/sim/Simulator.java:142-149 | the two loops of reset leave every counter of a valid grid zero |
| Simulation.EmptySound | src/main/java/org/bk/ass/sim/Simulator.java:150-156 | two empty groups over an all-zero grid satisfy the simulator invariant |
| Repair.Healed | src/main/java/org/bk/ass/RepairerBehavior.java:59-62 | a repair adds the rate and cuts the result back to the maximum health: never above the maximum, exact when within it |
| Repair.HealedRaises | src/main/java/org/bk/ass/RepairerSimulator.java:39-42 | a repair with a non-negative rate keeps health within [old health, maximum], and leaves it unchanged exactly when the rate is 0 or the ally was at maximum |
| Repair.PickedIsUnique | src/main/java/org/bk/ass/RepairerBehavior.java:28-47 | the loop-free description of a scan has at most one ally and distance |
| Repair.PickedNothing | src/main/java/org/bk/ass/RepairerSimulator.java:14-33 | a scan chooses nothing exactly when no eligible ally is nearer than Integer.MAX_VALUE; a choice is an eligible ally of the group at the reported distance |
| Repair.PickedNearest | src/main/java/org/bk/ass/RepairerSimulator.java:19-27 | a choice out of repair range is a nearest eligible ally |
| Repair.PicksInRange | src/main/java/org/bk/ass/RepairerSimulator.java:19-27 | when some eligible ally is within repair range, the scan chooses one within range |
| Repair.ApproachOrRepair | src/main/java/org/bk/ass/RepairerBehavior.java:51-64 | with no choice it answers false and steers nothing; otherwise it answers true, and the chosen ally's health becomes the capped repair when within range and stays when out of range |
| RepairerBehavior.Scan | src/main/java/org/bk/ass/RepairerBehavior.java:28-47 | the reverse scan chooses what the description says for mechanical, unstasised, damaged allies other than the repairer, read from the last slot down |
| RepairerBehavior.SimUnit | src/main/java/org/bk/ass/RepairerBehavior.java:15-65 | when the stickiness test passes the last ally is kept at its distance and no scan happens, else the scan's choice; the choice, possibly none, becomes the last ally; the answer is whether there was a choice; only the chosen ally's health changes, by the capped repair when in range |
| RepairerBehavior.StickyKeepsHealthyAlly | src/main/java/org/bk/ass/RepairerBehavior.java:20-26 | a damaged repairer within range of a last ally at full health sticks to it though the intended test would not, and its repair leaves that ally's health unchanged |
| RepairerBehavior.HealthyRepairerNeverSticks | src/main/java/org/bk/ass/RepairerBehavior.java:20-26 | a repairer at full health never sticks, even to a damaged last ally in range |
| RepairerBehavior.SimUnitIntended | src/main/java/org/bk/ass/RepairerBehavior.java:15-65 | simUnit with the health check on the last ally: as SimUnit, and an ally is only ever chosen while it is damaged |
| RepairerSimulator.Scan | src/main/java/org/bk/ass/RepairerSimulator.java:14-29 | the forward scan chooses what the description says for mechanical, damaged allies other than the repairer, stasised or not, read from slot 0 up |
| RepairerSimulator.SimUnit | src/main/java/org/bk/ass/RepairerSimulator.java:11-45 | the scan's choice is approached and repaired within range; the answer is whether there was a choice; only the chosen ally's health changes |
| Jps.FindPath | src/main/java/org/bk/ass/path/Jps.java:23-28 | a search from a cell to itself is the path of length 0 that is exactly that cell; any other search is the open-list search's answer |
| Jps.StopIsFirst | src/main/java/org/bk/ass/path/Jps.java:45-53 | a scan has only one stopping step: the first that is blocked or a jump point |
| Jps.LandingIsJumpPoint | src/main/java/org/bk/ass/path/Jps.java:45-53 | a scan that lands reaches its landing cell over open cells only and lands on the target or a cell with a forced neighbour; one that lands nowhere was stopped by a blocked cell |
| Jps.MaskTestIsForced | src/main/java/org/bk/ass/path/Jps.java:44-51 | the bitmask test (a & b) != 0 is exactly the forced-neighbour test, and a = ~b carries the next cell's blocked sides forward |
| Jps.JumpHorizontal | src/main/java/org/bk/ass/path/Jps.java:40-54 | the scan along row py by dx stops at the first step that is blocked or a jump point, answering that cell if it is open and null if it is blocked |
| Jps.JumpVertical | src/main/java/org/bk/ass/path/Jps.java:57-71 | the same scan down or up column px by dy, with neighbours px - 1 and px + 1 |

## Left out

- Simulation.Simulator.Simulate: the round log records each step's behaviour loops (`Behaved`), not its second half. `Tick`, `Advance` and `Step` state that second half for every pass, but `CountDown` and `Simulate` do not log it, so they do not restate that each round removed its dead, moved and refreshed the living, and left them settled. The loop's proof with those facts is too costly to verify.
- Simulation.Simulator.Simulate: the round log does not chain its rounds, that is, it does not state that each round begins from the groups and action log the previous round left; `Tick` states the groups and action log each round begins from, and what it leaves.
- Simulation.Simulator.Simulate: a negative frame count runs until a group is empty or a step is inactive, which need not happen. The model bounds it with a step budget `fuel`, and a run may also end once that budget is spent.
- Jps.JumpHorizontal: the map is an abstract walkability predicate whose open cells lie inside a bounded square. That bound is the loop's termination argument. An unbounded map on which the scan never meets a wall is not modelled.
- Jps.JumpVertical: the same bounded-map precondition as `Jps.JumpHorizontal`.
- Java's 32-bit `int` wrap-around is not modelled: score sums, `dot`, `cross`, `delta`, health and counter arithmetic, distances and `x += dx` in the scans use mathematical integers. The byte wrap-around of the collision counters is modelled.
- `UnorderedCollection.clearReferences` at the end of `simulate` is not part of this model, because its body is not shown. `removeAgentA` / `removeAgentB` are left out for the same reason: `UnorderedCollection.remove` is not shown.
- Death handlers are taken as no-ops, so agents a handler would add never enter a group.
- The attacker, healer, suicider and custom behaviours are not shown. Each is one abstract run (`Act`) with an arbitrary answer. It may change the combat counters, velocity and `lastAlly` of the agents of both groups, but not their positions, flags or group membership.
- What an unseen behaviour does to the agents (their health included) is unconstrained, so `Step` states the survivors and their moves in terms of the states the behaviours leave, not of the states before the step.
- The repair behaviours are modelled on their own. The role dispatcher runs the abstract repairer behaviour, not `RepairerBehavior.SimUnit`.
- `Simulator.Behavior.simUnit` receives `frameSkip`, but `RepairerBehavior.simUnit` as written has no such parameter. The two repair models take none.
- `AgentUtil.distanceSquared` is not shown. It is taken to be the squared Euclidean distance of the two positions. `AgentUtil.moveToward` is abstract and changes only the mover's velocity.
- Simulation.Simulator.UpdateStats: the Java `assert agent.healthShifted >= 0` becomes a precondition. `Step` discharges it, because `removeDead` runs first.
- The product `plague * frameSkip` is written as a repeated sum (`Times`); `Simulation.TimesIsProduct` shows that the two are equal.
- The getters `getAgentsA` / `getAgentsB`, the `HEALTH_AND_HALFED_SHIELD` scorer and `MIN_SIMULATION_RANGE` are not modelled. A scorer is any function of an agent's view.
- `AbstractPathFinder.searchFrom`, the open-list part of the search, is a parameter of `FindPath` and is not modelled. A path's floating-point (possibly infinite) length is an integer here.
- The scans compute their masks with the functions `BlockedMask` / `OpenMask` rather than inline. Each builds the same two bits from the same four walkability queries.
- The Java `assert dx != 0` (and `dy != 0`) becomes a precondition of the scans.
- Simulation.Simulator.AddAgentA: the Java code does not check that the agent is new; the model keeps the invariant only for an agent in neither group, so adding the same agent twice, or to both groups, is not modelled. The same holds for AddAgentB.

## Findings

| source | as written | input that shows it | evidently intended | confidence | as-written member | corrected member |
|---|---|---|---|---|---|---|
| src/main/java/org/bk/ass/RepairerBehavior.java:20 | the stickiness test checks the repairer's own `healthShifted < maxHealthShifted` | a damaged SCV within squared distance 25 of its last ally, which has been repaired to full health: it keeps that ally and "repairs" it by nothing, instead of scanning for another damaged ally; an SCV at full health never sticks to a damaged ally | keep repairing the last ally while that ally is still damaged and in range | medium, not executed | RepairerBehavior.StickyKeepsHealthyAlly | RepairerBehavior.SimUnitIntended |
