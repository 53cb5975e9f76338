# Schelling segregation model: the kernel and the snapshot reshaping

This project models two things in Dafny:

- the simulation kernel of a browser demo of Schelling's segregation model (`schelling.go`);
- the browser code that reshapes the kernel's snapshots for plotting (`www/js/schelling.js`).

The kernel's pieces are these:

- A population of agents has positions in the unit square and one of two types.
- An agent is happy at a location when at least `k` of its `n` nearest other agents share its type.
- Every iteration, the unhappy agents are collected.
- Each unhappy agent then draws random locations until it finds one it would be happy at. All agents are judged against the population as it was before anyone moved.
- The movers are then written back.
- The run records the initial placement and one deep-copied snapshot per iteration. It stops early once nobody is unhappy.

The browser side turns the list of `[x, y, t]` snapshots into three shapes:

- parallel columns for Plotly;
- flat records tagged with their iteration, for Observable;
- animation frames with one green or orange marker per agent.

## Modules

- `agents.dfy` (`Agents`): points, agents (the `[x, y, t]` triple), snapshots and the distance.
- `counting.dfy` (`Counting`): neighbour records, counting, the sort by distance, and the fact that the count over the first `n` sorted entries does not depend on how ties were ordered, unless a tie straddles the `n`-th place.
- `happiness.dfy` (`Happiness`): the candidate list of `isAgentHappyAtLocation` and the happiness rule.
- `relocation.dfy` (`Relocation`): the rejection loop on a finite stream of draws, the set of unhappy agents, and the simultaneous relocation as a function on snapshots. It also holds the drain-order discrepancy of `moveAgents` (see Findings).
- `simulation.dfy` (`Simulation`): the driver loop as a value, `Course`. This is the sequence of snapshots a run records, and whether it stalled.
- `schelling.dfy` (`Schelling`): the kernel in its own imperative form.
  - `Status` is a class over three arrays.
  - `DeepCopy` and `Json` are its methods.
  - `IsAgentHappyAtLocation`, `UnhappyAgents`, `MoveAgents` and `Simulate` are loops, each proved against the functions above.
- `plotting.dfy` (`Plotting`): `data_for_plotly`, `data_for_observable` and the frame loop of `plotly_animated`, as loops proved against specification functions.
- `wrappers.dfy` (`Wrappers`): `Option`.

## Randomness and the outside world

The kernel's random numbers come in as parameters:

- `x0`, `y0` and `coins` give the initial placement. Agent `i` sits at `(x0[i], y0[i])` and has type true when `coins[i] == 1`.
- `draws(it)(i)` is the finite stream of candidate locations that agent `i` tries on iteration `it`.

The kernel's search never gives up. When a stream runs out without an acceptable location, the model reports it instead:

- `MoveAgents` returns `ok == false` and writes nothing.
- `Simulate` returns `stalled == true`.

The kernel itself would go on drawing forever and never return.

## Model

| member | source | states |
|---|---|---|
| Agents.SquaredDistance | schelling.go:45-49 | The distance used for ranking neighbours is non-negative and zero between equal points. It is the square of the kernel's Euclidean distance, so it orders every pair of distances the same way. |
| Agents.SquaredDistanceSymmetric | schelling.go:45-49 | The distance from `a` to `b` equals the distance from `b` to `a`. |
| Counting.CountSame | schelling.go:72-77 | The `st` counter: the number of entries of a given type, at most the list's length. `CountWherePermutation` shows it does not depend on the order of the list. |
| Counting.SortByDistance | schelling.go:67-69 | The sort keeps the number of candidates. `SortByDistanceSorts` proves the result is in ascending order of distance and a permutation of the input. |
| Counting.SortByDistanceSorts | schelling.go:67-69 | Sorting the candidates gives a list in ascending order of distance that is a permutation of the input. |
| Counting.SortedPrefixCountUnique | schelling.go:67-77 | Any two sorted permutations of one candidate list hold the same number of type-`t` entries among their first `n` when the `n`-th and `n+1`-th distances differ. |
| Counting.CountWherePermutation | schelling.go:72-77 | Counting same-type entries gives the same result for any reordering of the list. |
| Happiness.Neighbours | schelling.go:57-64 | The first loop's candidate list has one entry per agent other than `idx`: `len(all.ts) - 1` entries when `idx` is an agent. `NeighboursAreTheOthers` pins each entry to its agent. |
| Happiness.HappyAt | schelling.go:66-80 | The verdict of `isAgentHappyAtLocation`: the first `n` candidates after the sort hold at least `k` of type `t`. A threshold `k <= 0` always holds and one above `n` never does. `HappyIndependentOfTieOrder` shows the verdict is that of any sorted order without a tie at the `n`-th place. |
| Happiness.Happy | schelling.go:84-87 | `isAgentHappy`: the rule at the agent's own position and for its own type. A threshold `k <= 0` always holds and one above `n` never does. |
| Happiness.NeighboursAreTheOthers | schelling.go:57-64 | The candidate list holds every agent other than `idx` exactly once, in index order, each with its distance from `loc` and its type. Candidate `j` is agent `Other(idx, j)`, and agent `i` is candidate `Place(idx, i)`. |
| Happiness.OwnEntryIgnored | schelling.go:58-61 | Changing agent `idx`'s own entry does not change its candidate list. |
| Happiness.BoundsInAnyOrder | schelling.go:67-80 | For any arrangement of the candidates, including every order `sort.Slice` may give tied ones: with `same` of the `m` candidates of type `t`, the first `n` hold at least `k` of type `t` when `k <= same - (m - n)`, and fewer than `k` when `k > same`. |
| Happiness.HappyAtBounds | schelling.go:72-80 | For the model's verdict: a threshold `k <= 0` always holds and `k > n` never does. With `same` of the `m` candidates of type `t`, `k <= same - (m - n)` guarantees happiness and `k > same` rules it out. |
| Happiness.AmongOwnType | schelling.go:56-81 | When every other agent has type `t`, the location is acceptable exactly when `k <= n`. |
| Happiness.AmongOtherType | schelling.go:56-81 | When no other agent has type `t`, the location is acceptable exactly when `k <= 0`. |
| Happiness.HappyIndependentOfTieOrder | schelling.go:67-80 | For any sorted arrangement of the candidates that `sort.Slice` may produce, the verdict is the model's, provided the `n`-th and `n+1`-th distances do not tie. |
| Happiness.NearestDecides | schelling.go:56-81 | With `n = 1`, when one candidate is strictly nearest, the verdict depends only on that candidate's type. |
| Relocation.FirstAcceptedFrom | schelling.go:136-144 | The rejection loop stops at the first draw at or after `m` that the agent accepts. Every draw before it is rejected. It reaches the end of the stream only when none is accepted. |
| Relocation.Accepts | schelling.go:140 | The test of the rejection loop: agent `idx` would be happy at `p`, judged against the status before anyone moves and for the agent's own type. `FirstAcceptedFrom` and `NoAcceptableDraw` state the loop around it. |
| Relocation.FirstAccepted | schelling.go:136-144 | A location found is one of the agent's draws and one the agent accepts. |
| Relocation.NoAcceptableDraw | schelling.go:136-144 | The search fails exactly when no draw of the stream is acceptable. |
| Relocation.UnhappySet | schelling.go:94-119 | The agents `unhappyAgents` reports, all valid indices. `RejectedAreUnhappy` shows the collected list names exactly this set. |
| Relocation.RejectedLists | schelling.go:101-117 | The indices collected below `j` are distinct and in range. Each index with a false verdict appears, and no other. |
| Relocation.RejectedAreUnhappy | schelling.go:94-119 | Over the whole population, the collected indices are distinct and in range. An index is listed exactly when that agent is unhappy. Together they name the set of unhappy agents. |
| Relocation.ListsUnhappySet | schelling.go:94-119 | Any list holding exactly the unhappy agents names the set `UnhappySet`. |
| Relocation.RelocatedPlaces | schelling.go:127-157 | After the move, every mover sits at one of its own draws that it accepts, judged against the population before the move. Everybody else is where they were. Nobody changes type. |
| Relocation.FoundForEach | schelling.go:130-147 | When the search succeeded for every listed agent, every member of the list can relocate. |
| Relocation.StuckMover | schelling.go:136-147 | When one listed agent's draws hold no acceptable location, the relocation cannot be made. |
| Relocation.Relocated | schelling.go:127-157 | The population after `moveAgents` with every mover at the location its own search found. It has the population's size. `RelocatedPlaces` shows movers sit at accepted draws and nobody else moves. |
| Relocation.RelocatedByWrites | schelling.go:150-156 | Writing each found location to the agent it was found for, and touching nobody else, gives exactly the relocated snapshot. |
| Relocation.Step | schelling.go:94-157 | One iteration's `unhappyAgents` followed by `moveAgents`, or nothing when some search never succeeds. A step keeps the population's size. `StepMoves` and `StepFails` say what it moves and when it fails. |
| Relocation.StepMoves | schelling.go:180-188 | In one iteration nobody changes type and the happy agents stay put. Every unhappy agent moves to one of its own draws that it accepts. |
| Relocation.StepFails | schelling.go:180-188 | An iteration cannot complete exactly when some unhappy agent's draws hold no location it accepts. |
| Relocation.StepStaysInUnitSquare | schelling.go:136-155 | When the population and every draw lie in the unit square, so does the population after the step. |
| Relocation.SettledStepIsIdentity | schelling.go:182-184 | With nobody unhappy, the step moves nobody. |
| Relocation.AssignInDrainOrder | schelling.go:151-155 | The drain loop as written: the `j`-th location received goes to `unhappy[j]`. The population keeps its size. `AssignInDrainOrderAt` states where each agent ends up. |
| Relocation.AssignInDrainOrderAt | schelling.go:151-156 | With distinct indices, the drain loop writes the `j`-th received location to agent `unhappy[j]` and leaves everybody else alone. |
| Relocation.DrainInListOrderAgrees | schelling.go:151-156 | Had the locations been received in list order, the drain loop would give exactly the relocated snapshot. |
| Relocation.DrainOrderMisplacesAgent | schelling.go:151-155 | Received in completion order, the drain loop can place an agent at a location it never accepted (see Findings). |
| Simulation.Trajectory | schelling.go:176-192 | The driver loop over any state: a run starts with its first state and records at least that one. `TrajectoryLength`, `TrajectoryChain`, `TrajectorySettles` and `TrajectoryStalls` say how it ends. |
| Simulation.TrajectoryLength | schelling.go:176-192 | A run records at most one state per iteration on top of the first. A stall happens within the iterations. |
| Simulation.TrajectoryChain | schelling.go:176-192 | Every recorded state after the first is the step taken from the one before, at its own iteration, because that one was not settled. |
| Simulation.TrajectorySettles | schelling.go:182-184 | A run that neither stalled nor used up its iterations ends in a settled state. |
| Simulation.TrajectoryStalls | schelling.go:176-192 | A stalled run stalled within its iterations, on an unsettled last state from which no step could be made. |
| Simulation.TrajectoryKeeps | schelling.go:176-192 | A property of the first state that every step preserves holds of every recorded state. |
| Simulation.Initial | schelling.go:163-173 | The initial snapshot has one agent per coin. Agent `i` is at `(x0[i], y0[i])` and has type true exactly when its coin is 1. |
| Simulation.InitialInUnitSquare | schelling.go:167-170 | Coordinates drawn from `[0, 1)` place every agent in the unit square. |
| Simulation.NoneUnhappy | schelling.go:182 | The list of unhappy agents is empty exactly when everybody is happy. |
| Simulation.Advance | schelling.go:180-188 | One iteration on that iteration's draws. A successor keeps the population's size. `StalledAdvance` says why an iteration cannot be made. |
| Simulation.Settled | schelling.go:182 | The early-stop test `len(unhappy) == 0`: nobody is unhappy. `NoneUnhappy` shows it means everybody is happy, and `KernelDecision` ties it to the empty list `UnhappyAgents` returns. |
| Simulation.Course | schelling.go:176-192 | The snapshots `Simulate` records from the initial placement, and whether it stalled. `CourseNext`, `CourseEnds`, `CourseLength`, `CourseSettles` and `CourseStalls` state how it goes on and how it ends. |
| Simulation.CourseKeepsTypes | schelling.go:159-193 | Every recorded snapshot has the size and the types of the initial one. |
| Simulation.CourseKeepsLength | schelling.go:159-193 | Every recorded snapshot has the size of the initial one. |
| Simulation.CourseSteps | schelling.go:176-191 | Snapshot `j + 1` is the kernel's step from snapshot `j` on the draws of iteration `j`. It was taken because somebody in snapshot `j` was unhappy. |
| Simulation.CourseNext | schelling.go:176-191 | Within the iterations, a snapshot has a successor exactly when it has unhappy agents and their move can be made, and the successor is that move. For the last snapshot, the run stalled exactly when somebody was unhappy. |
| Simulation.CourseEnds | schelling.go:176 | When the iterations are used up, the snapshot reached is the last, and the run did not stall. |
| Simulation.CourseLength | schelling.go:173-192 | A run records at most `iterations + 1` snapshots: the initial one and one per iteration. |
| Simulation.CourseSettles | schelling.go:182-184 | A run that stopped early without stalling ends with every agent happy. |
| Simulation.CourseStalls | schelling.go:136-147 | A stalled run stalled within its iterations. In its last snapshot, some unhappy agent's draws for the next iteration hold no location it accepts. |
| Simulation.StalledAdvance | schelling.go:136-147 | A step that cannot be made leaves some unhappy agent with no acceptable draw. |
| Simulation.CourseInUnitSquare | schelling.go:159-193 | When the placement and every draw lie in the unit square, so does every recorded snapshot. |
| Simulation.SettledCourse | schelling.go:182-184 | When everybody is happy at the start, the run records the initial snapshot alone. |
| Simulation.ThresholdAboveNeighboursStalls | schelling.go:134-147 | With a threshold `sameType` above `neighbours`, every agent is unhappy and rejects every location, so the first iteration stalls and only the initial snapshot is recorded. |
| Schelling.Status.constructor | schelling.go:173 | The status wraps the given slices without copying them. |
| Schelling.Status.DeepCopy | schelling.go:19-25 | The copy lives in new storage and holds the same entries, so it holds the same snapshot. |
| Schelling.Status.Json | schelling.go:28-34 | One triple `(xs[i], ys[i], ts[i])` per agent, in index order, which is the status's snapshot. |
| Schelling.IsAgentHappyAtLocation | schelling.go:56-81 | The loops return exactly the happiness rule `HappyAt` on the current status. |
| Schelling.IsAgentHappy | schelling.go:84-87 | The verdict is the rule applied at the agent's own position and for its own type. |
| Schelling.UnhappyAgents | schelling.go:94-119 | The result lists each unhappy agent exactly once and nothing else, and names the set `UnhappySet`. |
| Schelling.FindLocation | schelling.go:134-145 | One goroutine's search finds a location exactly when the stream holds an acceptable draw, and then it is the first such draw. |
| Schelling.FindLocations | schelling.go:129-147 | All searches are judged against the unchanged status. Success gives the first acceptable draw of each listed agent. Failure means some listed agent has none. |
| Schelling.WriteLocations | schelling.go:150-156 | Each listed agent is moved to the location paired with it and everybody else is untouched. |
| Schelling.MoveAgents | schelling.go:127-157 | The move succeeds exactly when every listed agent can relocate, and then the status holds the relocated snapshot. Otherwise the status is unchanged. |
| Schelling.Populate | schelling.go:163-173 | New slices hold the initial placement. |
| Schelling.KernelDecision | schelling.go:180-188 | The unhappy list is empty exactly when the snapshot is settled. Otherwise the move succeeds exactly when the kernel's step can be taken, and it gives that step. |
| Schelling.Iteration | schelling.go:177-191 | The loop body copies the last status into new storage. It reports settled exactly when nobody is unhappy. When it reports a move, the copy holds the kernel's step from the last snapshot. |
| Schelling.Simulate | schelling.go:159-194 | The returned statuses are exactly the snapshots of `Course`, in order, each over its own storage, and the stall flag is `Course`'s. |
| Plotting.DataForPlotly | www/js/schelling.js:1-15 | One column record per snapshot, in order. Each has columns `x`, `y` and `t` of the snapshot's length holding the agents' fields at their indices. |
| Plotting.TransposesBack | www/js/schelling.js:4-12 | Zipping the columns back row by row gives the snapshot again. |
| Plotting.TransposesUnique | www/js/schelling.js:4-12 | A snapshot's columns are determined by the snapshot. |
| Plotting.DataForObservable | www/js/schelling.js:17-30 | The result is the iteration-major tagging of all snapshots, `Tagged`. |
| Plotting.TagSnapshot | www/js/schelling.js:19-27 | The records of one snapshot, one per agent. `TaggedAt` states each record's fields and iteration. |
| Plotting.Tagged | www/js/schelling.js:17-30 | All snapshots' records, iteration by iteration. `TaggedLength`, `TaggedAt` and `TaggedOrdered` state its size, its order and its fields. |
| Plotting.TaggedLength | www/js/schelling.js:18-29 | There is one record per agent of every snapshot: the sum of all snapshot sizes. |
| Plotting.TaggedAt | www/js/schelling.js:19-27 | Agent `i` of snapshot `j` is at position `TotalSize(res[..j]) + i`. Its `x`, `y` and `kind` come from triple positions 0, 1 and 2, and its `iteration` is `j`. |
| Plotting.TaggedOrdered | www/js/schelling.js:19-27 | Every record's iteration names an existing snapshot, and iterations never decrease along the list. |
| Plotting.Colours | www/js/schelling.js:114 | One colour per type, in order. `ColoursShowTypes` and `ColoursInjective` show the colours encode the types. |
| Plotting.Ids | www/js/schelling.js:90 | One marker id per agent of the first snapshot. `FramesKeepIdentities` shows marker `p` keeps id `p` in every frame. |
| Plotting.ColoursShowTypes | www/js/schelling.js:114 | One colour per agent: green exactly for type true, orange exactly for type false. |
| Plotting.ColoursInjective | www/js/schelling.js:114 | The colours determine the types. |
| Plotting.PlotlyAnimated | www/js/schelling.js:88-119 | There is one frame per snapshot, named by its index, carrying that snapshot's positions and colours. The marker ids are `0 .. m-1`, with `m` the first snapshot's size. The starting trace shows the first frame. |
| Plotting.FramesKeepIdentities | www/js/schelling.js:88-119 | When all snapshots have the first one's size, as one run's do, every frame carries exactly one id per marker. Marker `p` has id `p` in every frame. |

## Left out

- Host I/O: the `syscall/js` boundary `jsonWrapper`, the blocking `main`, the worker script, and the argument-count check at schelling.go:198-200. They are I/O glue without logic of their own.
- The `fmt.Println` progress line at schelling.go:181 is output only.
- Plotting and the page: `observable_plot`, `observable_facet_plot`, the Plotly layout, slider and buttons, `Plotly.newPlot`, DOM access and `sim_and_vis`. They are rendering and UI.
- Concurrency: the goroutines of `unhappyAgents` and `moveAgents` run one after the other. They are independent and all read the same unchanged status. Scheduling decides two things: the order results arrive in, and which numbers of the shared `rand` source each `moveAgents` goroutine gets. The arrival order matters only in the drain loop, which is a finding. Which numbers each goroutine gets is covered because `draws` is a free parameter of every lemma, so every way of sharing out the random numbers is included.
- Floating point: coordinates are exact reals.
- `distance` takes a square root. The model ranks neighbours by the squared distance, which orders every pair of distances the same way. No square root is modelled.
- Randomness (`rand.Float64`, `rand.IntN`) comes in as parameters: the placement `x0`, `y0`, `coins`, and the finite draw streams `draws`.
- The kernel samples forever. A finite stream with no acceptable draw is reported as a stall (`ok == false`, `stalled == true`), where the kernel would never return.
- Schelling.Simulate: does not model that the kernel never returns on a stall, because the model must terminate. Instead it returns the snapshots recorded so far, with `stalled` set.
- Happiness.HappyAt: fixes one sorted order, an insertion sort.
  - `sort.Slice` is not stable, so its order among tied distances is unspecified.
  - `HappyIndependentOfTieOrder` shows that any sorted order gives the same verdict unless a tie straddles the `n`-th place.
  - When a tie does straddle it, the kernel's verdict depends on the order the sort happens to produce, and the model's may differ. `BoundsInAnyOrder` still bounds the kernel's count in that case, for every order.
- `ns[:n]` for `n` larger than the number of candidates is left out. Go accepts this while `n` is within the slice's capacity, reading zero-valued entries, and panics beyond it. The model requires `0 <= n < len(agents)` wherever a verdict is needed (`Fits`).
- Schelling.Simulate: requires `neighbours` to fit the population only when `iterations > 0`. With no iterations no verdict is computed.
- Schelling.UnhappyAgents: the contract does not fix the order of the result. The kernel collects indices from a channel in completion order. The model lists them ascending, but states only that each unhappy agent appears exactly once.
- Plotting.PlotlyAnimated: requires at least one snapshot. On an empty list the page throws at `data[0].x` (www/js/schelling.js:90). The only caller passes `Simulate`'s result, which always holds the initial snapshot.
- Marker ids are the numbers `0 .. m-1` rather than their decimal strings. Frames are named by their index.
- The `.slice()` copies in `plotly_animated` are not modelled, because sequences are values.
- In the code, the threshold `sameType` is an integer count `k` of same-type neighbours, compared with `>=`; the model takes it as that count.
- `Simulate`'s returned sequence includes the initial placement and stops early when nobody is unhappy. It holds between 1 and `iterations + 1` snapshots.
- The code does not break ties in distance by agent index. The model's insertion sort is stable, and the candidates are listed in index order, so among tied candidates it ranks the lower index first. No contract relies on that: `HappyIndependentOfTieOrder` gives the verdict for any sorted order when no tie straddles the `n`-th place.
- New locations are not checked for collisions and the number of draws is not bounded. There is no configuration validation and no error value.
- A threshold `sameType` above `neighbours` can never be met. Every search then samples forever and the kernel never returns; the model records a stall in the first iteration (`ThresholdAboveNeighboursStalls`). The page reads the threshold from the `happy_ratio` input at www/js/schelling.js:216 with `neighbours` fixed at 10. The input's bounds are set in the page markup, which is not part of this model.

## Findings

| source | as written | input that shows it | evidently intended | confidence | as-written member | corrected member |
|---|---|---|---|---|---|---|
| schelling.go:151-155 | The drain loop takes the found locations from `newLocs` in the order the goroutines finished, and writes the `k`-th one received to `unhappy[k]`, whichever agent it was found for. | Four agents on a line: (0,0) type true, (0.1,0) false, (0.5,0) true, (0.6,0) false. Parameters `n = 1`, `k = 1`. All four agents are unhappy, so `unhappy == [0, 1, 2, 3]`. Agents 0, 1, 2 and 3 accept (0.45,0), (0.65,0), (0.02,0) and (0.15,0). If agent 1's search finishes first and agent 0's second, (0.65,0) is written to agent 0 and (0.45,0) to agent 1, and each rejects the location it gets. | Each agent is moved to the location its own search accepted. | high, not executed | Relocation.DrainOrderMisplacesAgent | Schelling.MoveAgents |
