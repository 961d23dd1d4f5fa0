# Simulation coordination bookkeeping of the trading platform, in Dafny

This project models the sequential, self-contained part of the platform's
simulation/market coordination engine:

- the **offline simulation manager**'s own bookkeeping: the simulation list and
  its parallel run-count list behind a creation lock; agent registration, which
  maps a private (connection) ID to a public ID drawn from a running counter and
  may record the agent's name; the grouping of the registered agents for a
  simulation; and the run-count structure of the main loop, which makes
  `numRuns` passes over the simulations and runs simulation `j`
  `numSimulationRuns[j]` times in each pass;
- the **world manager**, a write-once cell: the first `createWorld` stores a
  world built from a domain manager and a market manager and locks; later calls
  are denied and change nothing;
- the **one-shot activity rule**, which sets a market state's `acceptable` flag
  to "this bid is not already among the recorded bids";
- the **Lemonade query rule**, which builds the Lemonade trade request from the
  market state and a ledger and stores it in the state.

Stateful Java objects are Dafny classes whose methods say, with `modifies` and
`old`, exactly what they change. The grouping loop, the run loops and
registration are each tied to a specification function (`AgentGroupings.Chunks`
/ `Groupings`, `RunSchedule.Schedule`, `Registrations.PublicIDs`), and what the
source promises is proved about those functions as lemmas.

Files: `options.dfy` (Option), `sequences.dfy` (Distinct), `agent_groupings.dfy`,
`registration.dfy`, `run_schedule.dfy`, `simulation_manager.dfy`,
`world_manager.dfy`, `market_state.dfy`, `one_shot_activity.dfy`,
`lemonade_query.dfy`.

Behaviour of the code that the model keeps:

- Registration is **not** idempotent. Registering a private ID again overwrites
  its public ID with the current counter and still increments the counter, so a
  public ID is skipped (`Registrations.ReregistrationSkipsPublicID`). The handler
  also returns the private ID it was given, not the public one.
- Grouping fills groups in order. The agents, in key order, are cut into
  consecutive chunks of the group size; the last chunk may be shorter. With a
  group size of zero or less there is exactly one group, holding every agent,
  and that group exists even when no agent is registered.
- A Java counting loop with a zero or negative bound runs no times. So a
  negative `numRuns` or `numSimulationRuns[j]` counts as zero
  (`RunSchedule.Iterations`), and the number of single runs is
  `max(0, numRuns) * Σ max(0, numSimulationRuns[j])`.

## Model

| member | source | states |
|---|---|---|
| `SimulationManagers.OfflineSimulationManager.constructor` | src/main/java/brown/platform/managers/library/OfflineSimulationManager.java:78-87 | A new manager is unlocked, has agent count 0, empty simulation and run-count lists, empty ID and name maps and an empty registration history. |
| `SimulationManagers.OfflineSimulationManager.CreateSimulation` | src/main/java/brown/platform/managers/library/OfflineSimulationManager.java:89-98 | While unlocked, appends exactly one simulation (group size, world manager) and one run count, so the lists stay index-aligned. Once locked, both lists are unchanged. The lock is outside its frame. |
| `SimulationManagers.OfflineSimulationManager.Lock` | src/main/java/brown/platform/managers/library/OfflineSimulationManager.java:100-103 | Sets the lock. No method clears it: the lock is in no other method's frame. |
| `SimulationManagers.OfflineSimulationManager.HandleRegistration` | src/main/java/brown/platform/managers/library/OfflineSimulationManager.java:139-155 | Maps the private ID to the old agent count and increments the count by exactly 1, whether or not the ID was registered before. Records the name only when the message carries one; otherwise the name map is unchanged. Returns the private ID. Extends the ghost registration history by the private ID, and keeps the map equal to `PublicIDs` of that history with the count equal to its length, so the `Registrations` lemmas (dense 0..n-1 numbering for distinct IDs) hold of the manager itself. Keeps every public ID below the count, and names only for registered IDs. |
| `SimulationManagers.OfflineSimulationManager.GetAgentIDs` | src/main/java/brown/platform/managers/library/OfflineSimulationManager.java:181-184 | Returns the private-to-public map, every value of which lies below the agent count. |
| `SimulationManagers.OfflineSimulationManager.SetManagers` | src/main/java/brown/platform/managers/library/OfflineSimulationManager.java:186-196 | Selecting simulation `j`, whose world manager must hold a world, makes its group size the current one. |
| `SimulationManagers.OfflineSimulationManager.SetAgentGroupings` | src/main/java/brown/platform/managers/library/OfflineSimulationManager.java:336-361 | The Java loop (filter incomplete groups, remove the first, append the agent, re-append) leaves exactly `Groupings(agentOrder, groupSize)`: consecutive chunks of the group size, or one group of all agents when the size is not positive. |
| `SimulationManagers.OfflineSimulationManager.RunPass` | src/main/java/brown/platform/managers/library/OfflineSimulationManager.java:126-132 | One pass over the simulations (the body of the outer loop) makes exactly `Pass(numSimulationRuns)` single runs: simulation `j`, in index order, `max(0,numSimulationRuns[j])` times. Afterwards the last simulation's group size and grouping are current, or nothing changed when there is no simulation. Every simulation's world manager must hold a world. |
| `SimulationManagers.OfflineSimulationManager.RunSimulation` | src/main/java/brown/platform/managers/library/OfflineSimulationManager.java:125-133 | The nested loops make exactly `Schedule(numRuns, numSimulationRuns)` single runs. That is `max(0,numRuns) * Σ max(0,numSimulationRuns[j])` in all, with simulation `j` in `max(0,numRuns) * max(0,numSimulationRuns[j])` of them. Afterwards the last simulation's group size and grouping are current. Every simulation's world manager must hold a world. |
| `AgentGroupings.ChunksShape` | src/main/java/brown/platform/managers/library/OfflineSimulationManager.java:338-353 | Every group has exactly `groupSize` agents except the last, which is non-empty and no larger. |
| `AgentGroupings.ChunksFlatten` | src/main/java/brown/platform/managers/library/OfflineSimulationManager.java:338-353 | Laying the groups end to end gives back the agent order. |
| `AgentGroupings.ChunksUnique` | src/main/java/brown/platform/managers/library/OfflineSimulationManager.java:338-353 | Any list of groups with that shape that lays out to the agent order is the chunking itself, so the groups are the consecutive chunks of the order. |
| `AgentGroupings.FlattenMember` | src/main/java/brown/platform/managers/library/OfflineSimulationManager.java:339-359 | An agent is in the laid-out order exactly when some group holds it. |
| `AgentGroupings.FlattenDisjoint` | src/main/java/brown/platform/managers/library/OfflineSimulationManager.java:339-359 | When the laid-out order repeats no agent, no agent is in two groups. |
| `AgentGroupings.GroupingsPartition` | src/main/java/brown/platform/managers/library/OfflineSimulationManager.java:338-360 | For distinct agents, the groups of either branch lay out to the agent order. Every agent is in exactly one group. A non-positive size gives exactly one group holding all agents in order. A positive size gives well-chunked groups. |
| `AgentGroupings.IncompleteOfChunked` | src/main/java/brown/platform/managers/library/OfflineSimulationManager.java:340-343 | On well-chunked groups the not-full filter yields the last group when it is not full, and nothing otherwise. |
| `AgentGroupings.RemoveFirstLast` | src/main/java/brown/platform/managers/library/OfflineSimulationManager.java:345 | Removing the last group by value removes exactly it when no earlier group has its size. |
| `AgentGroupings.ChunksSnoc` | src/main/java/brown/platform/managers/library/OfflineSimulationManager.java:343-352 | One more agent joins the last chunk if it has room and starts a new chunk otherwise. |
| `AgentGroupings.AddToChunks` | src/main/java/brown/platform/managers/library/OfflineSimulationManager.java:339-353 | One iteration of the Java loop, run on the chunks of the agents placed so far, gives the chunks of those agents plus the next. |
| `Registrations.LastRegistrationWins` | src/main/java/brown/platform/managers/library/OfflineSimulationManager.java:143 | After a sequence of registrations, a private ID's public ID is the position of its last registration. |
| `Registrations.RegisteredKeys` | src/main/java/brown/platform/managers/library/OfflineSimulationManager.java:143 | The map's keys are exactly the private IDs that registered. |
| `Registrations.PublicIDsBelowCount` | src/main/java/brown/platform/managers/library/OfflineSimulationManager.java:143 | Every public ID handed out is below the number of registrations. |
| `Registrations.DenseSequentialIDs` | src/main/java/brown/platform/managers/library/OfflineSimulationManager.java:143 | After n registrations with distinct private IDs on a fresh manager, the k-th registered agent has public ID k. The public IDs are exactly 0..n-1, in registration order. |
| `Registrations.ReregistrationSkipsPublicID` | src/main/java/brown/platform/managers/library/OfflineSimulationManager.java:143 | Registering the same private ID twice leaves it public ID 1; registration is not idempotent. |
| `RunSchedule.RepeatCount` | src/main/java/brown/platform/managers/library/OfflineSimulationManager.java:129-131 | The inner loop's runs of one simulation are exactly its run count of copies of its index. |
| `RunSchedule.PassLength` | src/main/java/brown/platform/managers/library/OfflineSimulationManager.java:126-132 | One pass over the simulations makes as many single runs as the run counts add up to. |
| `RunSchedule.PassCount` | src/main/java/brown/platform/managers/library/OfflineSimulationManager.java:126-132 | In one pass simulation `j` runs exactly `numSimulationRuns[j]` times (zero if negative), and no index outside the list occurs. |
| `RunSchedule.ScheduleLength` | src/main/java/brown/platform/managers/library/OfflineSimulationManager.java:125-133 | All passes together make `numRuns * Σ numSimulationRuns[j]` single runs. |
| `RunSchedule.ScheduleOccurrences` | src/main/java/brown/platform/managers/library/OfflineSimulationManager.java:125-133 | Simulation `j` takes part in exactly `numRuns * numSimulationRuns[j]` single runs. |
| `WorldManagers.WorldManager.constructor` | src/main/java/brown/platform/world/library/WorldManager.java:19-21 | A new world manager is unlocked and holds no world. |
| `WorldManagers.WorldManager.CreateWorld` | src/main/java/brown/platform/world/library/WorldManager.java:23-30 | The first call stores a world built from the given domain and market managers and locks. A later call leaves the world and the lock unchanged. The lock is set exactly when a world is stored. |
| `WorldManagers.WorldManager.GetWorld` | src/main/java/brown/platform/world/library/WorldManager.java:32-34 | Returns the stored world and changes nothing. A world is returned exactly when the manager is locked. |
| `OneShotActivity.IsAcceptable` | src/main/java/brown/rules/activityrules/library/OneShotActivity.java:10-14 | Afterwards the acceptable flag is false exactly when the bid is among the recorded bids, so with no recorded bids every bid is acceptable. Only the flag is in the frame, so the bids and every other field are unchanged. |
| `OneShotActivity.IsAcceptableTwice` | src/main/java/brown/rules/activityrules/library/OneShotActivity.java:10-14 | Checking the same bid twice gives the same flag both times: the rule is idempotent. |
| `LemonadeQuery.MakeChannel` | src/main/java/brown/rules/queryrules/library/LemonadeQuery.java:13-19 | Stores a trade request with agent ID 0 and outer mechanism `Lemonade`. Its channel carries the state's ID, the given ledger (the same object), the state's payment type and mechanism `SealedBid`. Only the trade-request field is in the frame. |

## Left out

- Message server, agent threads and barriers (`startMessageServer`, `startAgents`, the agent runnable, `notifyToRespond`, `waitForRegistrations`, `waitForBids`, `stopMessageServer`): threads, reflection and blocking I/O. `RunSimulation` starts after registration has finished, with the registered agents fixed.
- `runSingleSimulation`, `initializeAgents`, `runAuction`, `updateAuctions`, `sendSimulationReportMessages`, `giveTradeMessage`: calls into market, account, endowment and valuation managers whose code is not part of this model. A single run is recorded only as the index of its simulation.
- Utility aggregation and valuation sampling: they delegate to the utility manager and to valuation distributions, which are not part of this model.
- Timing (`Utils.sleep`, the delay parameters), logging, the simulation JSON file name and its getter, and the server port: they carry no bookkeeping that the model states.
- SimulationManagers.OfflineSimulationManager.SetManagers: only the group size is modelled; the manager references it also selects are left out, as their classes are not part of this model. The world lookup throws a NullPointerException when the simulation's world manager never created a world; the model does not model that exception and instead requires a stored world (in `RunSimulation`, for every simulation).
- SimulationManagers.OfflineSimulationManager.HandleRegistration: `agentCount` is an unbounded integer, so the 32-bit wrap-around after 2^31 registrations is not modelled.
- SimulationManagers.OfflineSimulationManager.GetAgentIDs: returns the map as a value; the Java method hands out the live map, which callers could then mutate (aliasing).
- SimulationManagers.OfflineSimulationManager.SetAgentGroupings: the order in which the Java hash map lists its keys is not specified, so it is a parameter that lists each registered private ID once. Before the first grouping, Java's `agentGroups` is null; the model uses an empty list.
- Market state: only the fields the two rules touch are modelled (ID, bids, acceptable flag, payment type, trade request). The mechanism-type enumeration has only the two constants used here. A payment type is identified by its constant's name. A trade request's channel is always a Lemonade channel. The ledger and the domain and market managers are objects with identity only.
- OneShotActivity.IsAcceptable: bid equality is Dafny `==` on a type parameter, standing for the trade message's `equals`, which is not part of this model.
- The Lemonade allocation rule and its test, the call-market agent, the server entry point, the bargain and call-market report messages, the market-rules record and the market-manager, valuation-config and information-revelation interfaces are not part of this model: they are strategy, configuration, data carriers or interfaces whose behaviour lives in code not part of this model.
