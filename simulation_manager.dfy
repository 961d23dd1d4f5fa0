/**
 * The offline simulation manager's own bookkeeping: the list of simulations and
 * their run counts behind a creation lock, agent registration, the grouping of
 * agents for a simulation, and the run-count structure of the main loop.
 *
 * The message server, the agent threads, the barriers and the per-simulation
 * managers are collaborators outside this model. The order in which the Java
 * map hands out its keys is a parameter, `agentOrder`.
 */
module SimulationManagers {

  import opened Options
  import opened Sequences
  import opened AgentGroupings
  import opened RunSchedule
  import opened Registrations
  import opened WorldManagers

  /** A configured simulation: its group size and the world manager it runs in. */
  datatype Simulation = Simulation(groupSize: int, worldManager: WorldManager)

  /** What the manager reads from a registration: the agent's name, which may be null. */
  datatype RegistrationMessage = RegistrationMessage(name: Option<string>)

  /** `order` lists the keys of `ids`, each exactly once. */
  predicate EnumeratesKeys(order: seq<int>, ids: map<int, int>)
  {
    Distinct(order) && (forall a :: a in order ==> a in ids) && (forall a :: a in ids ==> a in order)
  }

  class OfflineSimulationManager {
    var simulations: seq<Simulation>
    /** Run count of each simulation, index for index with `simulations`. */
    var numSimulationRuns: seq<int>
    var lock: bool

    var privateToPublic: map<int, int>
    var idToName: map<int, string>
    var agentGroups: seq<seq<int>>
    var agentCount: int
    /** Group size of the simulation currently selected. */
    var groupSize: int
    /** The private IDs registered so far, in order, repeats included. */
    ghost var registered: seq<int>

    /**
     * The two simulation lists stay index-aligned, the ID map and the count are
     * those the registration history produces (so the lemmas of `Registrations`
     * apply to them), and only registered agents have names.
     */
    ghost predicate Valid()
      reads this`simulations, this`numSimulationRuns, this`privateToPublic,
        this`registered, this`agentCount, this`idToName
    {
      && |simulations| == |numSimulationRuns|
      && privateToPublic == PublicIDs(registered)
      && agentCount == |registered|
      && idToName.Keys <= privateToPublic.Keys
    }

    /** A new manager is unlocked and holds no simulation, no agent and no name. */
    constructor ()
      ensures Valid()
      ensures !lock && agentCount == 0
      ensures simulations == [] && numSimulationRuns == []
      ensures privateToPublic == map[] && idToName == map[]
      ensures registered == []
    {
      simulations := [];
      lock := false;
      numSimulationRuns := [];
      privateToPublic := map[];
      idToName := map[];
      agentCount := 0;
      agentGroups := [];
      groupSize := 0;
      registered := [];
    }

    /**
     * While unlocked, appends one simulation and its run count; once locked, the
     * creation is denied and nothing changes. The lock itself is untouched.
     */
    method CreateSimulation(numRuns: int, size: int, worldManager: WorldManager)
      requires Valid()
      modifies this`simulations, this`numSimulationRuns
      ensures Valid()
      ensures !lock ==> simulations == old(simulations) + [Simulation(size, worldManager)]
      ensures !lock ==> numSimulationRuns == old(numSimulationRuns) + [numRuns]
      ensures lock ==> simulations == old(simulations) && numSimulationRuns == old(numSimulationRuns)
    {
      if !lock {
        simulations := simulations + [Simulation(size, worldManager)];
        numSimulationRuns := numSimulationRuns + [numRuns];
      } else {
        // creation denied: the simulation manager is locked
      }
    }

    /** Locks the manager against further creation; no method unlocks it. */
    method Lock()
      requires Valid()
      modifies this`lock
      ensures Valid()
      ensures lock
    {
      lock := true;
    }

    /**
     * Maps the private ID to the current agent count and increments the count,
     * even when the private ID was registered before. Records the name only when
     * the message carries one. Returns the private ID it was given.
     */
    method HandleRegistration(registrationMessage: RegistrationMessage, agentPrivateID: int) returns (r: int)
      requires Valid()
      modifies this`privateToPublic, this`agentCount, this`idToName, this`registered
      ensures Valid()
      ensures registered == old(registered) + [agentPrivateID]
      ensures forall p :: p in privateToPublic ==> 0 <= privateToPublic[p] < agentCount
      ensures privateToPublic == old(privateToPublic)[agentPrivateID := old(agentCount)]
      ensures agentCount == old(agentCount) + 1
      ensures registrationMessage.name.Some? ==>
        idToName == old(idToName)[agentPrivateID := registrationMessage.name.value]
      ensures registrationMessage.name.None? ==> idToName == old(idToName)
      ensures r == agentPrivateID
    {
      privateToPublic := privateToPublic[agentPrivateID := agentCount];
      agentCount := agentCount + 1;
      registered := registered + [agentPrivateID];
      assert registered[..|registered| - 1] == old(registered);
      PublicIDsBelowCount(registered);
      if registrationMessage.name.Some? {
        idToName := idToName[agentPrivateID := registrationMessage.name.value];
      } else {
        // a registration without a name is only logged
      }
      r := agentPrivateID;
    }

    /** The private-to-public ID map. */
    method GetAgentIDs() returns (ids: map<int, int>)
      requires Valid()
      ensures ids == privateToPublic
      ensures forall p :: p in ids ==> 0 <= ids[p] < agentCount
    {
      ids := privateToPublic;
      PublicIDsBelowCount(registered);
    }

    /**
     * Selects simulation `j`: its group size becomes the current one. The
     * simulation's world manager must hold a world (the lookup of its market
     * manager goes through it).
     */
    method SetManagers(j: int)
      requires Valid()
      requires 0 <= j < |simulations|
      requires simulations[j].worldManager.world.Some?
      modifies this`groupSize
      ensures Valid()
      ensures groupSize == simulations[j].groupSize
    {
      groupSize := simulations[j].groupSize;
    }

    /**
     * Groups the registered agents for the current simulation. With a positive
     * group size each agent, in key order, goes into the first group that is
     * not full (that group is taken out and appended again) or into a new
     * group; otherwise all agents form one group. The result is the key order
     * cut into consecutive chunks of the group size.
     */
    method SetAgentGroupings(agentOrder: seq<int>)
      requires Valid()
      requires EnumeratesKeys(agentOrder, privateToPublic)
      modifies this`agentGroups
      ensures Valid()
      ensures agentGroups == Groupings(agentOrder, groupSize)
    {
      agentGroups := [];
      if groupSize > 0 {
        var i := 0;
        while i < |agentOrder|
          invariant 0 <= i <= |agentOrder|
          invariant agentGroups == Chunks(agentOrder[..i], groupSize)
        {
          var agentID := agentOrder[i];
          AddToChunks(agentOrder[..i], agentID, groupSize);
          var incompleteAgentGroups := Incomplete(agentGroups, groupSize);
          if |incompleteAgentGroups| > 0 {
            var incompleteGroup := incompleteAgentGroups[0];
            agentGroups := RemoveFirst(agentGroups, incompleteGroup);
            incompleteGroup := incompleteGroup + [agentID];
            agentGroups := agentGroups + [incompleteGroup];
          } else {
            agentGroups := agentGroups + [[agentID]];
          }
          assert agentOrder[..i + 1] == agentOrder[..i] + [agentID];
          i := i + 1;
        }
        assert agentOrder[..i] == agentOrder;
      } else {
        var agentGroup := [];
        var i := 0;
        while i < |agentOrder|
          invariant 0 <= i <= |agentOrder|
          invariant agentGroup == agentOrder[..i]
        {
          agentGroup := agentGroup + [agentOrder[i]];
          i := i + 1;
        }
        assert agentOrder[..i] == agentOrder;
        agentGroups := agentGroups + [agentGroup];
      }
    }

    /**
     * One pass of the main loop: every simulation `j` in turn is selected, its
     * agents are grouped, and it is run `numSimulationRuns[j]` times. Returns the
     * simulation index of every single run of the pass, in order.
     */
    method RunPass(agentOrder: seq<int>) returns (pass: seq<nat>)
      requires Valid()
      requires EnumeratesKeys(agentOrder, privateToPublic)
      requires forall j :: 0 <= j < |simulations| ==> simulations[j].worldManager.world.Some?
      modifies this`groupSize, this`agentGroups
      ensures Valid()
      ensures pass == Pass(numSimulationRuns)
      ensures simulations != [] ==>
        groupSize == simulations[|simulations| - 1].groupSize &&
        agentGroups == Groupings(agentOrder, groupSize)
      ensures simulations == [] ==> groupSize == old(groupSize) && agentGroups == old(agentGroups)
    {
      pass := [];
      var j := 0;
      while j < |simulations|
        invariant 0 <= j <= |simulations|
        invariant Valid()
        invariant pass == Pass(numSimulationRuns[..j])
        invariant j > 0 ==>
          groupSize == simulations[j - 1].groupSize &&
          agentGroups == Groupings(agentOrder, groupSize)
        invariant j == 0 ==> groupSize == old(groupSize) && agentGroups == old(agentGroups)
      {
        SetManagers(j);
        SetAgentGroupings(agentOrder);
        var k := 0;
        while k < numSimulationRuns[j]
          invariant 0 <= k <= Iterations(numSimulationRuns[j])
          invariant pass == Pass(numSimulationRuns[..j]) + Repeat(j, k)
        {
          // one single run of simulation j
          pass := pass + [j];
          k := k + 1;
        }
        assert numSimulationRuns[..j + 1][..j] == numSimulationRuns[..j];
        j := j + 1;
      }
      assert numSimulationRuns[..j] == numSimulationRuns;
    }

    /**
     * The run-count structure of a simulation run: `numRuns` passes, in each of
     * which every simulation `j` is selected, its agents are grouped, and it is
     * run `numSimulationRuns[j]` times. Returns the simulation index of every
     * single run, in order; afterwards the last simulation is the selected one.
     */
    method RunSimulation(numRuns: int, agentOrder: seq<int>) returns (calls: seq<nat>)
      requires Valid()
      requires EnumeratesKeys(agentOrder, privateToPublic)
      requires forall j :: 0 <= j < |simulations| ==> simulations[j].worldManager.world.Some?
      modifies this`groupSize, this`agentGroups
      ensures Valid()
      ensures calls == Schedule(numRuns, numSimulationRuns)
      ensures |calls| == Iterations(numRuns) * TotalRuns(numSimulationRuns)
      ensures forall j :: 0 <= j < |simulations| ==>
        multiset(calls)[j] == Iterations(numRuns) * Iterations(numSimulationRuns[j])
      ensures numRuns > 0 && simulations != [] ==>
        groupSize == simulations[|simulations| - 1].groupSize &&
        agentGroups == Groupings(agentOrder, groupSize)
      ensures !(numRuns > 0 && simulations != []) ==>
        groupSize == old(groupSize) && agentGroups == old(agentGroups)
    {
      calls := [];
      var i := 0;
      while i < numRuns
        invariant 0 <= i <= Iterations(numRuns)
        invariant Valid()
        invariant calls == Schedule(i, numSimulationRuns)
        invariant i > 0 && simulations != [] ==>
          groupSize == simulations[|simulations| - 1].groupSize &&
          agentGroups == Groupings(agentOrder, groupSize)
        invariant !(i > 0 && simulations != []) ==>
          groupSize == old(groupSize) && agentGroups == old(agentGroups)
      {
        var pass := RunPass(agentOrder);
        calls := calls + pass;
        i := i + 1;
      }
      ScheduleLength(numRuns, numSimulationRuns);
      forall j | 0 <= j < |simulations|
        ensures multiset(calls)[j] == Iterations(numRuns) * Iterations(numSimulationRuns[j])
      {
        ScheduleOccurrences(numRuns, numSimulationRuns, j);
      }
    }
  }
}
