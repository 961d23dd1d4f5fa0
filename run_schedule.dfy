/**
 * The run-count structure of the offline simulation manager's main loop.
 *
 * The manager makes `numRuns` passes over its simulations; in each pass it runs
 * simulation `j` `numSimulationRuns[j]` times. A Java counting loop whose bound is
 * zero or negative does not run, so a negative count contributes nothing. Each
 * single run is recorded by the index of the simulation it belongs to.
 */
module RunSchedule {

  /** How many times a Java `for (k = 0; k < x; k++)` loop runs. */
  function Iterations(x: int): nat
  {
    if x > 0 then x else 0
  }

  /** `k` copies of the simulation index `j`. */
  function Repeat(j: nat, k: nat): seq<nat>
  {
    if k == 0 then [] else Repeat(j, k - 1) + [j]
  }

  /** The single runs of one pass over the simulations with these run counts. */
  function Pass(counts: seq<int>): seq<nat>
  {
    if counts == [] then []
    else Pass(counts[..|counts| - 1]) + Repeat(|counts| - 1, Iterations(counts[|counts| - 1]))
  }

  /** The single runs of `numRuns` passes. */
  function Schedule(numRuns: int, counts: seq<int>): seq<nat>
  {
    if numRuns <= 0 then [] else Schedule(numRuns - 1, counts) + Pass(counts)
  }

  /** The total number of single runs in one pass. */
  function TotalRuns(counts: seq<int>): nat
  {
    if counts == [] then 0
    else TotalRuns(counts[..|counts| - 1]) + Iterations(counts[|counts| - 1])
  }

  /** `Repeat(j, k)` holds `k` copies of `j` and nothing else. */
  lemma {:induction false} RepeatCount(j: nat, k: nat)
    ensures |Repeat(j, k)| == k
    ensures forall i :: multiset(Repeat(j, k))[i] == if i == j then k else 0
  {
    if k > 0 {
      RepeatCount(j, k - 1);
      assert multiset(Repeat(j, k)) == multiset(Repeat(j, k - 1)) + multiset{j};
    }
  }

  /** One pass makes as many single runs as its run counts add up to. */
  lemma {:induction false} PassLength(counts: seq<int>)
    ensures |Pass(counts)| == TotalRuns(counts)
    decreases |counts|
  {
    if counts != [] {
      PassLength(counts[..|counts| - 1]);
      RepeatCount(|counts| - 1, Iterations(counts[|counts| - 1]));
    }
  }

  /** One pass runs simulation `j` exactly its run count of times, and nothing outside the list. */
  lemma {:induction false} PassCount(counts: seq<int>, j: nat)
    ensures multiset(Pass(counts))[j] == if j < |counts| then Iterations(counts[j]) else 0
    decreases |counts|
  {
    if counts != [] {
      var n := |counts|;
      var front := counts[..n - 1];
      PassCount(front, j);
      RepeatCount(n - 1, Iterations(counts[n - 1]));
      var before: seq<nat>, last: seq<nat> := Pass(front), Repeat(n - 1, Iterations(counts[n - 1]));
      var mb: multiset<nat>, ml: multiset<nat> := multiset(before), multiset(last);
      assert Pass(counts) == before + last;
      assert multiset(Pass(counts)) == mb + ml;
      assert ml[j] == if j == n - 1 then Iterations(counts[n - 1]) else 0;
      if j < n - 1 {
        assert counts[j] == front[j];
      }
    }
  }

  /** One more pass adds one more multiple. */
  lemma MulSucc(r: nat, c: nat)
    ensures (r + 1) * c == r * c + c
  {
  }

  /** The whole schedule makes `numRuns * Σ numSimulationRuns[j]` single runs (negative counts read as zero). */
  lemma {:induction false} ScheduleLength(numRuns: int, counts: seq<int>)
    ensures |Schedule(numRuns, counts)| == Iterations(numRuns) * TotalRuns(counts)
    decreases Iterations(numRuns)
  {
    if numRuns > 0 {
      ScheduleLength(numRuns - 1, counts);
      PassLength(counts);
      var r, t := Iterations(numRuns - 1), TotalRuns(counts);
      assert |Schedule(numRuns, counts)| == r * t + t;
      MulSucc(r, t);
    }
  }

  /** Simulation `j` takes part in `numRuns * numSimulationRuns[j]` single runs, and no other index occurs. */
  lemma {:induction false} ScheduleOccurrences(numRuns: int, counts: seq<int>, j: nat)
    ensures multiset(Schedule(numRuns, counts))[j] ==
      if j < |counts| then Iterations(numRuns) * Iterations(counts[j]) else 0
    decreases Iterations(numRuns)
  {
    if numRuns > 0 {
      ScheduleOccurrences(numRuns - 1, counts, j);
      PassCount(counts, j);
      var r := Iterations(numRuns - 1);
      var c := if j < |counts| then Iterations(counts[j]) else 0;
      var before: seq<nat>, pass: seq<nat> := Schedule(numRuns - 1, counts), Pass(counts);
      var mb: multiset<nat>, mp: multiset<nat> := multiset(before), multiset(pass);
      assert Schedule(numRuns, counts) == before + pass;
      assert multiset(Schedule(numRuns, counts)) == mb + mp;
      assert mb[j] == r * c && mp[j] == c;
      assert Iterations(numRuns) == r + 1;
      MulSucc(r, c);
    }
  }
}
