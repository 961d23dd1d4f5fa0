/**
 * The agent-grouping rule of the offline simulation manager, as values.
 *
 * With a positive group size the manager walks the agents in order and puts each
 * one into the first group that is not yet full (taking that group out of the list
 * and appending it again), or into a new group when every group is full. The
 * outcome is the agent order cut into consecutive chunks of `n`, the last chunk
 * possibly shorter. `Chunks` is that outcome written directly; the lemmas here
 * characterise it and show that one step of the manager's loop extends it.
 */
module AgentGroupings {

  import opened Sequences

  /** The groups laid end to end. */
  function Flatten(groups: seq<seq<int>>): seq<int>
  {
    if groups == [] then [] else groups[0] + Flatten(groups[1..])
  }

  /** Every group is non-empty and holds at most `n` agents; all but the last hold exactly `n`. */
  predicate WellChunked(groups: seq<seq<int>>, n: int)
  {
    forall k :: 0 <= k < |groups| ==>
      0 < |groups[k]| <= n && (k < |groups| - 1 ==> |groups[k]| == n)
  }

  /** The agent order cut into consecutive chunks of `n`. */
  function Chunks(agents: seq<int>, n: int): seq<seq<int>>
    requires n > 0
    decreases |agents|
  {
    if |agents| <= n then (if agents == [] then [] else [agents])
    else [agents[..n]] + Chunks(agents[n..], n)
  }

  /**
   * The groups the manager builds for one simulation: chunks of `groupSize` when
   * it is positive, otherwise one group holding every agent (even when there are none).
   */
  function Groupings(agents: seq<int>, groupSize: int): seq<seq<int>>
  {
    if groupSize > 0 then Chunks(agents, groupSize) else [agents]
  }

  /** The groups with fewer than `n` agents, in list order (the stream filter of the manager). */
  function Incomplete(groups: seq<seq<int>>, n: int): seq<seq<int>>
  {
    if groups == [] then []
    else (if |groups[0]| < n then [groups[0]] else []) + Incomplete(groups[1..], n)
  }

  /** The list with its first element equal to `g` taken out (Java's List.remove(Object)). */
  function RemoveFirst(groups: seq<seq<int>>, g: seq<int>): seq<seq<int>>
  {
    if groups == [] then []
    else if groups[0] == g then groups[1..]
    else [groups[0]] + RemoveFirst(groups[1..], g)
  }

  // ---------------------------------------------------------------------------
  // What the chunks are

  /** Every chunk has `n` agents except the last, which is non-empty and no larger. */
  lemma {:induction false} ChunksShape(agents: seq<int>, n: int)
    requires n > 0
    ensures WellChunked(Chunks(agents, n), n)
    decreases |agents|
  {
    if |agents| > n {
      ChunksShape(agents[n..], n);
      var rest := Chunks(agents[n..], n);
      assert Chunks(agents, n) == [agents[..n]] + rest;
      forall k | 0 < k < |Chunks(agents, n)|
        ensures Chunks(agents, n)[k] == rest[k - 1]
      {
      }
    }
  }

  /** Laying the chunks end to end gives back the agent order. */
  lemma {:induction false} ChunksFlatten(agents: seq<int>, n: int)
    requires n > 0
    ensures Flatten(Chunks(agents, n)) == agents
    decreases |agents|
  {
    if |agents| > n {
      var c := Chunks(agents, n);
      assert c[1..] == Chunks(agents[n..], n);
      ChunksFlatten(agents[n..], n);
      assert agents == agents[..n] + agents[n..];
    } else if agents != [] {
      assert Flatten([agents]) == agents + Flatten([]);
    }
  }

  /** A non-empty first group keeps the flattening non-empty. */
  lemma FlattenLength(groups: seq<seq<int>>)
    requires groups != []
    ensures |Flatten(groups)| >= |groups[0]|
  {
  }

  /**
   * The chunks are the only grouping with that shape and that order: any list of
   * groups shaped as `WellChunked` that lays out to `agents` is `Chunks(agents, n)`.
   */
  lemma {:induction false} ChunksUnique(groups: seq<seq<int>>, agents: seq<int>, n: int)
    requires n > 0
    requires WellChunked(groups, n) && Flatten(groups) == agents
    ensures groups == Chunks(agents, n)
    decreases |groups|
  {
    if groups == [] {
    } else if |groups| == 1 {
      assert Flatten(groups) == groups[0] + Flatten([]);
      assert agents == groups[0] && 0 < |agents| <= n;
      assert [groups[0]] == groups;
    } else {
      var tail := groups[1..];
      assert WellChunked(tail, n) by {
        forall k | 0 <= k < |tail| ensures 0 < |tail[k]| <= n && (k < |tail| - 1 ==> |tail[k]| == n) {
          assert tail[k] == groups[k + 1];
        }
      }
      FlattenLength(tail);
      assert |groups[0]| == n;
      assert agents[..n] == groups[0];
      assert agents[n..] == Flatten(tail);
      ChunksUnique(tail, agents[n..], n);
      assert groups == [groups[0]] + tail;
    }
  }

  /** An agent is laid out exactly when some group holds it. */
  lemma {:induction false} FlattenMember(groups: seq<seq<int>>, a: int)
    ensures a in Flatten(groups) <==> exists k :: 0 <= k < |groups| && a in groups[k]
  {
    if groups != [] {
      FlattenMember(groups[1..], a);
      if a in Flatten(groups[1..]) {
        var k :| 0 <= k < |groups[1..]| && a in groups[1..][k];
        assert a in groups[k + 1];
      }
      if exists k :: 0 <= k < |groups| && a in groups[k] {
        var k :| 0 <= k < |groups| && a in groups[k];
        if k > 0 {
          assert a in groups[1..][k - 1];
        }
      }
    }
  }

  /** When the layout repeats no agent, no agent is in two groups. */
  lemma {:induction false} FlattenDisjoint(groups: seq<seq<int>>, i: int, j: int, a: int)
    requires Distinct(Flatten(groups))
    requires 0 <= i < j < |groups| && a in groups[i]
    ensures a !in groups[j]
    decreases |groups|
  {
    var rest := Flatten(groups[1..]);
    assert Flatten(groups) == groups[0] + rest;
    if i == 0 {
      forall x | x in rest ensures x !in groups[0] {
        var q :| 0 <= q < |rest| && rest[q] == x;
        forall p | 0 <= p < |groups[0]| ensures groups[0][p] != x {
          assert Flatten(groups)[p] == groups[0][p];
          assert Flatten(groups)[|groups[0]| + q] == x;
        }
      }
      FlattenMember(groups[1..], a);
      assert a !in rest;
      assert groups[j] == groups[1..][j - 1];
    } else {
      assert Distinct(rest) by {
        forall p, q | 0 <= p < q < |rest| ensures rest[p] != rest[q] {
          assert rest[p] == Flatten(groups)[|groups[0]| + p];
          assert rest[q] == Flatten(groups)[|groups[0]| + q];
        }
      }
      assert groups[i] == groups[1..][i - 1] && groups[j] == groups[1..][j - 1];
      FlattenDisjoint(groups[1..], i - 1, j - 1, a);
    }
  }

  /**
   * The groups of one simulation partition the agents: they lay out to the agent
   * order, every agent is in some group, and, as the agents are distinct, in one only.
   * With `groupSize <= 0` there is exactly one group.
   */
  lemma GroupingsPartition(agents: seq<int>, groupSize: int)
    requires Distinct(agents)
    ensures Flatten(Groupings(agents, groupSize)) == agents
    ensures forall a :: a in agents ==>
      exists k :: 0 <= k < |Groupings(agents, groupSize)| && a in Groupings(agents, groupSize)[k]
    ensures forall i, j, a :: 0 <= i < j < |Groupings(agents, groupSize)| && a in Groupings(agents, groupSize)[i] ==>
      a !in Groupings(agents, groupSize)[j]
    ensures groupSize <= 0 ==> Groupings(agents, groupSize) == [agents]
    ensures groupSize > 0 ==> WellChunked(Groupings(agents, groupSize), groupSize)
  {
    var g := Groupings(agents, groupSize);
    if groupSize > 0 {
      ChunksFlatten(agents, groupSize);
      ChunksShape(agents, groupSize);
    } else {
      assert Flatten(g) == agents + Flatten([]);
    }
    forall a | a in agents ensures exists k :: 0 <= k < |g| && a in g[k] {
      FlattenMember(g, a);
    }
    forall i, j, a | 0 <= i < j < |g| && a in g[i] ensures a !in g[j] {
      FlattenDisjoint(g, i, j, a);
    }
  }

  // ---------------------------------------------------------------------------
  // One step of the manager's loop

  /** In a well-chunked list only the last group can be incomplete. */
  lemma {:induction false} IncompleteOfChunked(groups: seq<seq<int>>, n: int)
    requires WellChunked(groups, n)
    ensures Incomplete(groups, n) ==
      if groups != [] && |groups[|groups| - 1]| < n then [groups[|groups| - 1]] else []
  {
    if groups != [] {
      var tail := groups[1..];
      assert WellChunked(tail, n) by {
        forall k | 0 <= k < |tail| ensures 0 < |tail[k]| <= n && (k < |tail| - 1 ==> |tail[k]| == n) {
          assert tail[k] == groups[k + 1];
        }
      }
      IncompleteOfChunked(tail, n);
    }
  }

  /** Removing the last group, when no earlier group has its size, drops exactly that group. */
  lemma {:induction false} RemoveFirstLast(groups: seq<seq<int>>)
    requires groups != []
    requires forall k :: 0 <= k < |groups| - 1 ==> |groups[k]| != |groups[|groups| - 1]|
    ensures RemoveFirst(groups, groups[|groups| - 1]) == groups[..|groups| - 1]
  {
    if |groups| > 1 {
      var tail := groups[1..];
      assert tail[|tail| - 1] == groups[|groups| - 1];
      forall k | 0 <= k < |tail| - 1 ensures |tail[k]| != |tail[|tail| - 1]| {
        assert tail[k] == groups[k + 1];
      }
      RemoveFirstLast(tail);
      assert groups[..|groups| - 1] == [groups[0]] + tail[..|tail| - 1];
    }
  }

  /** One more agent joins the last chunk if it has room, and starts a new chunk otherwise. */
  lemma {:induction false} ChunksSnoc(agents: seq<int>, x: int, n: int)
    requires n > 0
    ensures var c := Chunks(agents, n);
      Chunks(agents + [x], n) ==
        if c != [] && |c[|c| - 1]| < n then c[..|c| - 1] + [c[|c| - 1] + [x]] else c + [[x]]
    decreases |agents|
  {
    var c := Chunks(agents, n);
    if |agents| > n {
      var rest := agents[n..];
      assert (agents + [x])[..n] == agents[..n];
      assert (agents + [x])[n..] == rest + [x];
      ChunksSnoc(rest, x, n);
      var c' := Chunks(rest, n);
      assert c == [agents[..n]] + c';
      if c' != [] && |c'[|c'| - 1]| < n {
        assert c[..|c| - 1] == [agents[..n]] + c'[..|c'| - 1];
      }
    } else if |agents| == n {
      assert (agents + [x])[..n] == agents;
      assert (agents + [x])[n..] == [x];
      assert Chunks([x], n) == [[x]];
      assert c == [agents];
      assert Chunks(agents + [x], n) == [agents] + [[x]];
    } else if agents == [] {
      assert agents + [x] == [x];
      assert Chunks([x], n) == [[x]];
      assert c == [];
    } else {
      assert c == [agents] && c[..0] == [];
    }
  }

  /**
   * The body of the manager's loop, run on the chunks of the agents placed so far,
   * gives the chunks of those agents and the next one.
   */
  lemma AddToChunks(agents: seq<int>, x: int, n: int)
    requires n > 0
    ensures var c := Chunks(agents, n); var inc := Incomplete(c, n);
      Chunks(agents + [x], n) ==
        if |inc| > 0 then RemoveFirst(c, inc[0]) + [inc[0] + [x]] else c + [[x]]
  {
    var c := Chunks(agents, n);
    ChunksShape(agents, n);
    IncompleteOfChunked(c, n);
    ChunksSnoc(agents, x, n);
    if c != [] && |c[|c| - 1]| < n {
      RemoveFirstLast(c);
    }
  }
}
