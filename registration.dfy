/**
 * Public agent IDs handed out by the simulation manager's registration handler.
 *
 * Each registration stores `privateID -> agentCount` and then increments
 * `agentCount`, whatever the map already held for that private ID. `PublicIDs`
 * is the map a fresh manager holds after a sequence of registrations, one such
 * step per element.
 */
module Registrations {

  import opened Sequences

  /** The private-to-public map after registering `privateIDs`, in order, on a fresh manager. */
  function PublicIDs(privateIDs: seq<int>): map<int, int>
  {
    if privateIDs == [] then map[]
    else PublicIDs(privateIDs[..|privateIDs| - 1])[privateIDs[|privateIDs| - 1] := |privateIDs| - 1]
  }

  /**
   * A private ID's public ID is the position of its LAST registration: a later
   * registration of the same private ID overwrites the earlier one. Exactly the
   * registered private IDs are keys.
   */
  lemma {:induction false} LastRegistrationWins(privateIDs: seq<int>, k: int)
    requires 0 <= k < |privateIDs|
    requires forall m :: k < m < |privateIDs| ==> privateIDs[m] != privateIDs[k]
    ensures privateIDs[k] in PublicIDs(privateIDs)
    ensures PublicIDs(privateIDs)[privateIDs[k]] == k
    decreases |privateIDs|
  {
    var n := |privateIDs|;
    if k < n - 1 {
      LastRegistrationWins(privateIDs[..n - 1], k);
    }
  }

  /** The keys of the map are the private IDs that registered. */
  lemma {:induction false} RegisteredKeys(privateIDs: seq<int>)
    ensures forall p :: p in PublicIDs(privateIDs) <==> p in privateIDs
    decreases |privateIDs|
  {
    var n := |privateIDs|;
    if n > 0 {
      RegisteredKeys(privateIDs[..n - 1]);
      assert privateIDs == privateIDs[..n - 1] + [privateIDs[n - 1]];
    }
  }

  /** Every public ID handed out lies below the number of registrations. */
  lemma {:induction false} PublicIDsBelowCount(privateIDs: seq<int>)
    ensures forall p :: p in PublicIDs(privateIDs) ==> 0 <= PublicIDs(privateIDs)[p] < |privateIDs|
    decreases |privateIDs|
  {
    if privateIDs != [] {
      PublicIDsBelowCount(privateIDs[..|privateIDs| - 1]);
    }
  }

  /**
   * With distinct private IDs, registration numbers the agents densely and in
   * order: the k-th registered agent gets public ID k, so the public IDs are
   * exactly 0 .. n-1, one per agent.
   */
  lemma {:induction false} DenseSequentialIDs(privateIDs: seq<int>)
    requires Distinct(privateIDs)
    ensures forall p :: p in PublicIDs(privateIDs) <==> p in privateIDs
    ensures forall k :: 0 <= k < |privateIDs| ==> PublicIDs(privateIDs)[privateIDs[k]] == k
    ensures forall p :: p in PublicIDs(privateIDs) ==> 0 <= PublicIDs(privateIDs)[p] < |privateIDs|
  {
    RegisteredKeys(privateIDs);
    PublicIDsBelowCount(privateIDs);
    forall k | 0 <= k < |privateIDs| ensures PublicIDs(privateIDs)[privateIDs[k]] == k {
      LastRegistrationWins(privateIDs, k);
    }
  }

  /**
   * Registration is not idempotent: registering one private ID twice leaves it
   * public ID 1, so public ID 0 is never seen again although two agents were counted.
   */
  lemma ReregistrationSkipsPublicID(p: int)
    ensures PublicIDs([p, p]) == map[p := 1]
  {
    assert [p, p][..1] == [p];
    assert [p][..0] == [];
    assert PublicIDs([p]) == map[p := 0];
  }
}
