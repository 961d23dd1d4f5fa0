/**
 * The one-shot activity rule: a bid is admitted only if the same bid is not
 * already among the bids recorded in the market state.
 */
module OneShotActivity {

  import opened MarketStates

  /**
   * Sets the state's acceptable flag to "this bid is not already recorded".
   * Only the flag is written; the bid collection is read and left as it was.
   */
  method IsAcceptable<Bid(==)>(state: MarketState<Bid>, aBid: Bid)
    modifies state`acceptable
    ensures state.acceptable <==> aBid !in state.bids
    ensures state.bids == [] ==> state.acceptable
  {
    var acceptable := !(aBid in state.bids);
    state.acceptable := acceptable;
  }

  /**
   * Checking the same bid twice gives the same verdict both times, and the same
   * verdict as the state's own contents call for.
   */
  method IsAcceptableTwice<Bid(==)>(state: MarketState<Bid>, aBid: Bid) returns (first: bool, second: bool)
    modifies state`acceptable
    ensures first == second
    ensures second == state.acceptable
    ensures first <==> aBid !in state.bids
  {
    IsAcceptable(state, aBid);
    first := state.acceptable;
    IsAcceptable(state, aBid);
    second := state.acceptable;
  }
}
