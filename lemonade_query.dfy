/**
 * The Lemonade query rule: builds the trade request agents receive in a Lemonade
 * game and stores it in the market state.
 */
module LemonadeQuery {

  import opened Options
  import opened MarketStates

  /**
   * Stores in the state a new trade request for agent 0, of outer mechanism
   * `Lemonade`, whose channel carries the state's market ID, the given ledger
   * (the same object, not a copy), the state's payment type and mechanism
   * `SealedBid`. No other field of the state is written.
   */
  method MakeChannel<Bid>(state: MarketState<Bid>, ledger: Ledger)
    modifies state`tRequest
    ensures state.tRequest.Some?
    ensures state.tRequest.value.agentID == 0
    ensures state.tRequest.value.mechanism == Lemonade
    ensures state.tRequest.value.channel.marketID == state.id
    ensures state.tRequest.value.channel.ledger == ledger
    ensures state.tRequest.value.channel.paymentType == state.paymentType
    ensures state.tRequest.value.channel.mechanism == SealedBid
  {
    var constructedRequest := TradeRequest(0,
      LemonadeChannel(state.id, ledger, state.paymentType, SealedBid),
      Lemonade);
    state.tRequest := Some(constructedRequest);
  }
}
