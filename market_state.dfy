/**
 * The parts of a market's state that the activity and query rules read and write,
 * and the trade-request record the Lemonade query builds.
 *
 * The market state's own class is not part of this model: only the fields those
 * two rules touch are. A bid is of a type parameter whose equality stands for the
 * trade message's `equals`.
 */
module MarketStates {

  import opened Options

  /** An accounting ledger; its contents are not modelled, only its identity. */
  class Ledger {
  }

  /** The mechanism types the Lemonade query uses (the enumeration has others). */
  datatype MechanismType = SealedBid | Lemonade

  /** A payment type, identified by the name of its enumeration constant. */
  datatype PaymentType = PaymentType(name: string)

  /** The agent channel of a Lemonade game. */
  datatype LemonadeChannel = LemonadeChannel(
    marketID: int,
    ledger: Ledger,
    paymentType: PaymentType,
    mechanism: MechanismType)

  /** A trade request sent to agents. */
  datatype TradeRequest = TradeRequest(
    agentID: int,
    channel: LemonadeChannel,
    mechanism: MechanismType)

  class MarketState<Bid> {
    /** The market's ID. */
    var id: int
    /** The bids recorded this tick. */
    var bids: seq<Bid>
    /** Whether the most recently checked bid was admitted. */
    var acceptable: bool
    var paymentType: PaymentType
    /** The pending trade request; `None` stands for null. */
    var tRequest: Option<TradeRequest>
  }
}
