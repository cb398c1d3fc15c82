/** The rows, identifiers and money of the auction service. */
module Domain {

  datatype Option<+T> = None | Some(value: T)

  /** UUIDs are naturals: only equality matters, and for schedule members their order. */
  type AuctionId = nat
  type ItemId = nat
  type UserId = nat
  /** One call of `PlaceBid`, `endAuctionWithResult` or `CreateAuction`. */
  type CallId = nat
  /** Nanoseconds since the epoch. */
  type Time = int
  /** A DECIMAL(10,2) column, counted in cents. */
  type Cents = int

  datatype Status = Pending | Active | Ended | Cancelled

  /** A row of `auctions`. */
  datatype AuctionRow = AuctionRow(
    item: ItemId,
    creator: UserId,
    startTime: Time,
    endTime: Time,
    startingPrice: Cents,
    currentPrice: Cents,
    status: Status)
  {
    predicate CanBid() { status == Active }
    predicate IsEnded() { status == Ended }
    predicate AuctionStarted(now: Time) { startTime < now }

    /** The columns nothing but creation ever changes. */
    function Listing(): AuctionRow { this.(currentPrice := startingPrice, status := Active) }
  }

  /** A row of `bids`; its id is the call that inserted it. */
  datatype Bid = Bid(id: CallId, auction: AuctionId, user: UserId, amount: Cents, createdAt: Time)

  /** What a DECIMAL(10,2) column keeps of a positive amount given in (fractional) cents. */
  function Stored(amount: real): Cents {
    (amount + 0.5).Floor
  }

  /** It is the nearest cent, and the upper one halfway between two. */
  lemma StoredIsNearest(amount: real)
    ensures Stored(amount) as real - 0.5 <= amount < Stored(amount) as real + 0.5
    ensures amount > 0.0 ==> (Stored(amount) > 0 <==> amount >= 0.5)
  {
  }

  predicate WholeCents(amount: real) {
    amount == Stored(amount) as real
  }

  lemma StoredKeepsUp(amount: real, price: Cents)
    requires amount > price as real
    ensures Stored(amount) >= price
    ensures WholeCents(amount) ==> Stored(amount) > price
  {
  }
}
