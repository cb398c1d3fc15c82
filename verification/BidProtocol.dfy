/**
 The bid and auction-end protocol: any number of `PlaceBid` and `endAuctionWithResult` calls,
 interleaved statement by statement over shared tables at isolation level Read Committed.
 */
module BidProtocol {
  import opened Domain

  // ---------------------------------------------------------------- calls

  datatype Outcome =
    | Placed
    | NotSubscribed
    | NotFound
    | NotAccepting
    | NotStarted
    | UnknownUser
    | InvalidAmount
    | TooLow
    | BelowStarting
    | DbError
    | LockTimeout // of the errors of the database, the one for a row that stays locked
    | Unacknowledged // the commit took effect but its acknowledgement was lost

  /** A transaction's own writes, which nobody else sees before the commit. */
  datatype Tx = Idle | Open(inserted: seq<Bid>, updated: Option<AuctionRow>)

  /** Where a `PlaceBid` call stands: the statement it executes next. */
  datatype BidderPc =
    | ReadAuction
    | ReadHighest
    | Begin
    | TxRead
    | Insert
    | Update
    | Commit
    | Rollback(cause: Outcome)
    | Done(outcome: Outcome)

  /**
   The frame of a `PlaceBid` call; `checkedAt` is the time of its check that the auction has started,
   `since` the length of the commit log when it first reads the row.
   */
  datatype Bidder = Bidder(
    auction: AuctionId,
    user: UserId,
    amount: real,
    start: Cents,
    expected: Cents,
    since: nat,
    checkedAt: Time,
    createdAt: Time,
    tx: Tx,
    pc: BidderPc)
  {
    predicate PastStatusCheck() { pc.Insert? || pc.Update? || pc.Commit? }
    predicate Visible() { pc == Done(Placed) || pc == Done(Unacknowledged) }
  }

  function NewBid(c: CallId, b: Bidder): Bid {
    Bid(c, b.auction, b.user, Stored(b.amount), b.createdAt)
  }

  /** What `GetHighestBid` brings back: a row, `ErrNoBidsFound`, or any other error. */
  datatype HighestRead = Found(bid: Bid) | NoBids | Unread

  datatype EndReply = AuctionEnded(winner: Option<UserId>, finalPrice: Option<Cents>) | EndRefused

  /** What `endAuctionWithResult` announces after reading `read`. */
  function Announcement(read: HighestRead): EndReply {
    match read
    case Found(b) => AuctionEnded(Some(b.user), Some(b.amount))
    case NoBids => AuctionEnded(None, None)
    case Unread => AuctionEnded(None, None)
  }

  datatype EnderPc =
    | EndRead
    | EndHighest(row: AuctionRow)
    | EndStore(row: AuctionRow, read: HighestRead)
    | EndDone(ok: bool)

  datatype Ender = Ender(auction: AuctionId, pc: EnderPc)
  {
    predicate HoldsSnapshot() { pc.EndHighest? || pc.EndStore? }
  }

  // ---------------------------------------------------------------- state

  /** What one commit did to the tables. */
  datatype Entry =
    | Opened(auction: AuctionId, row: AuctionRow)
    | Accepted(bid: Bid, offered: real, expected: Cents)
    | Closed(auction: AuctionId, row: AuctionRow, read: HighestRead)
  {
    function Target(): AuctionId { if Accepted? then bid.auction else auction }
    /** A commit that may move the price of auction `a`. */
    predicate Moves(a: AuctionId) { !Opened? && Target() == a }
  }

  /** `auctions` and `bids` hold committed rows only, `log` lists the commits in order, `now` is the clock. */
  datatype State = State(
    now: Time,
    auctions: map<AuctionId, AuctionRow>,
    bids: seq<Bid>,
    locks: map<AuctionId, CallId>,
    bidders: map<CallId, Bidder>,
    enders: map<CallId, Ender>,
    log: seq<Entry>)

  const INIT := State(0, map[], [], map[], map[], map[], [])

  /** ORDER BY amount DESC, created_at ASC LIMIT 1; rows equal in both may come in any order. */
  predicate IsHighest(bids: seq<Bid>, a: AuctionId, b: Bid) {
    && b in bids
    && b.auction == a
    && forall x <- bids | x.auction == a ::
         x.amount < b.amount || (x.amount == b.amount && b.createdAt <= x.createdAt)
  }

  predicate Answers(bids: seq<Bid>, a: AuctionId, read: HighestRead) {
    match read
    case Found(b) => IsHighest(bids, a, b)
    case NoBids => forall x <- bids :: x.auction != a
    case Unread => true
  }

  // ---------------------------------------------------------------- steps

  datatype Action =
    | Advance(passed: nat)
    | OpenAuction(a: AuctionId, row: AuctionRow)
    | StartBid(c: CallId, a: AuctionId, user: UserId, amount: real)
    | BidReadAuction(c: CallId, userKnown: bool)
    | BidReadHighest(c: CallId, read: HighestRead)
    | BidBegin(c: CallId)
    | BidTxRead(c: CallId)
    | BidInsert(c: CallId)
    | BidUpdate(c: CallId)
    | BidCommit(c: CallId, acknowledged: bool)
    | BidRollback(c: CallId)
    | BidFail(c: CallId) // the statement at hand fails
    | BidTimeout(c: CallId) // the row of the update at hand stays locked
    | StartEnd(c: CallId, a: AuctionId)
    | EndReadAuction(c: CallId)
    | EndReadHighest(c: CallId, read: HighestRead)
    | EndWrite(c: CallId, acknowledged: bool)
    | EndFail(c: CallId)

  function SetBidder(s: State, c: CallId, b: Bidder): State {
    s.(bidders := s.bidders[c := b])
  }

  function SetEnder(s: State, c: CallId, pc: EnderPc): State
    requires c in s.enders
  {
    s.(enders := s.enders[c := s.enders[c].(pc := pc)])
  }

  predicate At(s: State, c: CallId, pc: BidderPc) {
    c in s.bidders && s.bidders[c].pc == pc
  }

  predicate HoldsLock(s: State, c: CallId, a: AuctionId) {
    a in s.locks && s.locks[a] == c
  }

  /** Lines 66-120 of bid.go, between the first read and the second. */
  function AfterAuctionRead(s: State, b: Bidder, userKnown: bool): Bidder {
    if b.auction !in s.auctions then b.(pc := Done(NotFound))
    else
      var row := s.auctions[b.auction];
      if !row.CanBid() then b.(pc := Done(NotAccepting))
      else if !row.AuctionStarted(s.now) then b.(pc := Done(NotStarted), checkedAt := s.now)
      else if !userKnown then b.(pc := Done(UnknownUser))
      else if b.amount <= 0.0 then b.(pc := Done(InvalidAmount))
      else
        b.(pc := ReadHighest, start := row.startingPrice, expected := row.currentPrice,
           since := |s.log|, checkedAt := s.now)
  }

  predicate PrecheckRefuses(b: Bidder, read: HighestRead) {
    match read
    case Found(h) => b.amount <= h.amount as real
    case NoBids => b.amount <= b.start as real
    case Unread => true
  }

  function AfterHighestRead(b: Bidder, read: HighestRead, now: Time): Bidder {
    if PrecheckRefuses(b, read) then
      b.(pc := Done(match read case Found(_) => TooLow case NoBids => BelowStarting case Unread => DbError))
    else b.(pc := Begin, createdAt := now)
  }

  /** The checks of `PlaceBidWithOCC` on the row it reads inside its transaction. */
  function TxCheck(s: State, a: AuctionId, expected: Cents, amount: real): Outcome {
    if a !in s.auctions then NotFound
    else if s.auctions[a].status != Active then NotAccepting
    else if s.auctions[a].currentPrice != expected then TooLow
    else if amount <= s.auctions[a].currentPrice as real then TooLow
    else Placed
  }

  /** The conditional update of `c` matches a row that another transaction has locked. */
  predicate Waits(s: State, c: CallId) {
    && c in s.bidders
    && var b := s.bidders[c];
       b.auction in s.auctions && s.auctions[b.auction].currentPrice == b.expected && b.auction in s.locks
  }

  function DoBidUpdate(s: State, c: CallId): State
    requires c in s.bidders && s.bidders[c].tx.Open?
  {
    var b := s.bidders[c];
    if b.auction !in s.auctions || s.auctions[b.auction].currentPrice != b.expected then
      SetBidder(s, c, b.(pc := Rollback(TooLow))) // no row matches
    else if b.auction in s.locks then
      s // waits for the row lock, then evaluates the condition again
    else Locked(s, c)
  }

  /** The update holds the row lock and has its pending write. */
  function Locked(s: State, c: CallId): State
    requires c in s.bidders && s.bidders[c].tx.Open? && s.bidders[c].auction in s.auctions
  {
    var b := s.bidders[c];
    var row := s.auctions[b.auction].(currentPrice := Stored(b.amount));
    SetBidder(s, c, b.(pc := Commit, tx := b.tx.(updated := Some(row)))).(locks := s.locks[b.auction := c])
  }

  function DoBidCommit(s: State, c: CallId, acknowledged: bool): State
    requires c in s.bidders && s.bidders[c].tx.Open?
  {
    var b := s.bidders[c];
    s.(auctions := if b.tx.updated.Some? then s.auctions[b.auction := b.tx.updated.value] else s.auctions,
       bids := s.bids + b.tx.inserted,
       locks := s.locks - {b.auction},
       bidders := s.bidders[c := b.(tx := Idle, pc := Done(if acknowledged then Placed else Unacknowledged))],
       log := s.log + [Accepted(NewBid(c, b), b.amount, b.expected)])
  }

  function DoBidRollback(s: State, c: CallId): State
    requires c in s.bidders && s.bidders[c].pc.Rollback?
  {
    var b := s.bidders[c];
    s.(bidders := s.bidders[c := b.(tx := Idle, pc := Done(b.pc.cause))],
       locks := if HoldsLock(s, c, b.auction) then s.locks - {b.auction} else s.locks)
  }

  /** A failing statement ends the call before `Begin` and starts the rollback after it. */
  function DoBidFail(b: Bidder): Bidder {
    match b.pc
    case ReadAuction => b.(pc := Done(NotFound))
    case ReadHighest => b.(pc := Done(DbError))
    case Begin => b.(pc := Done(DbError))
    case TxRead => b.(pc := Rollback(DbError))
    case Insert => b.(pc := Rollback(DbError))
    case Update => b.(pc := Rollback(DbError))
    case Commit => b.(pc := Rollback(DbError))
    case Rollback(_) => b.(pc := Rollback(DbError)) // the server drops the transaction all the same
    case Done(_) => b
  }

  function DoEndRead(s: State, c: CallId): State
    requires c in s.enders
  {
    var a := s.enders[c].auction;
    if a !in s.auctions || s.auctions[a].IsEnded() then SetEnder(s, c, EndDone(false))
    else SetEnder(s, c, EndHighest(s.auctions[a].(status := Ended)))
  }

  function DoEndWrite(s: State, c: CallId, acknowledged: bool): State
    requires c in s.enders && s.enders[c].pc.EndStore?
  {
    var e := s.enders[c];
    if e.auction !in s.auctions then SetEnder(s, c, EndDone(false))
    else if e.auction in s.locks then s // waits for the row lock
    else
      SetEnder(s, c, EndDone(acknowledged)).(
        auctions := s.auctions[e.auction := e.pc.row],
        log := s.log + [Closed(e.auction, e.pc.row, e.pc.read)])
  }

  /** One atomic step; a step that is not enabled leaves the state as it is. */
  function Apply(s: State, act: Action): State {
    match act
    case Advance(passed) => s.(now := s.now + passed)
    case OpenAuction(a, row) =>
      if a !in s.auctions && row.CanBid() && 0 < row.startingPrice == row.currentPrice then
        s.(auctions := s.auctions[a := row], log := s.log + [Opened(a, row)])
      else s
    case StartBid(c, a, user, amount) =>
      if c in s.bidders then s
      else SetBidder(s, c, Bidder(a, user, amount, 0, 0, 0, 0, 0, Idle, ReadAuction))
    case BidReadAuction(c, userKnown) =>
      if At(s, c, ReadAuction) then SetBidder(s, c, AfterAuctionRead(s, s.bidders[c], userKnown)) else s
    case BidReadHighest(c, read) =>
      if At(s, c, ReadHighest) && Answers(s.bids, s.bidders[c].auction, read) then
        SetBidder(s, c, AfterHighestRead(s.bidders[c], read, s.now))
      else s
    case BidBegin(c) =>
      if At(s, c, Begin) then SetBidder(s, c, s.bidders[c].(pc := TxRead, tx := Open([], None))) else s
    case BidTxRead(c) =>
      if At(s, c, TxRead) then
        var b := s.bidders[c];
        var check := TxCheck(s, b.auction, b.expected, b.amount);
        SetBidder(s, c, b.(pc := if check == Placed then Insert else Rollback(check)))
      else s
    case BidInsert(c) =>
      if At(s, c, Insert) && s.bidders[c].tx.Open? then
        var b := s.bidders[c];
        SetBidder(s, c, b.(pc := Update, tx := b.tx.(inserted := b.tx.inserted + [NewBid(c, b)])))
      else s
    case BidUpdate(c) =>
      if At(s, c, Update) && s.bidders[c].tx.Open? then DoBidUpdate(s, c) else s
    case BidCommit(c, acknowledged) =>
      if At(s, c, Commit) && s.bidders[c].tx.Open? then DoBidCommit(s, c, acknowledged) else s
    case BidRollback(c) =>
      if c in s.bidders && s.bidders[c].pc.Rollback? then DoBidRollback(s, c) else s
    case BidFail(c) =>
      if c in s.bidders then SetBidder(s, c, DoBidFail(s.bidders[c])) else s
    case BidTimeout(c) =>
      if At(s, c, Update) && Waits(s, c) then SetBidder(s, c, s.bidders[c].(pc := Rollback(LockTimeout))) else s
    case StartEnd(c, a) =>
      if c in s.enders then s else s.(enders := s.enders[c := Ender(a, EndRead)])
    case EndReadAuction(c) =>
      if c in s.enders && s.enders[c].pc.EndRead? then DoEndRead(s, c) else s
    case EndReadHighest(c, read) =>
      if c in s.enders && s.enders[c].pc.EndHighest? && Answers(s.bids, s.enders[c].auction, read) then
        SetEnder(s, c, EndStore(s.enders[c].pc.row, read))
      else s
    case EndWrite(c, acknowledged) =>
      if c in s.enders && s.enders[c].pc.EndStore? then DoEndWrite(s, c, acknowledged) else s
    case EndFail(c) =>
      if c in s.enders && !s.enders[c].pc.EndHighest? && !s.enders[c].pc.EndDone? then
        SetEnder(s, c, EndDone(false))
      else s
  }

  /** Every run is the run of some sequence of steps, and every sequence of steps is a run. */
  function Run(s: State, acts: seq<Action>): State {
    if acts == [] then s else Apply(Run(s, acts[..|acts| - 1]), acts[|acts| - 1])
  }

  lemma {:induction false} RunConcat(s: State, acts: seq<Action>, more: seq<Action>)
    ensures Run(s, acts + more) == Run(Run(s, acts), more)
  {
    if more == [] {
      assert acts + more == acts;
    } else {
      RunConcat(s, acts, more[..|more| - 1]);
      assert (acts + more)[..|acts + more| - 1] == acts + more[..|more| - 1];
    }
  }
}
