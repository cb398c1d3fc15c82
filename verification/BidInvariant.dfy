/** What every reachable state of the bid protocol satisfies. */
module BidInvariant {
  import opened Domain
  import opened BidProtocol

  /** `p` is the starting price of auction `a` or the stored amount of one of its bids. */
  predicate KnownPrice(s: State, a: AuctionId, p: Cents) {
    && a in s.auctions
    && (p == s.auctions[a].startingPrice || exists b <- s.bids :: b.auction == a && b.amount == p)
  }

  /** Some commit since position `k` of the log could have moved the price of `a`. */
  predicate MovedSince(s: State, a: AuctionId, k: nat) {
    exists i :: k <= i < |s.log| && s.log[i].Moves(a)
  }

  predicate RowOk(s: State, a: AuctionId)
    requires a in s.auctions
  {
    var row := s.auctions[a];
    && 0 < row.startingPrice
    && (row.status == Active || row.status == Ended)
    && KnownPrice(s, a, row.currentPrice)
    && forall b <- s.bids | b.auction == a ::
         row.startingPrice <= b.amount && (row.status == Active ==> b.amount <= row.currentPrice)
  }

  predicate BidOk(s: State, b: Bid) {
    && b.auction in s.auctions
    && b.id in s.bidders
    && s.bidders[b.id].Visible()
    && b == NewBid(b.id, s.bidders[b.id])
  }

  predicate DistinctIds(bids: seq<Bid>) {
    forall i, j :: 0 <= i < j < |bids| ==> bids[i].id != bids[j].id
  }

  /** What a call remembers of the row it read first. */
  predicate Informed(s: State, b: Bidder) {
    && KnownPrice(s, b.auction, b.expected)
    && b.start == s.auctions[b.auction].startingPrice
    && b.since <= |s.log|
    && (s.auctions[b.auction].currentPrice != b.expected ==> MovedSince(s, b.auction, b.since))
  }

  predicate Outbids(b: Bidder) { b.amount > b.expected as real }

  predicate BidderOk(s: State, c: CallId)
    requires c in s.bidders
  {
    var b := s.bidders[c];
    match b.pc
    case ReadAuction => b.tx == Idle
    case ReadHighest => b.tx == Idle && Informed(s, b)
    case Begin => b.tx == Idle && Informed(s, b)
    case TxRead => b.tx == Open([], None) && Informed(s, b)
    case Insert => b.tx == Open([], None) && Informed(s, b) && Outbids(b)
    case Update => b.tx == Open([NewBid(c, b)], None) && Informed(s, b) && Outbids(b)
    case Commit =>
      && Informed(s, b) && Outbids(b)
      && HoldsLock(s, c, b.auction)
      && s.auctions[b.auction].currentPrice == b.expected
      && b.tx == Open([NewBid(c, b)], Some(s.auctions[b.auction].(currentPrice := Stored(b.amount))))
    case Rollback(cause) =>
      && cause != Placed && cause != Unacknowledged
      && b.tx.Open?
      && (b.tx.updated.Some? ==> HoldsLock(s, c, b.auction))
    case Done(outcome) => b.tx == Idle && (b.Visible() ==> NewBid(c, b) in s.bids)
  }

  predicate LockOk(s: State, a: AuctionId)
    requires a in s.locks
  {
    var c := s.locks[a];
    && a in s.auctions
    && c in s.bidders
    && s.bidders[c].auction == a
    && s.bidders[c].tx.Open?
    && s.bidders[c].tx.updated.Some?
    && (s.bidders[c].pc.Commit? || s.bidders[c].pc.Rollback?)
  }

  predicate SnapshotOk(s: State, a: AuctionId, row: AuctionRow) {
    && row.status == Ended
    && KnownPrice(s, a, row.currentPrice)
    && row.Listing() == s.auctions[a].Listing()
  }

  /** The highest bid an ender read is not below the price it read before. */
  predicate ReadOk(s: State, a: AuctionId, row: AuctionRow, read: HighestRead) {
    match read
    case Found(b) => b in s.bids && b.auction == a && row.currentPrice <= b.amount
    case NoBids => row.currentPrice == row.startingPrice
    case Unread => true
  }

  predicate EnderOk(s: State, c: CallId)
    requires c in s.enders
  {
    var e := s.enders[c];
    match e.pc
    case EndRead => true
    case EndHighest(row) => SnapshotOk(s, e.auction, row)
    case EndStore(row, read) => SnapshotOk(s, e.auction, row) && ReadOk(s, e.auction, row, read)
    case EndDone(_) => true
  }

  predicate ClosedOk(s: State, entry: Entry) {
    entry.Closed? ==>
      && SnapshotOk(s, entry.auction, entry.row)
      && ReadOk(s, entry.auction, entry.row, entry.read)
      && s.auctions[entry.auction].status == Ended
  }

  predicate Inv(s: State) {
    && (forall a <- s.auctions :: RowOk(s, a))
    && (forall b <- s.bids :: BidOk(s, b))
    && DistinctIds(s.bids)
    && (forall c <- s.bidders :: BidderOk(s, c))
    && (forall a <- s.locks :: LockOk(s, a))
    && (forall c <- s.enders :: EnderOk(s, c))
    && (forall i :: 0 <= i < |s.log| ==> ClosedOk(s, s.log[i]))
  }

  // ---------------------------------------------------------------- growth

  /** How one row may change: its listing never does, and an end is final. */
  predicate RowGrows(old_: AuctionRow, new_: AuctionRow) {
    && new_.Listing() == old_.Listing()
    && (old_.status == Ended ==> new_.status == Ended)
  }

  /** Nothing is ever deleted, and a price moves only with an entry in the log. */
  predicate Grows(s: State, t: State) {
    && s.bids <= t.bids
    && s.log <= t.log
    && (forall a <- s.auctions :: a in t.auctions && RowGrows(s.auctions[a], t.auctions[a]))
    && (forall a <- s.auctions | t.auctions[a].currentPrice != s.auctions[a].currentPrice ::
          MovedSince(t, a, |s.log|))
  }

  lemma KnownPriceGrows(s: State, t: State, a: AuctionId, p: Cents)
    requires Grows(s, t) && KnownPrice(s, a, p)
    ensures KnownPrice(t, a, p)
  {
    assert s.auctions[a].Listing().startingPrice == t.auctions[a].Listing().startingPrice;
    if p != s.auctions[a].startingPrice {
      var b :| b in s.bids && b.auction == a && b.amount == p;
      assert b in t.bids;
    }
  }

  lemma MovedSinceGrows(s: State, t: State, a: AuctionId, k: nat)
    requires s.log <= t.log
    requires MovedSince(s, a, k)
    ensures MovedSince(t, a, k)
  {
    var i :| k <= i < |s.log| && s.log[i].Moves(a);
    assert t.log[i].Moves(a);
  }

  lemma InformedGrows(s: State, t: State, b: Bidder)
    requires Grows(s, t) && Informed(s, b)
    ensures Informed(t, b)
  {
    var a := b.auction;
    KnownPriceGrows(s, t, a, b.expected);
    assert s.auctions[a].Listing().startingPrice == t.auctions[a].Listing().startingPrice;
    if t.auctions[a].currentPrice != b.expected {
      if s.auctions[a].currentPrice != b.expected {
        MovedSinceGrows(s, t, a, b.since);
      } else {
        var i :| |s.log| <= i < |t.log| && t.log[i].Moves(a);
        assert b.since <= i;
      }
    }
  }

  lemma SnapshotGrows(s: State, t: State, a: AuctionId, row: AuctionRow, read: HighestRead)
    requires Grows(s, t) && SnapshotOk(s, a, row)
    ensures SnapshotOk(t, a, row)
    ensures ReadOk(s, a, row, read) ==> ReadOk(t, a, row, read)
  {
    KnownPriceGrows(s, t, a, row.currentPrice);
  }

  /** A call that takes no part in a step keeps its invariant, given its lock and locked row are left alone. */
  lemma BidderFrame(s: State, t: State, c: CallId)
    requires Grows(s, t)
    requires c in s.bidders && BidderOk(s, c)
    requires c in t.bidders && t.bidders[c] == s.bidders[c]
    requires var a := s.bidders[c].auction;
             HoldsLock(s, c, a) ==> HoldsLock(t, c, a) && (a in s.auctions ==> t.auctions[a] == s.auctions[a])
    ensures BidderOk(t, c)
  {
    var b := s.bidders[c];
    if Informed(s, b) {
      InformedGrows(s, t, b);
    }
  }

  lemma EnderFrame(s: State, t: State, c: CallId)
    requires Grows(s, t)
    requires c in s.enders && EnderOk(s, c)
    requires c in t.enders && t.enders[c] == s.enders[c]
    ensures EnderOk(t, c)
  {
    var e := s.enders[c];
    if e.HoldsSnapshot() {
      SnapshotGrows(s, t, e.auction, e.pc.row, if e.pc.EndStore? then e.pc.read else Unread);
    }
  }

  lemma ClosedFrame(s: State, t: State, entry: Entry)
    requires Grows(s, t) && ClosedOk(s, entry)
    ensures ClosedOk(t, entry)
  {
    if entry.Closed? {
      SnapshotGrows(s, t, entry.auction, entry.row, entry.read);
    }
  }

  /** `BidderFrame` for everybody but `c`: locks held by others, and the rows under them, stay. */
  lemma OtherBidders(s: State, t: State, c: CallId)
    requires Inv(s) && Grows(s, t)
    requires forall d <- t.bidders | d != c :: d in s.bidders && t.bidders[d] == s.bidders[d]
    requires forall a <- s.locks | s.locks[a] != c ::
               HoldsLock(t, s.locks[a], a) && (a in s.auctions ==> t.auctions[a] == s.auctions[a])
    ensures forall d <- t.bidders | d != c :: BidderOk(t, d)
  {
    forall d <- t.bidders | d != c ensures BidderOk(t, d) {
      BidderFrame(s, t, d);
    }
  }

  /** Enders and past ends do not notice a step of somebody else. */
  lemma EndersAndLog(s: State, t: State)
    requires Inv(s) && Grows(s, t)
    ensures forall d <- t.enders | d in s.enders && t.enders[d] == s.enders[d] :: EnderOk(t, d)
    ensures forall i | 0 <= i < |s.log| :: ClosedOk(t, t.log[i])
  {
    forall d <- t.enders | d in s.enders && t.enders[d] == s.enders[d] ensures EnderOk(t, d) { EnderFrame(s, t, d); }
    forall i | 0 <= i < |s.log| ensures ClosedOk(t, t.log[i]) { ClosedFrame(s, t, s.log[i]); }
  }

  /** Rows and bids keep their invariants while the tables stay and no committed bidder changes. */
  lemma TablesUntouched(s: State, t: State)
    requires Inv(s)
    requires t.auctions == s.auctions && t.bids == s.bids
    requires forall c <- s.bidders | s.bidders[c].Visible() :: c in t.bidders && t.bidders[c] == s.bidders[c]
    ensures forall a <- t.auctions :: RowOk(t, a)
    ensures forall b <- t.bids :: BidOk(t, b)
  {
    forall a <- t.auctions ensures RowOk(t, a) { assert RowOk(s, a); }
    forall b <- t.bids ensures BidOk(t, b) { assert BidOk(s, b); }
  }

  /** The steps that commit nothing. */
  lemma QuietStep(s: State, act: Action)
    requires !act.OpenAuction? && !act.BidCommit? && !act.EndWrite?
    ensures var t := Apply(s, act); t.log == s.log && t.auctions == s.auctions && t.bids == s.bids
  {
  }

  // ---------------------------------------------------------------- steps that touch no table

  /** Only the frame of bidder `c` changes. */
  lemma FrameStep(s: State, c: CallId, b: Bidder)
    requires Inv(s)
    requires c in s.bidders ==> !s.bidders[c].Visible()
    requires forall a <- s.locks | s.locks[a] == c :: LockOk(SetBidder(s, c, b), a)
    requires BidderOk(SetBidder(s, c, b), c)
    ensures Inv(SetBidder(s, c, b))
  {
    var t := SetBidder(s, c, b);
    OtherBidders(s, t, c);
    EndersAndLog(s, t);
    TablesUntouched(s, t);
    forall a <- t.locks ensures LockOk(t, a) { assert LockOk(s, a); }
  }

  /** Only the frame of ender `c` changes. */
  lemma EnderStep(s: State, c: CallId, e: Ender)
    requires Inv(s)
    requires EnderOk(s.(enders := s.enders[c := e]), c)
    ensures Inv(s.(enders := s.enders[c := e]))
  {
    var t := s.(enders := s.enders[c := e]);
    forall d <- t.bidders ensures BidderOk(t, d) { BidderFrame(s, t, d); }
    EndersAndLog(s, t);
    TablesUntouched(s, t);
    forall a <- t.locks ensures LockOk(t, a) { assert LockOk(s, a); }
  }

  lemma StartBidStep(s: State, act: Action)
    requires Inv(s) && act.StartBid?
    ensures Inv(Apply(s, act))
  {
    if act.c !in s.bidders {
      assert forall a <- s.locks :: LockOk(s, a);
      FrameStep(s, act.c, Apply(s, act).bidders[act.c]);
    }
  }

  /** A call that is still reading holds no lock. */
  lemma ReaderHoldsNoLock(s: State, c: CallId)
    requires Inv(s) && c in s.bidders && s.bidders[c].tx == Idle
    ensures forall a <- s.locks :: s.locks[a] != c
  {
    assert forall a <- s.locks :: LockOk(s, a);
  }

  lemma FirstReadStep(s: State, c: CallId, userKnown: bool)
    requires Inv(s)
    ensures Inv(Apply(s, BidReadAuction(c, userKnown)))
  {
    if At(s, c, ReadAuction) {
      var b := AfterAuctionRead(s, s.bidders[c], userKnown);
      assert BidderOk(s, c);
      ReaderHoldsNoLock(s, c);
      if b.pc == ReadHighest { assert RowOk(s, b.auction); }
      FrameStep(s, c, b);
    }
  }

  /** Going on with what it knows, a call stays informed. */
  lemma StaysInformed(s: State, c: CallId, b: Bidder)
    requires Inv(s) && c in s.bidders && Informed(s, s.bidders[c])
    requires b.auction == s.bidders[c].auction && b.start == s.bidders[c].start
    requires b.expected == s.bidders[c].expected && b.since == s.bidders[c].since
    ensures Informed(SetBidder(s, c, b), b)
  {
    InformedGrows(s, SetBidder(s, c, b), s.bidders[c]);
  }

  lemma SecondReadStep(s: State, c: CallId, read: HighestRead)
    requires Inv(s)
    ensures Inv(Apply(s, BidReadHighest(c, read)))
  {
    if At(s, c, ReadHighest) && Answers(s.bids, s.bidders[c].auction, read) {
      var b := AfterHighestRead(s.bidders[c], read, s.now);
      SecondReadKeepsBidder(s, c, read);
      FrameStepOfReader(s, c, b);
      assert Apply(s, BidReadHighest(c, read)) == SetBidder(s, c, b);
    }
  }

  lemma FrameStepOfReader(s: State, c: CallId, b: Bidder)
    requires Inv(s) && At(s, c, ReadHighest) && BidderOk(SetBidder(s, c, b), c)
    ensures Inv(SetBidder(s, c, b))
  {
    assert s.bidders[c].tx == Idle by { assert BidderOk(s, c); }
    ReaderHoldsNoLock(s, c);
    FrameStep(s, c, b);
  }

  lemma SecondReadKeepsBidder(s: State, c: CallId, read: HighestRead)
    requires Inv(s) && At(s, c, ReadHighest)
    ensures BidderOk(SetBidder(s, c, AfterHighestRead(s.bidders[c], read, s.now)), c)
  {
    var b := AfterHighestRead(s.bidders[c], read, s.now);
    assert BidderOk(s, c);
    StaysInformed(s, c, b);
  }

  lemma BeginStep(s: State, c: CallId)
    requires Inv(s)
    ensures Inv(Apply(s, BidBegin(c)))
  {
    if At(s, c, Begin) {
      var b := s.bidders[c].(pc := TxRead, tx := Open([], None));
      assert BidderOk(s, c);
      WriterHoldsNoLock(s, c);
      StaysInformed(s, c, b);
      FrameStep(s, c, b);
    }
  }

  lemma TxReadStep(s: State, c: CallId)
    requires Inv(s)
    ensures Inv(Apply(s, BidTxRead(c)))
  {
    if At(s, c, TxRead) {
      var b := Apply(s, BidTxRead(c)).bidders[c];
      assert BidderOk(s, c);
      WriterHoldsNoLock(s, c);
      StaysInformed(s, c, b);
      FrameStep(s, c, b);
    }
  }

  lemma InsertStep(s: State, c: CallId)
    requires Inv(s)
    ensures Inv(Apply(s, BidInsert(c)))
  {
    if At(s, c, Insert) && s.bidders[c].tx.Open? {
      var b := Apply(s, BidInsert(c)).bidders[c];
      assert BidderOk(s, c);
      WriterHoldsNoLock(s, c);
      StaysInformed(s, c, b);
      FrameStep(s, c, b);
    }
  }

  lemma WriterHoldsNoLock(s: State, c: CallId)
    requires Inv(s) && c in s.bidders && (s.bidders[c].tx.Open? ==> s.bidders[c].tx.updated.None?)
    ensures forall a <- s.locks :: s.locks[a] != c
  {
    assert forall a <- s.locks :: LockOk(s, a);
  }

  lemma BidderFailStep(s: State, c: CallId)
    requires Inv(s)
    ensures Inv(Apply(s, BidFail(c)))
  {
    if c in s.bidders {
      assert BidderOk(s, c);
      FailureKeepsBidder(s, c);
      assert Apply(s, BidFail(c)) == SetBidder(s, c, DoBidFail(s.bidders[c]));
      if DoBidFail(s.bidders[c]) == s.bidders[c] {
        assert SetBidder(s, c, s.bidders[c]) == s;
      } else {
        assert forall a <- s.locks :: LockOk(s, a);
        FrameStep(s, c, DoBidFail(s.bidders[c]));
      }
    }
  }

  lemma FailureKeepsBidder(s: State, c: CallId)
    requires c in s.bidders && BidderOk(s, c)
    ensures BidderOk(SetBidder(s, c, DoBidFail(s.bidders[c])), c)
  {
  }

  lemma TimeoutStep(s: State, c: CallId)
    requires Inv(s)
    ensures Inv(Apply(s, BidTimeout(c)))
  {
    if At(s, c, Update) && Waits(s, c) {
      var b := s.bidders[c].(pc := Rollback(LockTimeout));
      assert BidderOk(s, c);
      assert forall a <- s.locks :: LockOk(s, a);
      FrameStep(s, c, b);
      assert Apply(s, BidTimeout(c)) == SetBidder(s, c, b);
    }
  }

  /** An ender reads the price before the highest bid, and bids are never removed. */
  lemma HighestNotBelowSnapshot(s: State, a: AuctionId, row: AuctionRow, read: HighestRead)
    requires (forall x <- s.auctions :: RowOk(s, x))
    requires SnapshotOk(s, a, row)
    requires Answers(s.bids, a, read)
    ensures ReadOk(s, a, row, read)
  {
    assert RowOk(s, a);
    assert row.Listing().startingPrice == s.auctions[a].Listing().startingPrice;
  }

  lemma EnderLocalStep(s: State, act: Action)
    requires Inv(s)
    requires act.StartEnd? || act.EndReadAuction? || act.EndReadHighest? || act.EndFail?
    ensures Inv(Apply(s, act))
  {
    var t := Apply(s, act);
    if t != s {
      var c := act.c;
      var e := t.enders[c];
      assert t == s.(enders := s.enders[c := e]);
      if c in s.enders { assert EnderOk(s, c); }
      if act.EndReadAuction? && e.pc.EndHighest? {
        assert RowOk(s, e.auction);
        assert KnownPrice(t, e.auction, e.pc.row.currentPrice);
      }
      if act.EndReadHighest? {
        HighestNotBelowSnapshot(s, e.auction, e.pc.row, act.read);
      }
      if e.HoldsSnapshot() && !act.EndReadAuction? {
        SnapshotGrows(s, t, e.auction, e.pc.row, if e.pc.EndStore? then e.pc.read else Unread);
      }
      EnderStep(s, c, e);
    }
  }

  // ---------------------------------------------------------------- steps that touch a table or a lock

  lemma OpenStep(s: State, a: AuctionId, row: AuctionRow)
    requires Inv(s)
    ensures Inv(Apply(s, OpenAuction(a, row)))
    ensures Grows(s, Apply(s, OpenAuction(a, row)))
  {
    var t := Apply(s, OpenAuction(a, row));
    if t != s {
      forall d <- t.bidders ensures BidderOk(t, d) { BidderFrame(s, t, d); }
      EndersAndLog(s, t);
      OpenRows(s, a, row);
      forall x <- t.locks ensures LockOk(t, x) { assert LockOk(s, x); }
    }
  }

  lemma OpenRows(s: State, a: AuctionId, row: AuctionRow)
    requires Inv(s) && Apply(s, OpenAuction(a, row)) != s
    ensures var t := Apply(s, OpenAuction(a, row));
            (forall x <- t.auctions :: RowOk(t, x)) && (forall x <- t.bids :: BidOk(t, x))
  {
    var t := Apply(s, OpenAuction(a, row));
    forall x <- t.bids ensures BidOk(t, x) { assert BidOk(s, x); }
    forall x <- t.auctions ensures RowOk(t, x) {
      if x != a { assert RowOk(s, x); KnownPriceGrows(s, t, x, s.auctions[x].currentPrice); }
    }
  }

  lemma AdvanceStep(s: State, passed: nat)
    requires Inv(s)
    ensures Inv(Apply(s, Advance(passed)))
  {
    var t := Apply(s, Advance(passed));
    forall d <- t.bidders ensures BidderOk(t, d) { BidderFrame(s, t, d); }
    EndersAndLog(s, t);
    TablesUntouched(s, t);
    forall a <- t.locks ensures LockOk(t, a) { assert LockOk(s, a); }
  }

  /** The conditional update found its row unlocked and still at the expected price. */
  lemma LockTaken(s: State, c: CallId)
    requires Inv(s)
    requires At(s, c, Update) && Apply(s, BidUpdate(c)).locks != s.locks
    ensures var t := Apply(s, BidUpdate(c)); var a := s.bidders[c].auction;
            && BidderOk(t, c)
            && (forall x <- t.locks :: LockOk(t, x))
            && t.locks == s.locks[a := c]
            && a !in s.locks
  {
    LockShape(s, c);
    LockerMayCommit(s, c);
    LocksKept(s, c);
  }

  lemma LockShape(s: State, c: CallId)
    requires Inv(s) && At(s, c, Update) && Apply(s, BidUpdate(c)).locks != s.locks
    ensures var b := s.bidders[c];
            && b.tx.Open? && b.auction in s.auctions && b.auction !in s.locks
            && s.auctions[b.auction].currentPrice == b.expected
            && Apply(s, BidUpdate(c)) == Locked(s, c)
  {
    assert BidderOk(s, c);
  }

  lemma GrowsIfSame(s: State, t: State)
    requires t.auctions == s.auctions && t.bids == s.bids && t.log == s.log
    ensures Grows(s, t)
  {
  }

  lemma LockerMayCommit(s: State, c: CallId)
    requires At(s, c, Update) && BidderOk(s, c)
    requires s.auctions[s.bidders[c].auction].currentPrice == s.bidders[c].expected
    ensures BidderOk(Locked(s, c), c)
  {
    GrowsIfSame(s, Locked(s, c));
    InformedGrows(s, Locked(s, c), s.bidders[c]);
    assert Informed(Locked(s, c), Locked(s, c).bidders[c]);
  }

  /** Nobody else's lock is touched when `c` takes one. */
  lemma LocksKept(s: State, c: CallId)
    requires (forall x <- s.locks :: LockOk(s, x))
    requires At(s, c, Update) && s.bidders[c].tx.Open? && s.bidders[c].auction in s.auctions
    ensures forall x <- Locked(s, c).locks :: LockOk(Locked(s, c), x)
  {
    var t := Locked(s, c);
    forall x <- t.locks ensures LockOk(t, x) { if x != s.bidders[c].auction { assert LockOk(s, x); } }
  }

  lemma LockTakenLeavesOthers(s: State, c: CallId)
    requires Inv(s) && At(s, c, Update) && s.bidders[c].tx.Open?
    requires s.bidders[c].auction in s.auctions && s.bidders[c].auction !in s.locks
    ensures var t := Locked(s, c);
            && (forall d <- t.bidders | d != c :: BidderOk(t, d))
            && (forall d <- t.enders :: EnderOk(t, d))
            && (forall i :: 0 <= i < |t.log| ==> ClosedOk(t, t.log[i]))
            && (forall a <- t.auctions :: RowOk(t, a)) && (forall b <- t.bids :: BidOk(t, b)) && t.bids == s.bids
  {
    var t := Locked(s, c);
    GrowsIfSame(s, t);
    OtherBidders(s, t, c);
    EndersAndLog(s, t);
    TablesUntouched(s, t);
  }

  /** The conditional update takes the row lock, finds no matching row, or waits. */
  lemma NoRowMatched(s: State, c: CallId)
    requires Inv(s)
    requires var t := Apply(s, BidUpdate(c)); t != s && t.locks == s.locks
    ensures Inv(Apply(s, BidUpdate(c)))
  {
    assert BidderOk(s, c);
    assert forall a <- s.locks :: LockOk(s, a) && s.locks[a] != c;
    FrameStep(s, c, s.bidders[c].(pc := Rollback(TooLow)));
  }

  lemma UpdateStep(s: State, c: CallId)
    requires Inv(s)
    ensures Inv(Apply(s, BidUpdate(c)))
  {
    var t := Apply(s, BidUpdate(c));
    if t.locks != s.locks {
      LockTaken(s, c);
      LockShape(s, c);
      LockTakenLeavesOthers(s, c);
    } else if t != s {
      NoRowMatched(s, c);
    }
  }

  /** A rollback gives up the writes and the lock of its own transaction only. */
  lemma RollbackEffect(s: State, c: CallId)
    requires Inv(s) && c in s.bidders && s.bidders[c].pc.Rollback?
    ensures var t := Apply(s, BidRollback(c));
            && BidderOk(t, c)
            && (forall x <- t.locks :: LockOk(t, x) && t.locks[x] != c)
            && (forall x <- s.locks | s.locks[x] != c :: HoldsLock(t, s.locks[x], x))
            && t.bidders.Keys == s.bidders.Keys
            && (forall d <- s.bidders | d != c :: t.bidders[d] == s.bidders[d])
  {
    assert BidderOk(s, c);
    assert forall x <- s.locks :: LockOk(s, x);
    assert Apply(s, BidRollback(c)) == DoBidRollback(s, c);
    RolledBack(s, c);
  }

  lemma RolledBack(s: State, c: CallId)
    requires c in s.bidders && s.bidders[c].pc.Rollback? && BidderOk(s, c)
    requires forall x <- s.locks :: LockOk(s, x)
    ensures var t := DoBidRollback(s, c);
            && BidderOk(t, c)
            && (forall x <- t.locks :: LockOk(t, x) && t.locks[x] != c)
            && (forall x <- s.locks | s.locks[x] != c :: HoldsLock(t, s.locks[x], x))
  {
    var t := DoBidRollback(s, c);
    forall x <- t.locks ensures LockOk(t, x) && t.locks[x] != c { assert LockOk(s, x); }
  }

  lemma RollbackStep(s: State, c: CallId)
    requires Inv(s)
    ensures Inv(Apply(s, BidRollback(c)))
  {
    var t := Apply(s, BidRollback(c));
    if c in s.bidders && s.bidders[c].pc.Rollback? {
      RollbackEffect(s, c);
      QuietStep(s, BidRollback(c));
      assert t.enders == s.enders;
      OtherBidders(s, t, c);
      EndersAndLog(s, t);
      TablesUntouched(s, t);
    }
  }

  /** What the lock holder's commit does, in terms of committed rows alone. */
  lemma CommitEffect(s: State, c: CallId, acknowledged: bool)
    requires Inv(s) && At(s, c, Commit)
    ensures var b := s.bidders[c]; var t := Apply(s, BidCommit(c, acknowledged));
            && b.auction in s.auctions
            && s.auctions[b.auction].currentPrice == b.expected
            && Outbids(b)
            && t.bids == s.bids + [NewBid(c, b)]
            && t.auctions == s.auctions[b.auction := s.auctions[b.auction].(currentPrice := Stored(b.amount))]
            && t.log == s.log + [Accepted(NewBid(c, b), b.amount, b.expected)]
            && Grows(s, t)
  {
    var b := s.bidders[c];
    var t := Apply(s, BidCommit(c, acknowledged));
    assert BidderOk(s, c);
    assert t.log[|s.log|].Moves(b.auction);
  }

  lemma CommitRows(s: State, c: CallId, acknowledged: bool)
    requires Inv(s) && At(s, c, Commit)
    ensures var t := Apply(s, BidCommit(c, acknowledged)); forall a <- t.auctions :: RowOk(t, a)
  {
    var t := Apply(s, BidCommit(c, acknowledged));
    CommitEffect(s, c, acknowledged);
    forall a <- t.auctions ensures RowOk(t, a) {
      if a == s.bidders[c].auction {
        RaisedRow(s, t, c);
      } else {
        assert RowOk(s, a);
        KnownPriceGrows(s, t, a, s.auctions[a].currentPrice);
      }
    }
  }

  lemma RaisedRow(s: State, t: State, c: CallId)
    requires c in s.bidders && s.bidders[c].auction in s.auctions && RowOk(s, s.bidders[c].auction)
    requires var b := s.bidders[c]; s.auctions[b.auction].currentPrice == b.expected && Outbids(b)
    requires t.bids == s.bids + [NewBid(c, s.bidders[c])]
    requires var b := s.bidders[c];
             t.auctions == s.auctions[b.auction := s.auctions[b.auction].(currentPrice := Stored(b.amount))]
    ensures RowOk(t, s.bidders[c].auction)
  {
    var b := s.bidders[c];
    StoredKeepsUp(b.amount, b.expected);
    assert NewBid(c, b) in t.bids;
    assert s.auctions[b.auction].startingPrice <= b.expected;
  }

  lemma CommitBids(s: State, c: CallId, acknowledged: bool)
    requires Inv(s) && At(s, c, Commit)
    ensures var t := Apply(s, BidCommit(c, acknowledged));
            DistinctIds(t.bids) && forall x <- t.bids :: BidOk(t, x)
  {
    CommitEffect(s, c, acknowledged);
    CommitSpares(s, c, acknowledged);
    assert s.bidders[c].tx.Open? by { assert BidderOk(s, c); }
    CommitterIsVisible(s, c, acknowledged);
    NotYetVisible(s, c);
    OneBidMore(s, Apply(s, BidCommit(c, acknowledged)), c);
  }

  lemma CommitterIsVisible(s: State, c: CallId, acknowledged: bool)
    requires At(s, c, Commit) && s.bidders[c].tx.Open?
    ensures var t := Apply(s, BidCommit(c, acknowledged));
            c in t.bidders && t.bidders[c].Visible() && NewBid(c, t.bidders[c]) == NewBid(c, s.bidders[c])
  {
  }

  lemma OneBidMore(s: State, t: State, c: CallId)
    requires DistinctIds(s.bids) && forall x <- s.bids :: BidOk(s, x) && x.id != c
    requires c in s.bidders && t.bids == s.bids + [NewBid(c, s.bidders[c])]
    requires s.bidders[c].auction in s.auctions && s.auctions.Keys <= t.auctions.Keys
    requires c in t.bidders && t.bidders[c].Visible() && NewBid(c, t.bidders[c]) == NewBid(c, s.bidders[c])
    requires forall d <- s.bidders | d != c :: d in t.bidders && t.bidders[d] == s.bidders[d]
    ensures DistinctIds(t.bids) && forall x <- t.bids :: BidOk(t, x)
  {
    forall x <- t.bids ensures BidOk(t, x) { if x in s.bids { assert BidOk(s, x); } }
  }

  lemma NotYetVisible(s: State, c: CallId)
    requires Inv(s) && c in s.bidders && !s.bidders[c].Visible()
    ensures forall x <- s.bids :: x.id != c
  {
    forall x <- s.bids ensures x.id != c { assert BidOk(s, x); }
  }

  /** A commit releases the lock of its own row and no other. */
  lemma CommitLocks(s: State, c: CallId, acknowledged: bool)
    requires Inv(s) && At(s, c, Commit)
    ensures var t := Apply(s, BidCommit(c, acknowledged)); var a := s.bidders[c].auction;
            && t.locks == s.locks - {a}
            && HoldsLock(s, c, a)
            && (forall x <- t.locks :: LockOk(t, x) && t.locks[x] != c)
  {
    var t := Apply(s, BidCommit(c, acknowledged));
    assert BidderOk(s, c);
    forall x <- t.locks ensures LockOk(t, x) && t.locks[x] != c { assert LockOk(s, x); }
  }

  lemma CommitOthers(s: State, c: CallId, acknowledged: bool)
    requires Inv(s) && At(s, c, Commit)
    ensures var t := Apply(s, BidCommit(c, acknowledged));
            (forall d <- t.bidders :: BidderOk(t, d)) && (forall a <- t.locks :: LockOk(t, a))
  {
    var t := Apply(s, BidCommit(c, acknowledged));
    CommitEffect(s, c, acknowledged);
    CommitLocks(s, c, acknowledged);
    CommitSpares(s, c, acknowledged);
    OtherBidders(s, t, c);
    CommitterIsDone(s, c, acknowledged);
  }

  lemma CommitSpares(s: State, c: CallId, acknowledged: bool)
    requires Inv(s) && At(s, c, Commit)
    ensures var t := Apply(s, BidCommit(c, acknowledged));
            && t.enders == s.enders && t.bidders.Keys == s.bidders.Keys
            && (forall d <- s.bidders | d != c :: t.bidders[d] == s.bidders[d])
            && (forall x <- s.locks | s.locks[x] != c ::
                  && HoldsLock(t, s.locks[x], x)
                  && (x in s.auctions ==> x in t.auctions && t.auctions[x] == s.auctions[x]))
  {
    assert BidderOk(s, c);
  }

  lemma CommitterIsDone(s: State, c: CallId, acknowledged: bool)
    requires Inv(s) && At(s, c, Commit)
    ensures BidderOk(Apply(s, BidCommit(c, acknowledged)), c)
  {
    var t := Apply(s, BidCommit(c, acknowledged));
    assert BidderOk(s, c);
    assert NewBid(c, t.bidders[c]) == NewBid(c, s.bidders[c]);
    assert t.bids == s.bids + [NewBid(c, s.bidders[c])];
  }

  lemma CommitStep(s: State, c: CallId, acknowledged: bool)
    requires Inv(s)
    ensures Inv(Apply(s, BidCommit(c, acknowledged)))
  {
    if At(s, c, Commit) && s.bidders[c].tx.Open? {
      CommitRows(s, c, acknowledged);
      CommitBids(s, c, acknowledged);
      CommitOthers(s, c, acknowledged);
      CommitEnders(s, c, acknowledged);
    }
  }

  lemma CommitEnders(s: State, c: CallId, acknowledged: bool)
    requires Inv(s) && At(s, c, Commit)
    ensures var t := Apply(s, BidCommit(c, acknowledged));
            (forall d <- t.enders :: EnderOk(t, d)) && (forall i :: 0 <= i < |t.log| ==> ClosedOk(t, t.log[i]))
  {
    CommitEffect(s, c, acknowledged);
    EndersAndLog(s, Apply(s, BidCommit(c, acknowledged)));
    assert BidderOk(s, c);
  }

  /** What an ender's write does: the whole row becomes its snapshot, whatever happened in between. */
  lemma WriteEffect(s: State, c: CallId, acknowledged: bool)
    requires Inv(s)
    requires Apply(s, EndWrite(c, acknowledged)).log != s.log
    ensures c in s.enders && s.enders[c].pc.EndStore?
    ensures var e := s.enders[c]; var t := Apply(s, EndWrite(c, acknowledged));
            && e.auction in s.auctions && e.auction !in s.locks
            && t.auctions == s.auctions[e.auction := e.pc.row]
            && t.bids == s.bids
            && t.log == s.log + [Closed(e.auction, e.pc.row, e.pc.read)]
            && Grows(s, t)
            && ClosedOk(t, t.log[|s.log|])
  {
    var e := s.enders[c];
    var t := Apply(s, EndWrite(c, acknowledged));
    assert EnderOk(s, c);
    assert t.log[|s.log|].Moves(e.auction);
    assert Grows(s, t);
    SnapshotGrows(s, t, e.auction, e.pc.row, e.pc.read);
  }

  lemma WriteRows(s: State, c: CallId, acknowledged: bool)
    requires Inv(s)
    requires Apply(s, EndWrite(c, acknowledged)).log != s.log
    ensures var t := Apply(s, EndWrite(c, acknowledged)); forall a <- t.auctions :: RowOk(t, a)
  {
    var t := Apply(s, EndWrite(c, acknowledged));
    var e := s.enders[c];
    WriteEffect(s, c, acknowledged);
    forall x <- t.auctions ensures RowOk(t, x) {
      assert RowOk(s, x);
      if x != e.auction {
        KnownPriceGrows(s, t, x, s.auctions[x].currentPrice);
      } else {
        assert s.auctions[x].Listing().startingPrice == e.pc.row.Listing().startingPrice;
      }
    }
  }

  lemma WriteOthers(s: State, c: CallId, acknowledged: bool)
    requires Inv(s)
    requires Apply(s, EndWrite(c, acknowledged)).log != s.log
    ensures var t := Apply(s, EndWrite(c, acknowledged));
            (forall d <- t.bidders :: BidderOk(t, d)) && (forall a <- t.locks :: LockOk(t, a))
  {
    var t := Apply(s, EndWrite(c, acknowledged));
    WriteEffect(s, c, acknowledged);
    forall d <- t.bidders ensures BidderOk(t, d) { BidderFrame(s, t, d); }
    forall x <- t.locks ensures LockOk(t, x) { assert LockOk(s, x); }
  }

  lemma WriteStep(s: State, c: CallId, acknowledged: bool)
    requires Inv(s)
    ensures Inv(Apply(s, EndWrite(c, acknowledged)))
    ensures Grows(s, Apply(s, EndWrite(c, acknowledged)))
  {
    if Apply(s, EndWrite(c, acknowledged)).log != s.log {
      WriteEffect(s, c, acknowledged);
      WriteRows(s, c, acknowledged);
      WriteOthers(s, c, acknowledged);
      WriteEnders(s, c, acknowledged);
    } else {
      assert c in s.enders ==> EnderOk(s, c);
    }
  }

  lemma WriteEnders(s: State, c: CallId, acknowledged: bool)
    requires Inv(s)
    requires Apply(s, EndWrite(c, acknowledged)).log != s.log
    ensures var t := Apply(s, EndWrite(c, acknowledged));
            && (forall d <- t.enders :: EnderOk(t, d)) && (forall i :: 0 <= i < |t.log| ==> ClosedOk(t, t.log[i]))
            && (forall b <- t.bids :: BidOk(t, b))
  {
    var t := Apply(s, EndWrite(c, acknowledged));
    WriteEffect(s, c, acknowledged);
    EndersAndLog(s, t);
    forall x <- t.bids ensures BidOk(t, x) { assert BidOk(s, x); }
  }

  // ---------------------------------------------------------------- runs

  lemma StepKeepsInv(s: State, act: Action)
    requires Inv(s)
    ensures Inv(Apply(s, act))
  {
    match act
    case Advance(passed) => AdvanceStep(s, passed);
    case OpenAuction(a, row) => OpenStep(s, a, row);
    case StartBid(_, _, _, _) => StartBidStep(s, act);
    case BidReadAuction(c, userKnown) => FirstReadStep(s, c, userKnown);
    case BidReadHighest(c, read) => SecondReadStep(s, c, read);
    case BidBegin(c) => BeginStep(s, c);
    case BidTxRead(c) => TxReadStep(s, c);
    case BidInsert(c) => InsertStep(s, c);
    case BidUpdate(c) => UpdateStep(s, c);
    case BidCommit(c, acknowledged) => CommitStep(s, c, acknowledged);
    case BidRollback(c) => RollbackStep(s, c);
    case BidFail(c) => BidderFailStep(s, c);
    case BidTimeout(c) => TimeoutStep(s, c);
    case EndWrite(c, acknowledged) => WriteStep(s, c, acknowledged);
    case _ => EnderLocalStep(s, act);
  }

  lemma StepGrows(s: State, act: Action)
    requires Inv(s)
    ensures Grows(s, Apply(s, act))
  {
    match act
    case OpenAuction(a, row) => OpenStep(s, a, row);
    case BidCommit(c, acknowledged) =>
      if At(s, c, Commit) && s.bidders[c].tx.Open? { CommitEffect(s, c, acknowledged); }
    case EndWrite(c, acknowledged) => WriteStep(s, c, acknowledged);
    case _ => QuietStep(s, act);
  }

  lemma GrowsTransitive(s: State, t: State, u: State)
    requires Grows(s, t) && Grows(t, u)
    ensures Grows(s, u)
  {
    forall a <- s.auctions | u.auctions[a].currentPrice != s.auctions[a].currentPrice
      ensures MovedSince(u, a, |s.log|)
    {
      if t.auctions[a].currentPrice != s.auctions[a].currentPrice {
        MovedSinceGrows(t, u, a, |s.log|);
      } else {
        var i :| |t.log| <= i < |u.log| && u.log[i].Moves(a);
        assert |s.log| <= i;
      }
    }
  }

  lemma {:induction false} RunKeepsInv(s: State, acts: seq<Action>)
    requires Inv(s)
    ensures Inv(Run(s, acts)) && Grows(s, Run(s, acts))
  {
    if acts != [] {
      var before := Run(s, acts[..|acts| - 1]);
      RunKeepsInv(s, acts[..|acts| - 1]);
      StepKeepsInv(before, acts[|acts| - 1]);
      StepGrows(before, acts[|acts| - 1]);
      GrowsTransitive(s, before, Run(s, acts));
    }
  }

  /** Every reachable state satisfies the invariant. */
  lemma Reachable(acts: seq<Action>)
    ensures Inv(Run(INIT, acts))
  {
    RunKeepsInv(INIT, acts);
  }
}
