/** The run of one bid that nobody disturbs, from any state. */
module BidSolo {
  import opened Domain
  import opened BidProtocol
  import opened BidSerial
  import opened BidLate

  function Reads(c: CallId, a: AuctionId, amount: real, read: HighestRead): seq<Action> {
    [StartBid(c, a, c, amount), BidReadAuction(c, true), BidReadHighest(c, read)]
  }

  /** The steps of bidder `c` up to, and not including, its insert. */
  function Approach(c: CallId, a: AuctionId, amount: real, read: HighestRead): seq<Action> {
    Reads(c, a, amount, read) + [BidBegin(c), BidTxRead(c)]
  }

  predicate Ready(s: State, c: CallId, a: AuctionId, amount: real, read: HighestRead) {
    && IsActive(s, a) && s.auctions[a].startTime < s.now
    && c !in s.bidders
    && 0 < s.auctions[a].startingPrice <= s.auctions[a].currentPrice
    && amount > s.auctions[a].currentPrice as real
    && Answers(s.bids, a, read) && !read.Unread?
    && (read.Found? ==> read.bid.amount <= s.auctions[a].currentPrice)
  }

  function Arrived(s: State, c: CallId, a: AuctionId, amount: real): Bidder
    requires a in s.auctions
  {
    var row := s.auctions[a];
    Bidder(a, c, amount, row.startingPrice, row.currentPrice, |s.log|, s.now, s.now, Open([], None), Insert)
  }

  lemma StartAndRead(s: State, c: CallId, a: AuctionId, amount: real, read: HighestRead)
    requires Ready(s, c, a, amount, read)
    ensures Apply(Apply(s, StartBid(c, a, c, amount)), BidReadAuction(c, true))
         == SetBidder(s, c, Arrived(s, c, a, amount).(tx := Idle, pc := ReadHighest, createdAt := 0))
  {
    var first := Bidder(a, c, amount, 0, 0, 0, 0, 0, Idle, ReadAuction);
    assert Apply(s, StartBid(c, a, c, amount)) == SetBidder(s, c, first);
  }

  lemma ReadAgain(s: State, c: CallId, a: AuctionId, amount: real, read: HighestRead)
    requires Ready(s, c, a, amount, read)
    ensures var m := SetBidder(s, c, Arrived(s, c, a, amount).(tx := Idle, pc := ReadHighest, createdAt := 0));
            Apply(m, BidReadHighest(c, read)) == SetBidder(s, c, Arrived(s, c, a, amount).(tx := Idle, pc := Begin))
  {
  }

  lemma RunReads(s: State, c: CallId, a: AuctionId, amount: real, read: HighestRead)
    requires Ready(s, c, a, amount, read)
    ensures Run(s, Reads(c, a, amount, read)) == SetBidder(s, c, Arrived(s, c, a, amount).(tx := Idle, pc := Begin))
  {
    RunThree(s, StartBid(c, a, c, amount), BidReadAuction(c, true), BidReadHighest(c, read));
    StartAndRead(s, c, a, amount, read);
    ReadAgain(s, c, a, amount, read);
  }

  lemma BeginTx(s: State, c: CallId, b: Bidder)
    requires b.pc == Insert && b.tx == Open([], None)
    ensures Apply(SetBidder(s, c, b.(tx := Idle, pc := Begin)), BidBegin(c)) == SetBidder(s, c, b.(pc := TxRead))
  {
  }

  lemma PassCheck(s: State, c: CallId, b: Bidder)
    requires b.pc == Insert && TxCheck(s, b.auction, b.expected, b.amount) == Placed
    ensures Apply(SetBidder(s, c, b.(pc := TxRead)), BidTxRead(c)) == SetBidder(s, c, b)
  {
    var m := SetBidder(s, c, b.(pc := TxRead));
    assert TxCheck(m, b.auction, b.expected, b.amount) == Placed;
    assert m.bidders[c].(pc := Insert) == b;
  }

  lemma RunTxStart(s: State, c: CallId, a: AuctionId, amount: real, read: HighestRead)
    requires Ready(s, c, a, amount, read)
    ensures var m := SetBidder(s, c, Arrived(s, c, a, amount).(tx := Idle, pc := Begin));
            Run(m, [BidBegin(c), BidTxRead(c)]) == SetBidder(s, c, Arrived(s, c, a, amount))
  {
    RunTwo(SetBidder(s, c, Arrived(s, c, a, amount).(tx := Idle, pc := Begin)), BidBegin(c), BidTxRead(c));
    BeginTx(s, c, Arrived(s, c, a, amount));
    PassCheck(s, c, Arrived(s, c, a, amount));
  }

  lemma RunApproach(s: State, c: CallId, a: AuctionId, amount: real, read: HighestRead)
    requires Ready(s, c, a, amount, read)
    ensures Run(s, Approach(c, a, amount, read)) == SetBidder(s, c, Arrived(s, c, a, amount))
  {
    RunReads(s, c, a, amount, read);
    RunTxStart(s, c, a, amount, read);
    RunConcat(s, Reads(c, a, amount, read), [BidBegin(c), BidTxRead(c)]);
  }

  /** Both halves of a bid that nobody disturbs. */
  lemma RunBid(s: State, c: CallId, a: AuctionId, amount: real, read: HighestRead)
    requires Ready(s, c, a, amount, read) && a !in s.locks
    ensures var t := Run(s, Approach(c, a, amount, read) + Finish(c));
            && t.auctions == s.auctions[a := s.auctions[a].(currentPrice := Stored(amount))]
            && t.bids == s.bids + [Bid(c, a, c, Stored(amount), s.now)]
            && t.locks == s.locks && t.enders == s.enders && t.now == s.now
            && t.bidders.Keys == s.bidders.Keys + {c}
            && t.bidders[c] == Arrived(s, c, a, amount).(tx := Idle, pc := Done(Placed))
  {
    RunApproach(s, c, a, amount, read);
    RunConcat(s, Approach(c, a, amount, read), Finish(c));
    FinishLands(SetBidder(s, c, Arrived(s, c, a, amount)), c);
  }

  /** There is always an answer to `GetHighestBid`. */
  lemma {:induction false} AnswerExists(bids: seq<Bid>, a: AuctionId) returns (read: HighestRead)
    ensures Answers(bids, a, read) && !read.Unread?
  {
    if bids == [] {
      read := NoBids;
    } else {
      var init, last := bids[..|bids| - 1], bids[|bids| - 1];
      assert bids == init + [last];
      read := AnswerExists(init, a);
      if last.auction == a
         && (read.NoBids? || read.bid.amount < last.amount
             || (read.bid.amount == last.amount && last.createdAt < read.bid.createdAt))
      {
        read := Found(last);
      }
    }
  }

  lemma {:induction false} FreshCall(used: set<CallId>) returns (c: CallId)
    ensures forall d <- used :: d < c
  {
    if used == {} {
      c := 0;
    } else {
      var d :| d in used;
      c := FreshCall(used - {d});
      if c <= d { c := d + 1; }
      assert used == (used - {d}) + {d};
    }
  }
}
