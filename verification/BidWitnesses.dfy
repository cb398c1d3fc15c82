/** Concrete runs for what the protocol does not promise. */
module BidWitnesses {
  import opened Domain
  import opened BidProtocol
  import opened BidSerial
  import opened BidPrices
  import opened BidLate
  import opened BidSolo
  import opened BidPeriod

  /** Auction 0: item 0, from 10.00, from time 0 to time 100. */
  const LOT := AuctionRow(0, 9, 0, 100, 1000, 1000, Active)

  const OPENED: State := INIT.(now := 1, auctions := map[0 := LOT], log := [Opened(0, LOT)])

  lemma RunOpen()
    ensures Run(INIT, [Advance(1), OpenAuction(0, LOT)]) == OPENED
  {
    RunTwo(INIT, Advance(1), OpenAuction(0, LOT));
  }

  /** Ender 7 takes its snapshot. */
  const SNAPSHOT: seq<Action> := [StartEnd(7, 0), EndReadAuction(7)]

  lemma RunSnapshot(s: State)
    requires 7 !in s.enders && IsActive(s, 0)
    ensures Run(s, SNAPSHOT) == s.(enders := s.enders[7 := Ender(0, EndHighest(s.auctions[0].(status := Ended)))])
  {
    RunTwo(s, StartEnd(7, 0), EndReadAuction(7));
    assert Apply(s, StartEnd(7, 0)) == s.(enders := s.enders[7 := Ender(0, EndRead)]);
    LastUpdateCounts(s.enders, 7, Ender(0, EndRead), Ender(0, EndHighest(s.auctions[0].(status := Ended))));
  }

  lemma LastUpdateCounts(enders: map<CallId, Ender>, c: CallId, e: Ender, e': Ender)
    ensures enders[c := e][c := e'] == enders[c := e']
  {
  }

  predicate EndsWith(log: seq<Entry>, e: Entry) { log != [] && log[|log| - 1] == e }

  lemma RunHighest(s: State, row: AuctionRow, read: HighestRead)
    requires 7 in s.enders && s.enders[7] == Ender(0, EndHighest(row)) && Answers(s.bids, 0, read)
    ensures Run(s, [EndReadHighest(7, read)]) == s.(enders := s.enders[7 := Ender(0, EndStore(row, read))])
  {
    RunOne(s, EndReadHighest(7, read));
  }

  lemma WriteLands(s: State, row: AuctionRow, read: HighestRead)
    requires 7 in s.enders && s.enders[7] == Ender(0, EndStore(row, read))
    requires 0 in s.auctions && 0 !in s.locks
    ensures var t := Apply(s, EndWrite(7, true));
            && t.auctions == s.auctions[0 := row] && t.bids == s.bids && t.bidders == s.bidders && t.locks == s.locks
            && t.now == s.now && EndsWith(t.log, Closed(0, row, read))
  {
  }

  const FIRST := Bid(1, 0, 1, 2000, 1)

  function FirstBid(): seq<Action> { Approach(1, 0, 2000.0, NoBids) + Finish(1) }

  /** The price falls across an end, below what that same end announces: a bid landed between its reads. */
  lemma PriceFallsAcrossAnEnd() returns (before: seq<Action>, write: Action)
    ensures var s := Run(INIT, before); var t := Apply(s, write);
            && IsActive(s, 0) && s.auctions[0].currentPrice == 2000
            && IsEndedIn(t, 0) && t.auctions[0].currentPrice == 1000
            && EndsWith(t.log, Closed(0, LOT.(status := Ended), Found(FIRST)))
  {
    RunOpen();
    before := [Advance(1), OpenAuction(0, LOT)];
    RunSnapshot(OPENED);
    before := Then(before, SNAPSHOT);
    RunBid(Run(INIT, before), 1, 0, 2000.0, NoBids);
    before := Then(before, FirstBid());
    RunHighest(Run(INIT, before), LOT.(status := Ended), Found(FIRST));
    before := Then(before, [EndReadHighest(7, Found(FIRST))]);
    write := EndWrite(7, true);
    WriteLands(Run(INIT, before), LOT.(status := Ended), Found(FIRST));
  }

  /** Go on with a run. */
  lemma Then(acts: seq<Action>, more: seq<Action>) returns (all: seq<Action>)
    ensures Run(INIT, all) == Run(Run(INIT, acts), more)
  {
    all := acts + more;
    RunConcat(INIT, acts, more);
  }

  /** Clean ends do happen: a bid is placed, the auction ends, and its bidder is read as the winner. */
  lemma CleanEndHappens() returns (before: seq<Action>, between: seq<Action>)
    ensures var s := Run(INIT, before); var w := Run(Apply(s, EndReadAuction(7)), between);
            && 7 in s.enders && s.enders[7] == Ender(0, EndRead) && IsActive(s, 0)
            && BidsOf(w.bids, 0) == BidsOf(s.bids, 0) && PastCheck(w, 0) == {}
            && 7 in w.enders && w.enders[7].pc.EndStore? && w.enders[7].pc.read == Found(FIRST)
            && Apply(w, EndWrite(7, true)).log != w.log
  {
    before := SoldAndEnding();
    var s := Run(INIT, before);
    between := [EndReadHighest(7, Found(FIRST))];
    RunHighest(Apply(s, EndReadAuction(7)), s.auctions[0].(status := Ended), Found(FIRST));
  }

  lemma SoldAndEnding() returns (acts: seq<Action>)
    ensures var s := Run(INIT, acts);
            && s.auctions == map[0 := LOT.(currentPrice := 2000)] && s.bids == [FIRST] && s.locks == map[]
            && s.bidders.Keys == {1} && s.bidders[1].pc == Done(Placed)
            && 7 in s.enders && s.enders[7] == Ender(0, EndRead)
  {
    RunOpen();
    acts := [Advance(1), OpenAuction(0, LOT)];
    RunBid(OPENED, 1, 0, 2000.0, NoBids);
    acts := Then(acts, FirstBid());
    RunOne(Run(INIT, acts), StartEnd(7, 0));
    acts := Then(acts, [StartEnd(7, 0)]);
  }

  /** A bid commits after the end, on an auction announced to have had none. */
  lemma BidCommitsAfterTheEnd() returns (before: seq<Action>, after: seq<Action>)
    ensures var s := Run(INIT, before); var t := Run(s, after);
            && IsEndedIn(s, 0) && s.bids == [] && EndsWith(s.log, Closed(0, LOT.(status := Ended), NoBids))
            && IsEndedIn(t, 0) && t.auctions[0].currentPrice == 2000 && t.bids == [FIRST]
  {
    RunOpen();
    before := [Advance(1), OpenAuction(0, LOT)];
    RunApproach(OPENED, 1, 0, 2000.0, NoBids);
    before := Then(before, Approach(1, 0, 2000.0, NoBids));
    RunSnapshot(Run(INIT, before));
    before := Then(before, SNAPSHOT);
    RunHighest(Run(INIT, before), LOT.(status := Ended), NoBids);
    before := Then(before, [EndReadHighest(7, NoBids)]);
    WriteLands(Run(INIT, before), LOT.(status := Ended), NoBids);
    RunOne(Run(INIT, before), EndWrite(7, true));
    before := Then(before, [EndWrite(7, true)]);
    FinishLands(Run(INIT, before), 1);
    after := Finish(1);
  }

  /** A bid is accepted long after the end time, because nobody has ended the auction yet. */
  lemma BidIsAcceptedAfterTheEndTime() returns (acts: seq<Action>)
    ensures var s := Run(INIT, acts);
            && IsActive(s, 0) && s.auctions[0].endTime == 100
            && s.bids == [Bid(1, 0, 1, 2000, 1000)] && PastCheck(s, 0) == {}
            && OverdueBid(INIT, s, 0, 1)
  {
    RunOpen();
    acts := [Advance(1), OpenAuction(0, LOT)];
    RunOne(OPENED, Advance(999));
    acts := Then(acts, [Advance(999)]);
    RunBid(Run(INIT, acts), 1, 0, 2000.0, NoBids);
    acts := Then(acts, FirstBid());
    assert Run(INIT, acts).bidders.Keys == {1};
  }

  /** Bidder 2 waits to insert 15.00 while bidder 1 pays 20.00 and the end goes back to 10.00. */
  lemma RunUpToUndercut() returns (before: seq<Action>)
    ensures var s := Run(INIT, before);
            && s.auctions == map[0 := LOT.(status := Ended)] && s.locks == map[] && s.bids == [FIRST]
            && 2 in s.bidders && s.bidders[2] == Arrived(OPENED, 2, 0, 1500.0)
  {
    RunOpen();
    before := [Advance(1), OpenAuction(0, LOT)];
    RunApproach(OPENED, 2, 0, 1500.0, NoBids);
    before := Then(before, Approach(2, 0, 1500.0, NoBids));
    RunSnapshot(Run(INIT, before));
    before := Then(before, SNAPSHOT);
    var s := Run(INIT, before);
    RunApproach(s, 1, 0, 2000.0, NoBids);
    before := Then(before, Approach(1, 0, 2000.0, NoBids));
    FinishLands(Run(INIT, before), 1);
    before := Then(before, Finish(1));
    before := EndOver(before);
  }

  lemma EndOver(acts: seq<Action>) returns (all: seq<Action>)
    requires var s := Run(INIT, acts);
             && 7 in s.enders && s.enders[7] == Ender(0, EndHighest(LOT.(status := Ended)))
             && 0 in s.auctions && 0 !in s.locks && s.bids == [FIRST]
    ensures var s, t := Run(INIT, acts), Run(INIT, all);
            && t.auctions == s.auctions[0 := LOT.(status := Ended)]
            && t.bids == s.bids && t.bidders == s.bidders && t.locks == s.locks
  {
    RunHighest(Run(INIT, acts), LOT.(status := Ended), Found(FIRST));
    all := Then(acts, [EndReadHighest(7, Found(FIRST))]);
    WriteLands(Run(INIT, all), LOT.(status := Ended), Found(FIRST));
    RunOne(Run(INIT, all), EndWrite(7, true));
    all := Then(all, [EndWrite(7, true)]);
  }

  /** A bid of 15.00 is accepted after one of 20.00. */
  lemma BidUndercutsHighest() returns (before: seq<Action>, after: seq<Action>)
    ensures var s := Run(INIT, before); var t := Run(s, after);
            && IsEndedIn(s, 0) && s.bids == [FIRST] && FIRST.amount == 2000
            && t.bids == [FIRST, Bid(2, 0, 2, 1500, 1)] && 0 in t.auctions && t.auctions[0].currentPrice == 1500
  {
    before := RunUpToUndercut();
    after := Finish(2);
    assert Stored(1500.0) == 1500;
    FinishLands(Run(INIT, before), 2);
  }

  /** A failed read of the highest bid is taken for "no bids": a sold auction ends without a winner. */
  lemma UnreadBidEndsWithoutWinner() returns (acts: seq<Action>)
    ensures var s := Run(INIT, acts);
            && s.bids == [FIRST]
            && EndsWith(s.log, Closed(0, LOT.(status := Ended, currentPrice := 2000), Unread))
  {
    RunOpen();
    acts := [Advance(1), OpenAuction(0, LOT)];
    RunBid(OPENED, 1, 0, 2000.0, NoBids);
    acts := Then(acts, FirstBid());
    RunSnapshot(Run(INIT, acts));
    acts := Then(acts, SNAPSHOT);
    var row := LOT.(status := Ended, currentPrice := 2000);
    RunHighest(Run(INIT, acts), row, Unread);
    acts := Then(acts, [EndReadHighest(7, Unread)]);
    WriteLands(Run(INIT, acts), row, Unread);
    RunOne(Run(INIT, acts), EndWrite(7, true));
    acts := Then(acts, [EndWrite(7, true)]);
  }

  /** Below a cent two accepted bids are stored alike, and the earlier one is the highest. */
  lemma SubCentBidsTie() returns (acts: seq<Action>, first: Bid, last: Bid)
    ensures var s := Run(INIT, acts);
            && IsActive(s, 0) && s.bids == [first, last] && first.amount == last.amount
            && IsHighest(s.bids, 0, first) && !IsHighest(s.bids, 0, last)
            && s.auctions[0].currentPrice == s.auctions[0].startingPrice
  {
    first, last := Bid(1, 0, 1, 1000, 1), Bid(2, 0, 2, 1000, 2);
    assert Stored(1000.2) == 1000 == Stored(1000.3);
    RunOpen();
    acts := [Advance(1), OpenAuction(0, LOT)];
    RunBid(OPENED, 1, 0, 1000.2, NoBids);
    acts := Then(acts, Approach(1, 0, 1000.2, NoBids) + Finish(1));
    assert Run(INIT, acts).bids == [first];
    RunOne(Run(INIT, acts), Advance(1));
    acts := Then(acts, [Advance(1)]);
    RunBid(Run(INIT, acts), 2, 0, 1000.3, Found(first));
    acts := Then(acts, Approach(2, 0, 1000.3, Found(first)) + Finish(2));
    assert Run(INIT, acts).bids[1] == last;
  }
}
