/** What an ender carries from its reads to its write, and who has won. */
module BidEnds {
  import opened Domain
  import opened BidProtocol
  import opened BidInvariant
  import opened BidSerial
  import opened BidPrices

  /** An ender's snapshot never changes, and is dropped only when the call is over. */
  predicate SnapshotKept(s: State, t: State, c: CallId)
    requires c in s.enders
  {
    && c in t.enders && t.enders[c].auction == s.enders[c].auction
    && (s.enders[c].pc.EndDone? ==> t.enders[c].pc.EndDone?)
    && (s.enders[c].HoldsSnapshot() ==>
          t.enders[c].pc.EndDone? || (t.enders[c].HoldsSnapshot() && t.enders[c].pc.row == s.enders[c].pc.row))
  }

  lemma SnapshotStep(s: State, act: Action, c: CallId)
    requires c in s.enders
    ensures SnapshotKept(s, Apply(s, act), c)
  {
  }

  /** A snapshot is taken only of an auction that has not ended. */
  lemma NoSnapshotOfEnded(s: State, act: Action, c: CallId)
    requires c in Apply(s, act).enders && Apply(s, act).enders[c].HoldsSnapshot()
    requires IsEndedIn(s, Apply(s, act).enders[c].auction)
    ensures c in s.enders && s.enders[c].HoldsSnapshot()
  {
  }

  lemma SnapshotTransitive(s: State, t: State, u: State, c: CallId)
    requires c in s.enders && SnapshotKept(s, t, c) && SnapshotKept(t, u, c)
    ensures SnapshotKept(s, u, c)
  {
  }

  lemma {:induction false} SnapshotStays(s: State, acts: seq<Action>, c: CallId)
    requires c in s.enders
    ensures SnapshotKept(s, Run(s, acts), c)
  {
    if acts != [] {
      var m := Run(s, acts[..|acts| - 1]);
      SnapshotStays(s, acts[..|acts| - 1], c);
      SnapshotStep(m, acts[|acts| - 1], c);
      SnapshotTransitive(s, m, Run(s, acts), c);
    }
  }

  // ---------------------------------------------------------------- the price an ender carries

  lemma {:induction false} HighestOfOwn(start: Cents, bids: seq<Bid>, a: AuctionId)
    ensures Highest(start, bids, a) == Highest(start, BidsOf(bids, a), a)
  {
    if bids != [] {
      var init := bids[..|bids| - 1];
      var last := bids[|bids| - 1];
      HighestOfOwn(start, init, a);
      if last.auction == a {
        assert BidsOf(bids, a)[..|BidsOf(bids, a)| - 1] == BidsOf(init, a);
      } else {
        assert BidsOf(bids, a) == BidsOf(init, a);
      }
    }
  }

  /** What the first read of an ender brings into its frame. */
  lemma SnapshotIsTaken(s: State, c: CallId, a: AuctionId)
    requires c in s.enders && s.enders[c] == Ender(a, EndRead) && IsActive(s, a)
    ensures var r := Apply(s, EndReadAuction(c));
            && c in r.enders && r.enders[c] == Ender(a, EndHighest(s.auctions[a].(status := Ended)))
            && r.auctions == s.auctions
  {
  }

  lemma SnapshotArrives(s: State, c: CallId, between: seq<Action>, a: AuctionId)
    requires Inv(s) && c in s.enders && s.enders[c] == Ender(a, EndRead) && IsActive(s, a)
    requires var w := Run(Apply(s, EndReadAuction(c)), between); c in w.enders && w.enders[c].pc.EndStore?
    ensures var w := Run(Apply(s, EndReadAuction(c)), between);
            && w.enders[c].auction == a && w.enders[c].pc.row == s.auctions[a].(status := Ended)
  {
    var r := Apply(s, EndReadAuction(c));
    SnapshotIsTaken(s, c, a);
    SnapshotStays(r, between, c);
  }

  lemma ListingStays(s: State, c: CallId, between: seq<Action>, a: AuctionId)
    requires Inv(s) && a in s.auctions
    ensures var w := Run(Apply(s, EndReadAuction(c)), between);
            && Inv(w) && s.bids <= w.bids
            && a in w.auctions && w.auctions[a].startingPrice == s.auctions[a].startingPrice
  {
    var r := Apply(s, EndReadAuction(c));
    StepKeepsInv(s, EndReadAuction(c));
    QuietStep(s, EndReadAuction(c));
    RunKeepsInv(r, between);
    assert Run(r, between).auctions[a].Listing().startingPrice == r.auctions[a].Listing().startingPrice;
  }

  /** The price an ender carries to its write is the maximum of the bids there were at its first read. */
  lemma EnderCarriesMaximum(s: State, c: CallId, between: seq<Action>, a: AuctionId)
    requires Inv(s) && c in s.enders && s.enders[c] == Ender(a, EndRead) && IsActive(s, a)
    requires var w := Run(Apply(s, EndReadAuction(c)), between); c in w.enders && w.enders[c].pc.EndStore?
    ensures var w := Run(Apply(s, EndReadAuction(c)), between);
            && Inv(w) && s.bids <= w.bids
            && w.enders[c].auction == a
            && a in w.auctions && w.auctions[a].startingPrice == s.auctions[a].startingPrice
            && w.enders[c].pc.row == s.auctions[a].(status := Ended)
            && s.auctions[a].currentPrice == Highest(s.auctions[a].startingPrice, s.bids, a)
  {
    SnapshotArrives(s, c, between, a);
    ListingStays(s, c, between, a);
    assert RowOk(s, a);
    HighestIsMax(s.auctions[a].startingPrice, s.bids, a);
  }

  // ---------------------------------------------------------------- who has won

  lemma {:induction false} OwnBidsOfLog(log: seq<Entry>, a: AuctionId)
    ensures |AcceptedOf(log, a)| == |BidsOf(AcceptedBids(log), a)|
    ensures forall i :: 0 <= i < |AcceptedOf(log, a)| ==>
              AcceptedOf(log, a)[i].bid == BidsOf(AcceptedBids(log), a)[i]
  {
    if log != [] {
      var init := log[..|log| - 1];
      var e := log[|log| - 1];
      OwnBidsOfLog(init, a);
      if e.Accepted? {
        BidsOfAppend(AcceptedBids(init), e.bid, a);
      } else {
        assert AcceptedBids(log) == AcceptedBids(init) && AcceptedOf(log, a) == AcceptedOf(init, a);
      }
    }
  }

  /** The bids are those of the chain, in order. */
  predicate Mirrors(own: seq<Bid>, chain: seq<Entry>)
    requires forall e <- chain :: e.Accepted?
  {
    |own| == |chain| && forall i :: 0 <= i < |own| ==> own[i] == chain[i].bid
  }

  predicate AllWhole(chain: seq<Entry>)
    requires forall e <- chain :: e.Accepted?
  {
    forall e <- chain :: WholeCents(e.offered)
  }

  predicate Tops(own: seq<Bid>, b: Bid) { b in own && forall x <- own :: x.amount <= b.amount }

  /** The own bids of `a`, in commit order, are those of its chain. */
  lemma OwnBidsAreTheChain(acts: seq<Action>, a: AuctionId)
    ensures Mirrors(BidsOf(Run(INIT, acts).bids, a), AcceptedOf(Run(INIT, acts).log, a))
  {
    RowsAreAcceptedBids(acts);
    OwnBidsOfLog(Run(INIT, acts).log, a);
  }

  lemma OnlyTheLastIsHighest(start: Cents, chain: seq<Entry>, i: nat)
    requires forall e <- chain :: e.Accepted? && WholeCents(e.offered)
    requires Linked(start, chain) && i < |chain|
    requires chain[|chain| - 1].bid.amount <= chain[i].bid.amount
    ensures i == |chain| - 1
  {
    if i < |chain| - 1 { WholeCentsClimb(start, chain, i, |chain| - 1); }
  }

  lemma TopIsLast(start: Cents, chain: seq<Entry>, own: seq<Bid>, b: Bid)
    requires forall e <- chain :: e.Accepted?
    requires AllWhole(chain) && Linked(start, chain) && Mirrors(own, chain) && Tops(own, b)
    ensures own != [] && b == own[|own| - 1]
  {
    var i :| 0 <= i < |own| && own[i] == b;
    assert own[|own| - 1] in own;
    OnlyTheLastIsHighest(start, chain, i);
  }

  /** While active and with whole-cent offers, a highest bid is the last one to have committed. */
  lemma HighestBidIsLast(acts: seq<Action>, a: AuctionId, b: Bid)
    requires IsActive(Run(INIT, acts), a)
    requires TopBid(Run(INIT, acts), a, b) && WholeOffers(Run(INIT, acts), a)
    ensures IsLast(Run(INIT, acts), a, b)
  {
    ChainOfRun(acts, a);
    TopOfState(Run(INIT, acts), a, b);
  }

  predicate TopBid(s: State, a: AuctionId, b: Bid) { Tops(BidsOf(s.bids, a), b) }

  predicate WholeOffers(s: State, a: AuctionId) { AllWhole(AcceptedOf(s.log, a)) }

  predicate IsLast(s: State, a: AuctionId, b: Bid) {
    var own := BidsOf(s.bids, a);
    own != [] && b == own[|own| - 1]
  }

  /** The bids of an active auction are those of its chain. */
  predicate ChainedBids(s: State, a: AuctionId)
    requires a in s.auctions
  {
    Chained(s, a) && Mirrors(BidsOf(s.bids, a), AcceptedOf(s.log, a))
  }

  lemma ChainOfRun(acts: seq<Action>, a: AuctionId)
    requires IsActive(Run(INIT, acts), a)
    ensures ChainedBids(Run(INIT, acts), a)
  {
    ActiveChain(acts, a);
    OwnBidsAreTheChain(acts, a);
  }

  lemma TopOfState(s: State, a: AuctionId, b: Bid)
    requires a in s.auctions && ChainedBids(s, a)
    requires WholeOffers(s, a) && TopBid(s, a, b)
    ensures IsLast(s, a, b)
  {
    TopIsLast(s.auctions[a].startingPrice, AcceptedOf(s.log, a), BidsOf(s.bids, a), b);
  }

  /** In a clean end with whole-cent offers the announced winner is the last bidder to have committed. */
  lemma CleanEndNamesLastBidder(before: seq<Action>, c: CallId, between: seq<Action>, a: AuctionId)
    requires var s := Run(INIT, before);
             c in s.enders && s.enders[c] == Ender(a, EndRead) && IsActive(s, a)
             && WholeOffers(s, a)
    requires var s := Run(INIT, before); var w := Run(Apply(s, EndReadAuction(c)), between);
             && BidsOf(w.bids, a) == BidsOf(s.bids, a)
             && c in w.enders && w.enders[c].pc.EndStore? && w.enders[c].pc.read.Found?
    ensures var w := Run(Apply(Run(INIT, before), EndReadAuction(c)), between);
            var own := BidsOf(w.bids, a);
            own != [] && w.enders[c].pc.read.bid == own[|own| - 1]
  {
    var s := Run(INIT, before);
    var w := Run(Apply(s, EndReadAuction(c)), between);
    var b := w.enders[c].pc.read.bid;
    Reachable(before);
    EnderCarriesMaximum(s, c, between, a);
    HighestOfOwn(s.auctions[a].startingPrice, s.bids, a);
    HighestOfOwn(s.auctions[a].startingPrice, w.bids, a);
    assert EnderOk(w, c);
    HighestIsMax(w.auctions[a].startingPrice, w.bids, a);
    BidsOfMembers(w.bids, a);
    HighestBidIsLast(before, a, b);
  }
}
