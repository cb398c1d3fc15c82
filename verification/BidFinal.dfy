/** When price, winner and agreement are final after an end, and when a bid can undercut. */
module BidFinal {
  import opened Domain
  import opened BidProtocol
  import opened BidInvariant
  import opened BidSerial
  import opened BidPrices
  import opened BidEnds
  import opened BidLate

  // ---------------------------------------------------------------- the price

  /** Nobody who is still ending `a`, or still bidding on it, would move its price from `p`. */
  predicate Steady(s: State, a: AuctionId, p: Cents) {
    && (forall e <- s.enders | Ending(s, a, e) :: s.enders[e].pc.row.currentPrice == p)
    && (forall c <- PastCheck(s, a) | s.bidders[c].expected == p :: Stored(s.bidders[c].amount) == p)
  }

  predicate HasPrice(s: State, a: AuctionId, p: Cents) { a in s.auctions && s.auctions[a].currentPrice == p }

  /** The price of `a` is `p` in this state and in every later one. */
  ghost predicate PriceIsFinal(s: State, a: AuctionId, p: Cents) {
    forall acts :: HasPrice(Run(s, acts), a, p)
  }

  lemma {:induction false} SteadyPlan(s: State, a: AuctionId, p: Cents, plan: seq<Event>)
    requires HasPrice(s, a, p) && Steady(s, a, p) && Plan(s, a, plan)
    ensures PriceAfter(s, a, plan) == p
    ensures forall b <- Landed(s, plan) :: b.amount == p
  {
    if plan != [] {
      SteadyPlan(s, a, p, plan[..|plan| - 1]);
    }
  }

  /**
   The price of an ended auction is final if and only if every call still ending it is about to write
   that price, and no transaction past its check that expects the price would store another one.
   */
  lemma PriceIsFinalIff(s: State, a: AuctionId)
    requires Inv(s) && IsEndedIn(s, a)
    ensures var p := s.auctions[a].currentPrice; PriceIsFinal(s, a, p) <==> Steady(s, a, p)
  {
    var p := s.auctions[a].currentPrice;
    if Steady(s, a, p) {
      forall acts ensures HasPrice(Run(s, acts), a, p) {
        var plan := RunFollowsPlan(s, acts, a);
        SteadyPlan(s, a, p, plan);
      }
    } else {
      var ev := Mover(s, a);
      PlanSnoc(s, a, [], ev);
      var acts := PlanIsCarriedOut(s, a, [] + [ev]);
      assert !HasPrice(Run(s, acts), a, p);
    }
  }

  lemma Mover(s: State, a: AuctionId) returns (ev: Event)
    requires a in s.auctions && !Steady(s, a, s.auctions[a].currentPrice)
    ensures Fits(s, a, [], ev) && Leaves(s, a, ev) != s.auctions[a].currentPrice
  {
    var p := s.auctions[a].currentPrice;
    if e :| e in s.enders && Ending(s, a, e) && s.enders[e].pc.row.currentPrice != p {
      ev := Rewrites(e);
    } else {
      var c :| c in PastCheck(s, a) && s.bidders[c].expected == p && Stored(s.bidders[c].amount) != p;
      ev := Lands(c);
    }
  }

  // ---------------------------------------------------------------- agreement of price and bids

  /** The row price is the maximum of the bids. */
  predicate AgreesOn(t: State, a: AuctionId, start: Cents, p: Cents) {
    HasPrice(t, a, p) && Highest(start, t.bids, a) == p
  }

  ghost predicate AgreesForever(t: State, a: AuctionId, start: Cents, p: Cents) {
    forall later :: AgreesOn(Run(t, later), a, start, p)
  }

  lemma {:induction false} HighestOfEqual(start: Cents, bids: seq<Bid>, more: seq<Bid>, a: AuctionId, p: Cents)
    requires Highest(start, bids, a) == p && forall b <- more :: b.amount == p
    ensures Highest(start, bids + more, a) == p
  {
    if more == [] {
      assert bids + more == bids;
    } else {
      HighestOfEqual(start, bids, more[..|more| - 1], a, p);
      assert (bids + more)[..|bids + more| - 1] == bids + more[..|more| - 1];
    }
  }

  lemma AgreementIsFinalIff(t: State, a: AuctionId, start: Cents, p: Cents)
    requires Inv(t) && IsEndedIn(t, a) && AgreesOn(t, a, start, p)
    ensures AgreesForever(t, a, start, p) <==> Steady(t, a, p)
  {
    PriceIsFinalIff(t, a);
    if Steady(t, a, p) {
      forall later ensures AgreesOn(Run(t, later), a, start, p) {
        var plan := RunFollowsPlan(t, later, a);
        SteadyPlan(t, a, p, plan);
        HighestOfOwn(start, t.bids, a);
        HighestOfOwn(start, Run(t, later).bids, a);
        HighestOfEqual(start, BidsOf(t.bids, a), Landed(t, plan), a, p);
      }
    } else {
      var acts :| !HasPrice(Run(t, acts), a, p);
      assert !AgreesOn(Run(t, acts), a, start, p);
    }
  }

  /** Bids that came after the first `k` rows. */
  predicate NoneAbove(bids: seq<Bid>, k: nat, a: AuctionId, p: Cents)
    requires k <= |bids|
  {
    forall b <- bids[k..] | b.auction == a :: b.amount <= p
  }

  /** A maximum stays one exactly as long as nothing larger is added. */
  lemma MaximumStaysIff(start: Cents, bids: seq<Bid>, k: nat, a: AuctionId)
    requires k <= |bids|
    ensures var p := Highest(start, bids[..k], a); Highest(start, bids, a) == p <==> NoneAbove(bids, k, a, p)
  {
    HighestIsMax(start, bids[..k], a);
    HighestIsMax(start, bids, a);
    assert bids == bids[..k] + bids[k..];
    assert forall b :: b in bids <==> b in bids[..k] || b in bids[k..];
  }

  lemma WriteShows(w: State, c: CallId, acknowledged: bool)
    requires Inv(w) && Apply(w, EndWrite(c, acknowledged)).log != w.log
    ensures var t := Apply(w, EndWrite(c, acknowledged));
            && Inv(t) && c in w.enders && w.enders[c].pc.EndStore?
            && IsEndedIn(t, w.enders[c].auction) && t.bids == w.bids
            && w.enders[c].auction in w.auctions
            && t.auctions[w.enders[c].auction] == w.enders[c].pc.row
            && t.auctions[w.enders[c].auction].startingPrice == w.auctions[w.enders[c].auction].startingPrice
  {
    WriteEffect(w, c, acknowledged);
    WriteStep(w, c, acknowledged);
    assert EnderOk(w, c);
    assert w.enders[c].pc.row.Listing().startingPrice == w.auctions[w.enders[c].auction].Listing().startingPrice;
  }

  /**
   The end that wrote `row` and announced `read` in state `t` agrees with the bids if and only if none came
   after the first `k` above the price of the row; then the announcement agrees too, and all of it stays so
   if and only if the auction is steady.
   */
  ghost predicate EndAgrees(t: State, a: AuctionId, row: AuctionRow, read: HighestRead, k: nat)
    requires k <= |t.bids|
  {
    var p := row.currentPrice;
    && (AgreesOn(t, a, row.startingPrice, p) <==> NoneAbove(t.bids, k, a, p))
    && (AgreesOn(t, a, row.startingPrice, p) ==>
          && (read.Found? ==> read.bid.amount == p)
          && (read.NoBids? ==> row.startingPrice == p)
          && (AgreesForever(t, a, row.startingPrice, p) <==> Steady(t, a, p)))
  }

  /** What an ender that read an active auction has written when it is done, whatever happened in between. */
  lemma CleanEnd(s: State, c: CallId, between: seq<Action>, acknowledged: bool, a: AuctionId)
    requires Inv(s) && c in s.enders && s.enders[c] == Ender(a, EndRead) && IsActive(s, a)
    requires var w := Run(Apply(s, EndReadAuction(c)), between); Apply(w, EndWrite(c, acknowledged)).log != w.log
    ensures var w := Run(Apply(s, EndReadAuction(c)), between);
            var t := Apply(w, EndWrite(c, acknowledged));
            && c in w.enders && w.enders[c].pc.EndStore?
            && a in t.auctions && t.auctions[a] == s.auctions[a].(status := Ended)
            && |s.bids| <= |t.bids|
            && EndAgrees(t, a, s.auctions[a].(status := Ended), w.enders[c].pc.read, |s.bids|)
  {
    WriterIsThere(Run(Apply(s, EndReadAuction(c)), between), c, acknowledged);
    EnderCarriesMaximum(s, c, between, a);
    CarriedRowAgrees(s, Run(Apply(s, EndReadAuction(c)), between), c, acknowledged, a);
  }

  lemma WriterIsThere(w: State, c: CallId, acknowledged: bool)
    requires Apply(w, EndWrite(c, acknowledged)).log != w.log
    ensures c in w.enders && w.enders[c].pc.EndStore?
  {
  }

  lemma CarriedRowAgrees(s: State, w: State, c: CallId, acknowledged: bool, a: AuctionId)
    requires Inv(w) && s.bids <= w.bids && a in s.auctions
    requires c in w.enders && w.enders[c].pc.EndStore? && w.enders[c].auction == a
    requires w.enders[c].pc.row == s.auctions[a].(status := Ended)
    requires s.auctions[a].currentPrice == Highest(s.auctions[a].startingPrice, s.bids, a)
    requires Apply(w, EndWrite(c, acknowledged)).log != w.log
    ensures var t := Apply(w, EndWrite(c, acknowledged));
            && a in t.auctions && t.auctions[a] == s.auctions[a].(status := Ended)
            && |s.bids| <= |t.bids|
            && EndAgrees(t, a, s.auctions[a].(status := Ended), w.enders[c].pc.read, |s.bids|)
  {
    assert w.bids[..|s.bids|] == s.bids;
    WriteAgrees(w, c, acknowledged, |s.bids|, a);
  }

  lemma WriteAgrees(w: State, c: CallId, acknowledged: bool, k: nat, a: AuctionId)
    requires Inv(w) && Apply(w, EndWrite(c, acknowledged)).log != w.log
    requires c in w.enders && w.enders[c].pc.EndStore? && w.enders[c].auction == a
    requires var row := w.enders[c].pc.row;
             k <= |w.bids| && Highest(row.startingPrice, w.bids[..k], a) == row.currentPrice
    ensures var t := Apply(w, EndWrite(c, acknowledged)); var row := w.enders[c].pc.row;
            && a in t.auctions && t.auctions[a] == row && t.bids == w.bids
            && EndAgrees(t, a, row, w.enders[c].pc.read, k)
  {
    WriteShows(w, c, acknowledged);
    assert ReadOk(w, a, w.enders[c].pc.row, w.enders[c].pc.read) by { assert EnderOk(w, c); }
    RowAgrees(w, Apply(w, EndWrite(c, acknowledged)), k, w.enders[c].pc.row, w.enders[c].pc.read, a);
  }

  lemma RowAgrees(w: State, t: State, k: nat, row: AuctionRow, read: HighestRead, a: AuctionId)
    requires Inv(t) && IsEndedIn(t, a) && t.auctions[a] == row && t.bids == w.bids
    requires k <= |w.bids| && Highest(row.startingPrice, w.bids[..k], a) == row.currentPrice
    requires ReadOk(w, a, row, read)
    ensures EndAgrees(t, a, row, read, k)
  {
    MaximumStaysIff(row.startingPrice, w.bids, k, a);
    if AgreesOn(t, a, row.startingPrice, row.currentPrice) {
      HighestIsMax(row.startingPrice, w.bids, a);
      AgreementIsFinalIff(t, a, row.startingPrice, row.currentPrice);
    }
  }

  // ---------------------------------------------------------------- the winner

  /** Bid `x` comes before `b` in the order of `GetHighestBid`. */
  predicate Beats(x: Bid, b: Bid) {
    x.amount > b.amount || (x.amount == b.amount && x.createdAt < b.createdAt)
  }

  ghost predicate WinsForever(t: State, a: AuctionId, b: Bid) {
    forall later :: IsHighest(Run(t, later).bids, a, b)
  }

  lemma HighestOfMore(bids: seq<Bid>, more: seq<Bid>, own: seq<Bid>, late: seq<Bid>, a: AuctionId, b: Bid)
    requires own == BidsOf(bids, a) && BidsOf(more, a) == own + late && IsHighest(bids, a, b)
    ensures IsHighest(more, a, b) <==> forall x <- late :: !Beats(x, b)
  {
    BidsOfMembers(bids, a);
    BidsOfMembers(more, a);
    assert b in own;
    assert forall x :: x in own + late <==> x in own || x in late;
    assert forall x <- late :: x in BidsOf(more, a);
  }

  /**
   A bid on an ended auction is the highest one for good if and only if it is now, and no transaction
   that some plan has commit would beat it.
   */
  lemma WinnerIsFinalIff(t: State, a: AuctionId, b: Bid)
    requires Inv(t) && IsEndedIn(t, a)
    ensures WinsForever(t, a, b) <==>
              && IsHighest(t.bids, a, b)
              && forall c <- PastCheck(t, a) | MayLand(t, a, c) :: !Beats(NewBid(c, t.bidders[c]), b)
  {
    if IsHighest(t.bids, a, b) && forall c <- PastCheck(t, a) | MayLand(t, a, c) :: !Beats(NewBid(c, t.bidders[c]), b) {
      forall later ensures IsHighest(Run(t, later).bids, a, b) { StaysWinner(t, later, a, b); }
    }
    if WinsForever(t, a, b) {
      assert Run(t, []) == t;
      forall c <- PastCheck(t, a) | MayLand(t, a, c) ensures !Beats(NewBid(c, t.bidders[c]), b) {
        NobodyBeatsForever(t, a, b, c);
      }
    }
  }

  lemma StaysWinner(t: State, later: seq<Action>, a: AuctionId, b: Bid)
    requires Inv(t) && IsEndedIn(t, a) && IsHighest(t.bids, a, b)
    requires forall c <- PastCheck(t, a) | MayLand(t, a, c) :: !Beats(NewBid(c, t.bidders[c]), b)
    ensures IsHighest(Run(t, later).bids, a, b)
  {
    var plan := RunFollowsPlan(t, later, a);
    LandedMembers(t, a, plan);
    forall x <- Landed(t, plan) ensures !Beats(x, b) {
      assert Possible(t, a, Lands(x.id)) && MayLand(t, a, x.id);
    }
    HighestOfMore(t.bids, Run(t, later).bids, BidsOf(t.bids, a), Landed(t, plan), a, b);
  }

  lemma NobodyBeatsForever(t: State, a: AuctionId, b: Bid, c: CallId)
    requires Inv(t) && a in t.auctions && MayLand(t, a, c) && WinsForever(t, a, b) && IsHighest(t.bids, a, b)
    ensures c in t.bidders && !Beats(NewBid(c, t.bidders[c]), b)
  {
    var plan :| Plan(t, a, plan) && Lands(c) in plan;
    assert Possible(t, a, Lands(c));
    var acts := PlanIsCarriedOut(t, a, plan);
    LandedMembers(t, a, plan);
    assert IsHighest(Run(t, acts).bids, a, b);
    HighestOfMore(t.bids, Run(t, acts).bids, BidsOf(t.bids, a), Landed(t, plan), a, b);
  }

  // ---------------------------------------------------------------- bids that do not exceed the highest

  /** Call `c` is about to commit a bid that does not exceed the highest one. */
  predicate Undercuts(s: State, c: CallId) {
    && At(s, c, Commit)
    && var b := s.bidders[c];
       b.auction in s.auctions && b.amount <= Highest(s.auctions[b.auction].startingPrice, s.bids, b.auction) as real
  }

  /** While an auction is active, every commit exceeds the highest bid. */
  lemma ActiveCommitExceedsHighest(s: State, c: CallId)
    requires Inv(s) && At(s, c, Commit) && IsActive(s, s.bidders[c].auction)
    ensures var b := s.bidders[c]; b.amount > Highest(s.auctions[b.auction].startingPrice, s.bids, b.auction) as real
  {
    var a := s.bidders[c].auction;
    assert BidderOk(s, c);
    assert RowOk(s, a);
    HighestIsMax(s.auctions[a].startingPrice, s.bids, a);
  }

  ghost predicate CanBeUndercut(s: State, a: AuctionId) {
    exists acts, c :: UndercutsOn(Run(s, acts), a, c)
  }

  predicate UndercutsOn(t: State, a: AuctionId, c: CallId) { Undercuts(t, c) && t.bidders[c].auction == a }

  /** After `plan` transaction `c` finds its expected price, but not a highest bid below its amount. */
  predicate UndercutPlan(s: State, a: AuctionId, plan: seq<Event>, c: CallId)
    requires a in s.auctions
  {
    && Plan(s, a, plan) && Fits(s, a, plan, Lands(c))
    && s.bidders[c].amount <= Highest(s.auctions[a].startingPrice, BidsOf(s.bids, a) + Landed(s, plan), a) as real
  }

  lemma UndercutIsPlanned(s: State, acts: seq<Action>, a: AuctionId, c: CallId) returns (plan: seq<Event>)
    requires Inv(s) && IsEndedIn(s, a) && UndercutsOn(Run(s, acts), a, c)
    ensures UndercutPlan(s, a, plan, c)
  {
    var t := Run(s, acts);
    plan := RunFollowsPlan(s, acts, a);
    RunKeepsInv(s, acts);
    CommitFits(s, t, c, a, plan);
    assert SameOffer(s.bidders[c], t.bidders[c]) by { assert c in PastCheck(t, a); }
    assert s.auctions[a].Listing().startingPrice == t.auctions[a].Listing().startingPrice;
    HighestOfOwn(s.auctions[a].startingPrice, t.bids, a);
  }

  /** Insert and update alone. */
  lemma UpToCommit(s: State, c: CallId)
    requires Unhindered(s, c)
    requires s.bidders[c].tx.Open?
    ensures var t := Run(s, [BidInsert(c), BidUpdate(c)]);
            && At(t, c, Commit) && t.auctions == s.auctions && t.bids == s.bids
            && t.bidders[c].amount == s.bidders[c].amount && t.bidders[c].auction == s.bidders[c].auction
  {
    RunTwo(s, BidInsert(c), BidUpdate(c));
  }

  lemma PlannedUndercutHappens(s: State, a: AuctionId, plan: seq<Event>, c: CallId) returns (acts: seq<Action>)
    requires Inv(s) && a in s.auctions && UndercutPlan(s, a, plan, c)
    ensures UndercutsOn(Run(s, acts), a, c)
  {
    HighestOfOwn(s.auctions[a].startingPrice, s.bids, a);
    if At(s, c, Commit) {
      acts := [];
      assert BidsOf(s.bids, a) + Landed(s, plan) == BidsOf(s.bids, a);
    } else {
      var done := PlanIsCarriedOut(s, a, plan);
      RunKeepsInv(s, done);
      RoomForUndercut(s, Run(s, done), a, plan, c);
      RunConcat(s, done, [BidInsert(c), BidUpdate(c)]);
      acts := done + [BidInsert(c), BidUpdate(c)];
    }
  }

  lemma RoomForUndercut(s: State, t: State, a: AuctionId, plan: seq<Event>, c: CallId)
    requires a in s.auctions && UndercutPlan(s, a, plan, c) && !At(s, c, Commit)
    requires Inv(t) && Grows(s, t) && CarriedOut(s, t, a, plan)
    ensures UndercutsOn(Run(t, [BidInsert(c), BidUpdate(c)]), a, c)
  {
    assert t.bidders[c] == s.bidders[c];
    assert t.bidders[c].tx.Open? by { assert BidderOk(t, c); }
    UpToCommit(t, c);
    assert s.auctions[a].Listing().startingPrice == t.auctions[a].Listing().startingPrice;
    HighestOfOwn(s.auctions[a].startingPrice, t.bids, a);
  }

  /** An ended auction can get a bid that does not exceed the highest if and only if some plan makes room for one. */
  lemma UndercutIff(s: State, a: AuctionId)
    requires Inv(s) && IsEndedIn(s, a)
    ensures CanBeUndercut(s, a) <==> exists plan, c :: UndercutPlan(s, a, plan, c)
  {
    if acts, c :| UndercutsOn(Run(s, acts), a, c) {
      var plan := UndercutIsPlanned(s, acts, a, c);
    }
    if plan, c :| UndercutPlan(s, a, plan, c) {
      var acts := PlannedUndercutHappens(s, a, plan, c);
    }
  }
}
