/** What the cached price, the end of an auction and the answers to callers are worth. */
module BidPrices {
  import opened Collections
  import opened Domain
  import opened BidProtocol
  import opened BidInvariant
  import opened BidSerial

  // ---------------------------------------------------------------- the cached price

  function Highest(start: Cents, bids: seq<Bid>, a: AuctionId): Cents {
    if bids == [] then start
    else
      var last := bids[|bids| - 1];
      var rest := Highest(start, bids[..|bids| - 1], a);
      if last.auction == a && last.amount > rest then last.amount else rest
  }

  lemma {:induction false} HighestIsMax(start: Cents, bids: seq<Bid>, a: AuctionId)
    ensures var h := Highest(start, bids, a);
            && start <= h
            && (forall b <- bids | b.auction == a :: b.amount <= h)
            && (h == start || exists b <- bids :: b.auction == a && b.amount == h)
  {
    if bids != [] {
      var init := bids[..|bids| - 1];
      HighestIsMax(start, init, a);
      assert bids == init + [bids[|bids| - 1]];
      var h := Highest(start, init, a);
      if h != start {
        var b :| b in init && b.auction == a && b.amount == h;
        assert b in bids;
      }
    }
  }

  /** While active, the cached price is the maximum over the bids table, and what `GetHighestBid` returns. */
  lemma ActivePriceIsHighest(acts: seq<Action>, a: AuctionId, read: HighestRead)
    requires var s := Run(INIT, acts); IsActive(s, a) && Answers(s.bids, a, read)
    ensures var s := Run(INIT, acts); var row := s.auctions[a];
            && row.currentPrice == Highest(row.startingPrice, s.bids, a)
            && (read.Found? ==> read.bid.amount == row.currentPrice)
            && (read.NoBids? ==> row.startingPrice == row.currentPrice)
  {
    var s := Run(INIT, acts);
    Reachable(acts);
    assert RowOk(s, a);
    HighestIsMax(s.auctions[a].startingPrice, s.bids, a);
  }

  /** In every state, ended or not, stale writes or not. */
  lemma PriceIsBounded(acts: seq<Action>, a: AuctionId)
    requires a in Run(INIT, acts).auctions
    ensures var s := Run(INIT, acts); var row := s.auctions[a];
            && row.startingPrice <= row.currentPrice <= Highest(row.startingPrice, s.bids, a)
            && KnownPrice(s, a, row.currentPrice)
  {
    var s := Run(INIT, acts);
    Reachable(acts);
    assert RowOk(s, a);
    HighestIsMax(s.auctions[a].startingPrice, s.bids, a);
  }

  /** A price falls exactly at an ender's write that carries an older, lower price to an unlocked row. */
  lemma PriceFallsIff(s: State, act: Action, a: AuctionId)
    requires Inv(s) && a in s.auctions
    ensures a in Apply(s, act).auctions
    ensures Apply(s, act).auctions[a].currentPrice < s.auctions[a].currentPrice
            <==> && act.EndWrite? && act.c in s.enders && s.enders[act.c].auction == a
                 && s.enders[act.c].pc.EndStore? && a !in s.locks
                 && s.enders[act.c].pc.row.currentPrice < s.auctions[a].currentPrice
  {
    match act
    case OpenAuction(x, row) => OpenSpares(s, x, row, a);
    case BidCommit(c, acknowledged) => CommitNeverLowers(s, c, acknowledged, a);
    case EndWrite(c, acknowledged) => WriteLowersIff(s, c, acknowledged, a);
    case _ => QuietStep(s, act);
  }

  lemma CommitNeverLowers(s: State, c: CallId, acknowledged: bool, a: AuctionId)
    requires Inv(s) && a in s.auctions
    ensures var t := Apply(s, BidCommit(c, acknowledged));
            a in t.auctions && t.auctions[a].currentPrice >= s.auctions[a].currentPrice
  {
    if At(s, c, Commit) {
      assert s.bidders[c].tx.Open? by { assert BidderOk(s, c); }
      CommitEffect(s, c, acknowledged);
      StoredKeepsUp(s.bidders[c].amount, s.bidders[c].expected);
    }
  }

  lemma WriteLowersIff(s: State, c: CallId, acknowledged: bool, a: AuctionId)
    requires Inv(s) && a in s.auctions
    ensures var t := Apply(s, EndWrite(c, acknowledged));
            && a in t.auctions
            && (t.auctions[a].currentPrice < s.auctions[a].currentPrice <==>
                  && c in s.enders && s.enders[c].auction == a && s.enders[c].pc.EndStore? && a !in s.locks
                  && s.enders[c].pc.row.currentPrice < s.auctions[a].currentPrice)
  {
  }

  // ---------------------------------------------------------------- after the end

  predicate IsEndedIn(s: State, a: AuctionId) { a in s.auctions && s.auctions[a].status == Ended }

  lemma EndedStaysEnded(s: State, acts: seq<Action>, a: AuctionId)
    requires Inv(s) && IsEndedIn(s, a)
    ensures IsEndedIn(Run(s, acts), a)
  {
    RunKeepsInv(s, acts);
  }

  /** The transactions on `a` that have read its row, found it active, and not finished. */
  function PastCheck(s: State, a: AuctionId): set<CallId> {
    set c | c in s.bidders && s.bidders[c].auction == a && s.bidders[c].PastStatusCheck()
  }

  /** Once ended, nobody new passes the status check. */
  lemma NobodyPassesAfterTheEnd(s: State, act: Action, a: AuctionId, c: CallId)
    requires IsEndedIn(s, a)
    requires c in PastCheck(Apply(s, act), a)
    ensures c in PastCheck(s, a)
  {
    match act
    case BidTxRead(_) =>
    case BidInsert(_) => WritersGoOn(s, act, a, c);
    case BidUpdate(_) => WritersGoOn(s, act, a, c);
    case BidFail(_) => WritersGoOn(s, act, a, c);
    case BidTimeout(_) => WritersGoOn(s, act, a, c);
    case StartBid(_, _, _, _) => ReadersDoNotPass(s, act, a, c);
    case BidReadAuction(_, _) => ReadersDoNotPass(s, act, a, c);
    case BidReadHighest(_, _) => ReadersDoNotPass(s, act, a, c);
    case _ => OnlyForward(s, act, a, c);
  }

  lemma WritersGoOn(s: State, act: Action, a: AuctionId, c: CallId)
    requires act.BidInsert? || act.BidUpdate? || act.BidFail? || act.BidTimeout?
    requires c in PastCheck(Apply(s, act), a)
    ensures c in PastCheck(s, a)
  {
  }

  lemma ReadersDoNotPass(s: State, act: Action, a: AuctionId, c: CallId)
    requires act.StartBid? || act.BidReadAuction? || act.BidReadHighest?
    requires c in PastCheck(Apply(s, act), a)
    ensures c in PastCheck(s, a)
  {
  }

  lemma OnlyForward(s: State, act: Action, a: AuctionId, c: CallId)
    requires !act.StartBid? && !act.BidReadAuction? && !act.BidReadHighest? && !act.BidTxRead? && !act.BidInsert?
          && !act.BidUpdate? && !act.BidFail? && !act.BidTimeout?
    requires c in PastCheck(Apply(s, act), a)
    ensures c in PastCheck(s, a)
  {
  }

  /** After the end a new row on `a` is the commit of one who had passed the check, and uses that up. */
  lemma LateStep(s: State, act: Action, a: AuctionId)
    requires Inv(s) && IsEndedIn(s, a)
    ensures var t := Apply(s, act);
            || BidsOf(t.bids, a) == BidsOf(s.bids, a)
            || (&& act.BidCommit? && act.c in PastCheck(s, a) && act.c !in PastCheck(t, a)
                && exists b: Bid :: b.id == act.c && BidsOf(t.bids, a) == BidsOf(s.bids, a) + [b])
  {
    match act
    case OpenAuction(_, _) =>
    case EndWrite(c, acknowledged) => var e := WriteIsAtomic(s, c, acknowledged);
    case BidCommit(c, acknowledged) =>
      if At(s, c, Commit) && s.bidders[c].tx.Open? { LateCommit(s, c, acknowledged, a); }
    case _ => QuietStep(s, act);
  }

  lemma LateCommit(s: State, c: CallId, acknowledged: bool, a: AuctionId)
    requires Inv(s) && At(s, c, Commit)
    ensures var t := Apply(s, BidCommit(c, acknowledged)); var b := NewBid(c, s.bidders[c]);
            && BidsOf(t.bids, a) == BidsOf(s.bids, a) + (if b.auction == a then [b] else [])
            && b.id == c && (b.auction == a ==> c in PastCheck(s, a)) && c !in PastCheck(t, a)
  {
    CommitEffect(s, c, acknowledged);
    BidsOfAppend(s.bids, NewBid(c, s.bidders[c]), a);
    assert BidderOk(s, c);
    CommitLeaves(s, c, acknowledged, a);
  }

  lemma CommitLeaves(s: State, c: CallId, acknowledged: bool, a: AuctionId)
    requires At(s, c, Commit) && s.bidders[c].tx.Open?
    ensures c !in PastCheck(Apply(s, BidCommit(c, acknowledged)), a)
  {
  }

  predicate LateBound(s: State, t: State, a: AuctionId) {
    && PastCheck(t, a) <= PastCheck(s, a)
    && |BidsOf(t.bids, a)| + |PastCheck(t, a)| <= |BidsOf(s.bids, a)| + |PastCheck(s, a)|
    && forall b <- BidsOf(t.bids, a) :: b in BidsOf(s.bids, a) || b.id in PastCheck(s, a)
  }

  lemma LateBoundStep(s: State, act: Action, a: AuctionId)
    requires Inv(s) && IsEndedIn(s, a)
    ensures LateBound(s, Apply(s, act), a)
  {
    var t := Apply(s, act);
    forall c <- PastCheck(t, a) ensures c in PastCheck(s, a) { NobodyPassesAfterTheEnd(s, act, a, c); }
    LateStep(s, act, a);
    if BidsOf(t.bids, a) == BidsOf(s.bids, a) {
      CardinalityOfSubset(PastCheck(t, a), PastCheck(s, a));
    } else {
      CardinalityOfSubset(PastCheck(t, a), PastCheck(s, a) - {act.c});
    }
  }

  lemma LateBoundTransitive(s: State, t: State, u: State, a: AuctionId)
    requires LateBound(s, t, a) && LateBound(t, u, a)
    ensures LateBound(s, u, a)
  {
  }

  lemma {:induction false} LateBids(s: State, acts: seq<Action>, a: AuctionId)
    requires Inv(s) && IsEndedIn(s, a)
    ensures LateBound(s, Run(s, acts), a)
  {
    if acts != [] {
      var m := Run(s, acts[..|acts| - 1]);
      LateBids(s, acts[..|acts| - 1], a);
      RunKeepsInv(s, acts[..|acts| - 1]);
      LateBoundStep(m, acts[|acts| - 1], a);
      LateBoundTransitive(s, m, Run(s, acts), a);
    }
  }

  /**
   At most as many bids commit after an end as transactions were past their status check then, and
   each of them is one of those transactions' own.
   */
  lemma LateBidsAreBounded(s: State, acts: seq<Action>, a: AuctionId)
    requires Inv(s) && IsEndedIn(s, a)
    ensures |BidsOf(Run(s, acts).bids, a)| - |BidsOf(s.bids, a)| <= |PastCheck(s, a)|
    ensures forall b <- BidsOf(Run(s, acts).bids, a) :: b in BidsOf(s.bids, a) || b.id in PastCheck(s, a)
  {
    LateBids(s, acts, a);
  }

  // ---------------------------------------------------------------- what an ender announces

  /** For every end that took effect: the announced price is at least the price written with it. */
  lemma AnnouncedNotBelowWritten(acts: seq<Action>, i: nat)
    requires var s := Run(INIT, acts); i < |s.log| && s.log[i].Closed?
    ensures var e := Run(INIT, acts).log[i];
            && (e.read.Found? ==> e.row.currentPrice <= e.read.bid.amount)
            && (e.read.NoBids? ==> e.row.currentPrice == e.row.startingPrice)
  {
    var s := Run(INIT, acts);
    Reachable(acts);
    assert ClosedOk(s, s.log[i]);
  }

  predicate HasBids(bids: seq<Bid>, a: AuctionId) { exists b <- bids :: b.auction == a }

  /**
   An end names a winner exactly if there are bids, unless and only unless the read of the highest bid
   fails on an auction that has some: that error is logged and then taken for "no bids". Who is named
   offered the highest bid, and the price is its amount.
   */
  lemma WinnerIsNamedIff(bids: seq<Bid>, a: AuctionId, read: HighestRead)
    requires Answers(bids, a, read)
    ensures (Announcement(read).winner.Some? <==> HasBids(bids, a)) <==> !(read.Unread? && HasBids(bids, a))
    ensures Announcement(read).winner.Some? ==>
              exists b :: IsHighest(bids, a, b) && Announcement(read) == AuctionEnded(Some(b.user), Some(b.amount))
  {
    if read.Found? { assert read.bid.auction == a; }
  }

  // ---------------------------------------------------------------- what a bidder is told

  /** A bidder whose expected price is gone was overtaken: since its first read somebody moved the price. */
  lemma MismatchMeansProgress(acts: seq<Action>, c: CallId)
    requires var s := Run(INIT, acts); c in s.bidders && (s.bidders[c].pc.TxRead? || s.bidders[c].pc.Update?)
    requires var s := Run(INIT, acts); var b := s.bidders[c];
             b.auction in s.auctions ==> s.auctions[b.auction].currentPrice != b.expected
    ensures var s := Run(INIT, acts); var b := s.bidders[c];
            exists i :: b.since <= i < |s.log|
                        && ((s.log[i].Accepted? && s.log[i].bid.auction == b.auction && s.log[i].bid.id != c)
                            || (s.log[i].Closed? && s.log[i].auction == b.auction))
  {
    var s := Run(INIT, acts);
    var b := s.bidders[c];
    Reachable(acts);
    assert BidderOk(s, c);
    var i :| b.since <= i < |s.log| && s.log[i].Moves(b.auction);
    if s.log[i].Accepted? {
      RowsAreAcceptedBids(acts);
      AcceptedEntryIsRow(s.log, i);
      assert BidOk(s, s.log[i].bid);
    }
  }

  lemma {:induction false} AcceptedEntryIsRow(log: seq<Entry>, i: nat)
    requires i < |log| && log[i].Accepted?
    ensures log[i].bid in AcceptedBids(log)
  {
    if i < |log| - 1 {
      AcceptedEntryIsRow(log[..|log| - 1], i);
    } else {
      assert AcceptedBids(log)[|AcceptedBids(log)| - 1] == log[i].bid;
    }
  }

  /**
   The checks `PlaceBid` makes before its transaction cost nobody a bid: what they refuse, the
   transaction would refuse at every later moment, whatever price it were told to expect.
   */
  lemma PrechecksAreRedundant(acts: seq<Action>, c: CallId, read: HighestRead, more: seq<Action>, expected: Cents)
    requires var s := Run(INIT, acts); At(s, c, ReadHighest) && Answers(s.bids, s.bidders[c].auction, read)
    requires !read.Unread? && PrecheckRefuses(Run(INIT, acts).bidders[c], read)
    ensures var b := Run(INIT, acts).bidders[c];
            TxCheck(Run(INIT, acts + more), b.auction, expected, b.amount) != Placed
  {
    var s := Run(INIT, acts);
    var t := Run(INIT, acts + more);
    var b := s.bidders[c];
    Reachable(acts);
    RunConcat(INIT, acts, more);
    RunKeepsInv(s, more);
    assert BidderOk(s, c);
    assert RowOk(t, b.auction);
    assert s.auctions[b.auction].Listing().startingPrice == t.auctions[b.auction].Listing().startingPrice;
    if read.Found? { assert read.bid in t.bids; }
  }

  /** How many rows a call has inserted. */
  function RowsOf(bids: seq<Bid>, c: CallId): nat {
    if bids == [] then 0
    else RowsOf(bids[..|bids| - 1], c) + if bids[|bids| - 1].id == c then 1 else 0
  }

  lemma {:induction false} RowsOfDistinct(bids: seq<Bid>, c: CallId)
    requires DistinctIds(bids)
    ensures RowsOf(bids, c) == if exists b <- bids :: b.id == c then 1 else 0
  {
    if bids != [] {
      var init := bids[..|bids| - 1];
      RowsOfDistinct(init, c);
      assert bids == init + [bids[|bids| - 1]];
      LastIsNew(bids);
    }
  }

  lemma LastIsNew(bids: seq<Bid>)
    requires DistinctIds(bids) && bids != []
    ensures forall b <- bids[..|bids| - 1] :: b.id != bids[|bids| - 1].id
  {
    var init := bids[..|bids| - 1];
    forall b <- init ensures b.id != bids[|bids| - 1].id {
      var i :| 0 <= i < |init| && init[i] == b;
      assert bids[i] == b;
    }
  }

  lemma RowsOfCall(s: State, c: CallId)
    requires Inv(s) && c in s.bidders
    ensures var b := s.bidders[c];
            && RowsOf(s.bids, c) == (if b.Visible() then 1 else 0)
            && (b.Visible() <==> NewBid(c, b) in s.bids)
  {
    assert BidderOk(s, c);
    forall x <- s.bids ensures x.id == c ==> s.bidders[c].Visible() { assert BidOk(s, x); }
    RowsOfDistinct(s.bids, c);
  }

  /** Exactly once: a call owns one visible row if it committed, and none if it is running or was refused. */
  lemma ExactlyOnce(acts: seq<Action>, c: CallId)
    requires c in Run(INIT, acts).bidders
    ensures var s := Run(INIT, acts); var b := s.bidders[c];
            && RowsOf(s.bids, c) == (if b.Visible() then 1 else 0)
            && (b.Visible() <==> NewBid(c, b) in s.bids)
  {
    Reachable(acts);
    RowsOfCall(Run(INIT, acts), c);
  }

  /** The next step of whoever holds the lock of `a`: its commit, or the rollback it has begun. */
  function HolderStep(s: State, a: AuctionId): Action
    requires a in s.locks
  {
    if At(s, s.locks[a], Commit) then BidCommit(s.locks[a], true) else BidRollback(s.locks[a])
  }

  lemma HolderFinishes(s: State, a: AuctionId)
    requires Inv(s) && a in s.locks
    ensures var t := Apply(s, HolderStep(s, a));
            && a in t.auctions && a !in t.locks
            && t.enders == s.enders
            && forall d <- s.bidders | At(s, d, Update) :: d in t.bidders && t.bidders[d] == s.bidders[d]
  {
    assert LockOk(s, a);
    assert BidderOk(s, s.locks[a]);
    if At(s, s.locks[a], Commit) { CommitFrees(s, s.locks[a]); } else { RollbackFrees(s, s.locks[a]); }
  }

  lemma CommitFrees(s: State, c: CallId)
    requires At(s, c, Commit) && s.bidders[c].tx.Open? && s.bidders[c].auction in s.auctions
    ensures var t := Apply(s, BidCommit(c, true));
            && s.bidders[c].auction !in t.locks && s.auctions.Keys <= t.auctions.Keys && t.enders == s.enders
            && forall d <- s.bidders | d != c :: d in t.bidders && t.bidders[d] == s.bidders[d]
  {
  }

  lemma RollbackFrees(s: State, c: CallId)
    requires c in s.bidders && s.bidders[c].pc.Rollback? && HoldsLock(s, c, s.bidders[c].auction)
    ensures var t := Apply(s, BidRollback(c));
            && s.bidders[c].auction !in t.locks && t.auctions == s.auctions
            && t.enders == s.enders && t.bids == s.bids && t.bidders.Keys == s.bidders.Keys
            && forall d <- s.bidders | d != c :: d in t.bidders && t.bidders[d] == s.bidders[d]
  {
  }

  /** The update of `d` takes the lock if it finds its expected price, and gives up if it finds another one. */
  predicate Decides(t: State, d: CallId, a: AuctionId) {
    && a in t.auctions && d in t.bidders
    && At(Apply(t, BidUpdate(d)), d,
          if t.auctions[a].currentPrice == t.bidders[d].expected then Commit else Rollback(TooLow))
  }

  lemma FreeRowDecides(t: State, d: CallId, a: AuctionId)
    requires At(t, d, Update) && t.bidders[d].tx.Open? && t.bidders[d].auction == a
    requires a in t.auctions && a !in t.locks
    ensures Decides(t, d, a)
  {
  }

  /** The write of `e` takes effect. */
  predicate Writes(t: State, e: CallId, a: AuctionId)
    requires e in t.enders && t.enders[e].pc.EndStore?
  {
    var u := Apply(t, EndWrite(e, true));
    && e in u.enders && u.enders[e].pc == EndDone(true)
    && a in u.auctions && u.auctions[a] == t.enders[e].pc.row
  }

  lemma FreeRowIsWritten(t: State, e: CallId, a: AuctionId)
    requires e in t.enders && t.enders[e].pc.EndStore? && t.enders[e].auction == a
    requires a in t.auctions && a !in t.locks
    ensures Writes(t, e, a)
  {
  }

  /**
   No deadlock: once the holder of a row lock has taken its next step, every statement that waits for the
   row can proceed. An update then decides by the price it finds, an ender writes its row.
   */
  lemma WaitersProceed(acts: seq<Action>, a: AuctionId)
    requires a in Run(INIT, acts).locks
    ensures var s := Run(INIT, acts); var t := Apply(s, HolderStep(s, a));
            && (forall d <- s.bidders | At(s, d, Update) && s.bidders[d].auction == a :: Decides(t, d, a))
            && t.enders == s.enders
            && (forall e <- t.enders | t.enders[e].auction == a && t.enders[e].pc.EndStore? :: Writes(t, e, a))
  {
    var s := Run(INIT, acts);
    Reachable(acts);
    HolderFinishes(s, a);
    AllDecide(s, Apply(s, HolderStep(s, a)), a);
    AllWrite(Apply(s, HolderStep(s, a)), a);
  }

  lemma AllDecide(s: State, t: State, a: AuctionId)
    requires Inv(s) && a in t.auctions && a !in t.locks
    requires forall d <- s.bidders | At(s, d, Update) :: d in t.bidders && t.bidders[d] == s.bidders[d]
    ensures forall d <- s.bidders | At(s, d, Update) && s.bidders[d].auction == a :: Decides(t, d, a)
  {
    forall d <- s.bidders | At(s, d, Update) && s.bidders[d].auction == a ensures Decides(t, d, a) {
      assert BidderOk(s, d);
      FreeRowDecides(t, d, a);
    }
  }

  lemma AllWrite(t: State, a: AuctionId)
    requires a in t.auctions && a !in t.locks
    ensures forall e <- t.enders | t.enders[e].auction == a && t.enders[e].pc.EndStore? :: Writes(t, e, a)
  {
    forall e <- t.enders | t.enders[e].auction == a && t.enders[e].pc.EndStore? ensures Writes(t, e, a) {
      FreeRowIsWritten(t, e, a);
    }
  }
}
