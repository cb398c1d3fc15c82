/** Whether what a bidder is told is true. */
module BidAnswers {
  import opened Domain
  import opened BidProtocol
  import opened BidInvariant
  import opened BidSerial
  import opened BidPrices

  // ---------------------------------------------------------------- what an answer says

  /** A bid on `a` that is not call `c`'s own, or an end of `a`, is in the log from position `k` on. */
  predicate SomebodyElseMoved(log: seq<Entry>, k: nat, a: AuctionId, c: CallId) {
    exists i :: k <= i < |log| && ByAnother(log[i], a, c)
  }

  predicate ByAnother(e: Entry, a: AuctionId, c: CallId) {
    match e
    case Opened(_, _) => false
    case Accepted(bid, _, _) => bid.auction == a && bid.id != c
    case Closed(x, _, _) => x == a
  }

  /** The answer `r` to bid `b` of call `c`, and what it says about the tables. */
  predicate IsJustified(s: State, c: CallId, b: Bidder, r: Outcome) {
    match r
    case NotAccepting => b.auction in s.auctions && s.auctions[b.auction].status != Active
    case NotStarted => b.auction in s.auctions && b.checkedAt <= s.auctions[b.auction].startTime
    case InvalidAmount => b.amount <= 0.0
    case TooLow =>
      || SomebodyElseMoved(s.log, b.since, b.auction, c)
      || exists h <- s.bids :: h.auction == b.auction && b.amount <= h.amount as real
    case BelowStarting =>
      b.auction in s.auctions && 0.0 < b.amount <= s.auctions[b.auction].startingPrice as real
    case NotSubscribed => false // refused before the call reads anything
    case _ => true
  }

  /** What a transaction can be rolled back for, and what that says. */
  predicate IsJustifiedInTx(s: State, c: CallId, b: Bidder, cause: Outcome) {
    match cause
    case TooLow => SomebodyElseMoved(s.log, b.since, b.auction, c)
    case NotAccepting => b.auction in s.auctions && s.auctions[b.auction].status != Active
    case DbError => true
    case LockTimeout => true
    case _ => false
  }

  predicate Honest(s: State, c: CallId)
    requires c in s.bidders
  {
    var b := s.bidders[c];
    match b.pc
    case ReadAuction => true
    case ReadHighest => 0.0 < b.amount
    case Begin => 0.0 < b.amount && Outbids(b)
    case TxRead => 0.0 < b.amount && Outbids(b)
    case Insert => 0.0 < b.amount
    case Update => 0.0 < b.amount
    case Commit => 0.0 < b.amount
    case Rollback(cause) => 0.0 < b.amount && IsJustifiedInTx(s, c, b, cause)
    case Done(r) => IsJustified(s, c, b, r)
  }

  // ---------------------------------------------------------------- it stays true

  lemma MovedStays(s: State, t: State, k: nat, a: AuctionId, c: CallId)
    requires s.log <= t.log && SomebodyElseMoved(s.log, k, a, c)
    ensures SomebodyElseMoved(t.log, k, a, c)
  {
    var i :| k <= i < |s.log| && ByAnother(s.log[i], a, c);
    assert t.log[i] == s.log[i];
  }

  lemma RowStays(s: State, t: State, a: AuctionId)
    requires Inv(s) && Grows(s, t) && a in s.auctions
    ensures a in t.auctions
    ensures t.auctions[a].startTime == s.auctions[a].startTime
    ensures t.auctions[a].startingPrice == s.auctions[a].startingPrice
    ensures s.auctions[a].status != Active ==> t.auctions[a].status != Active
  {
    assert RowOk(s, a);
    assert s.auctions[a].Listing().startTime == t.auctions[a].Listing().startTime;
    assert s.auctions[a].Listing().startingPrice == t.auctions[a].Listing().startingPrice;
  }

  lemma JustifiedStays(s: State, t: State, c: CallId, b: Bidder, r: Outcome)
    requires Inv(s) && Grows(s, t) && IsJustified(s, c, b, r)
    ensures IsJustified(t, c, b, r)
  {
    match r
    case TooLow =>
      if SomebodyElseMoved(s.log, b.since, b.auction, c) {
        MovedStays(s, t, b.since, b.auction, c);
      } else {
        var h :| h in s.bids && h.auction == b.auction && b.amount <= h.amount as real;
        assert h in t.bids;
      }
    case _ => if b.auction in s.auctions { RowStays(s, t, b.auction); }
  }

  lemma JustifiedInTxStays(s: State, t: State, c: CallId, b: Bidder, cause: Outcome)
    requires Inv(s) && Grows(s, t) && IsJustifiedInTx(s, c, b, cause)
    ensures IsJustifiedInTx(t, c, b, cause)
  {
    match cause
    case TooLow => MovedStays(s, t, b.since, b.auction, c);
    case _ => if b.auction in s.auctions { RowStays(s, t, b.auction); }
  }

  lemma HonestStays(s: State, t: State, c: CallId)
    requires Inv(s) && Grows(s, t) && c in s.bidders && Honest(s, c)
    requires c in t.bidders && t.bidders[c] == s.bidders[c]
    ensures Honest(t, c)
  {
    var b := s.bidders[c];
    match b.pc
    case Rollback(cause) => JustifiedInTxStays(s, t, c, b, cause);
    case Done(r) => JustifiedStays(s, t, c, b, r);
    case _ =>
  }

  // ---------------------------------------------------------------- how it becomes true

  lemma FirstReadIsHonest(s: State, c: CallId, userKnown: bool)
    requires At(s, c, ReadAuction)
    ensures Honest(Apply(s, BidReadAuction(c, userKnown)), c)
  {
  }

  /** Whoever gets past the highest bid offers more than the price it expects. */
  lemma PastHighest(s: State, c: CallId, read: HighestRead)
    requires Inv(s) && At(s, c, ReadHighest) && Answers(s.bids, s.bidders[c].auction, read)
    requires !PrecheckRefuses(s.bidders[c], read)
    ensures Outbids(s.bidders[c])
  {
    assert BidderOk(s, c);
    assert RowOk(s, s.bidders[c].auction);
  }

  lemma SecondReadIsHonest(s: State, c: CallId, read: HighestRead)
    requires Inv(s) && At(s, c, ReadHighest) && Honest(s, c)
    requires Answers(s.bids, s.bidders[c].auction, read)
    ensures Honest(Apply(s, BidReadHighest(c, read)), c)
  {
    var b := s.bidders[c];
    assert BidderOk(s, c);
    if !PrecheckRefuses(b, read) {
      PastHighest(s, c, read);
    } else if read.Found? {
      assert read.bid in s.bids;
    } else if read.NoBids? {
      assert b.amount <= s.auctions[b.auction].startingPrice as real;
    }
  }

  /** What moved the price is not a bid of a call that has not committed. */
  lemma NotItsOwn(s: State, c: CallId, k: nat, a: AuctionId)
    requires Inv(s) && c in s.bidders && !s.bidders[c].Visible() && LogIsListed(s) && MovedSince(s, a, k)
    ensures SomebodyElseMoved(s.log, k, a, c)
  {
    var i :| k <= i < |s.log| && s.log[i].Moves(a);
    NotYetVisible(s, c);
    assert ByAnother(s.log[i], a, c);
  }

  /** Every accepted bid of the log is in the table. */
  predicate LogIsListed(s: State) {
    forall e <- s.log | e.Accepted? :: e.bid in s.bids
  }

  lemma LogIsListedStep(s: State, act: Action)
    requires Inv(s) && LogIsListed(s)
    ensures LogIsListed(Apply(s, act))
  {
    var e := StepIsAtomic(s, act);
    StepGrows(s, act);
  }

  /** A mismatch in the transaction, or at the update, is somebody else's doing. */
  lemma MismatchIsHonest(s: State, c: CallId)
    requires Inv(s) && LogIsListed(s) && (At(s, c, TxRead) || At(s, c, Update))
    requires var b := s.bidders[c]; b.auction !in s.auctions || s.auctions[b.auction].currentPrice != b.expected
    ensures SomebodyElseMoved(s.log, s.bidders[c].since, s.bidders[c].auction, c)
  {
    assert BidderOk(s, c);
    NotItsOwn(s, c, s.bidders[c].since, s.bidders[c].auction);
  }

  lemma TxReadIsHonest(s: State, c: CallId)
    requires Inv(s) && LogIsListed(s) && At(s, c, TxRead) && Honest(s, c)
    ensures Honest(Apply(s, BidTxRead(c)), c)
  {
    var b := s.bidders[c];
    assert BidderOk(s, c);
    if s.auctions[b.auction].currentPrice != b.expected { MismatchIsHonest(s, c); }
  }

  lemma UpdateIsHonest(s: State, c: CallId)
    requires Inv(s) && LogIsListed(s) && At(s, c, Update) && Honest(s, c)
    ensures c in Apply(s, BidUpdate(c)).bidders && Honest(Apply(s, BidUpdate(c)), c)
  {
    var b := s.bidders[c];
    assert BidderOk(s, c);
    if s.auctions[b.auction].currentPrice != b.expected { MismatchIsHonest(s, c); }
  }

  lemma FinishIsHonest(s: State, act: Action, c: CallId)
    requires act.BidRollback? || act.BidFail? || act.BidTimeout? || act.BidBegin? || act.BidInsert? || act.BidCommit?
    requires act.c == c && c in s.bidders && Honest(s, c)
    ensures c in Apply(s, act).bidders && Honest(Apply(s, act), c)
  {
  }

  lemma SameFrame(s: State, act: Action, c: CallId)
    requires c in Apply(s, act).bidders
    requires StepOfBid(act) ==> act.c != c
    ensures c in s.bidders && Apply(s, act).bidders[c] == s.bidders[c]
  {
  }

  predicate StepOfBid(act: Action) {
    || act.StartBid? || act.BidReadAuction? || act.BidReadHighest? || act.BidBegin? || act.BidTxRead? || act.BidInsert?
    || act.BidUpdate? || act.BidCommit? || act.BidRollback? || act.BidFail? || act.BidTimeout?
  }

  lemma HonestStep(s: State, act: Action, c: CallId)
    requires Inv(s) && LogIsListed(s) && c in Apply(s, act).bidders
    requires c in s.bidders ==> Honest(s, c)
    ensures Honest(Apply(s, act), c)
  {
    var t := Apply(s, act);
    StepGrows(s, act);
    if !StepOfBid(act) || act.c != c {
      SameFrame(s, act, c);
      HonestStays(s, t, c);
    } else if c in s.bidders && t.bidders[c] == s.bidders[c] {
      HonestStays(s, t, c);
    } else {
      OwnStepIsHonest(s, act, c);
    }
  }

  lemma OwnStepIsHonest(s: State, act: Action, c: CallId)
    requires Inv(s) && LogIsListed(s) && StepOfBid(act) && act.c == c
    requires c in s.bidders ==> Honest(s, c)
    requires c in Apply(s, act).bidders && !(c in s.bidders && Apply(s, act).bidders[c] == s.bidders[c])
    ensures Honest(Apply(s, act), c)
  {
    match act
    case StartBid(_, _, _, _) =>
    case BidReadAuction(_, userKnown) => FirstReadIsHonest(s, c, userKnown);
    case BidReadHighest(_, read) => SecondReadIsHonest(s, c, read);
    case BidTxRead(_) => TxReadIsHonest(s, c);
    case BidUpdate(_) => UpdateIsHonest(s, c);
    case _ => FinishIsHonest(s, act, c);
  }

  lemma {:induction false} RunIsHonest(s: State, acts: seq<Action>, c: CallId)
    requires Inv(s) && LogIsListed(s) && (c in s.bidders ==> Honest(s, c))
    ensures var t := Run(s, acts); LogIsListed(t) && (c in t.bidders ==> Honest(t, c))
  {
    if acts != [] {
      var m := Run(s, acts[..|acts| - 1]);
      RunIsHonest(s, acts[..|acts| - 1], c);
      RunKeepsInv(s, acts[..|acts| - 1]);
      LogIsListedStep(m, acts[|acts| - 1]);
      if c in Apply(m, acts[|acts| - 1]).bidders { HonestStep(m, acts[|acts| - 1], c); }
    }
  }

  /** In every run, an answer a bidder has got is true of the tables, and stays so. */
  lemma AnswersAreTrue(acts: seq<Action>, c: CallId)
    requires c in Run(INIT, acts).bidders && Run(INIT, acts).bidders[c].pc.Done?
    ensures var s := Run(INIT, acts); IsJustified(s, c, s.bidders[c], s.bidders[c].pc.outcome)
  {
    RunIsHonest(INIT, acts, c);
  }

  // ---------------------------------------------------------------- refused for a price mismatch

  /** A call keeps what it remembers of its first read. */
  lemma SinceKept(s: State, act: Action, c: CallId)
    requires c in s.bidders && !s.bidders[c].pc.ReadAuction?
    ensures var t := Apply(s, act);
            && c in t.bidders && !t.bidders[c].pc.ReadAuction?
            && t.bidders[c].since == s.bidders[c].since && t.bidders[c].auction == s.bidders[c].auction
  {
  }

  lemma {:induction false} SinceStays(s: State, acts: seq<Action>, c: CallId)
    requires c in s.bidders && !s.bidders[c].pc.ReadAuction?
    ensures var t := Run(s, acts);
            && c in t.bidders && !t.bidders[c].pc.ReadAuction?
            && t.bidders[c].since == s.bidders[c].since && t.bidders[c].auction == s.bidders[c].auction
  {
    if acts != [] {
      SinceStays(s, acts[..|acts| - 1], c);
      SinceKept(Run(s, acts[..|acts| - 1]), acts[|acts| - 1], c);
    }
  }

  lemma FirstReadStarts(s: State, c: CallId, userKnown: bool)
    requires At(s, c, ReadAuction)
    ensures var r := Apply(s, BidReadAuction(c, userKnown));
            && c in r.bidders && r.log == s.log && r.bidders[c].auction == s.bidders[c].auction
            && (r.bidders[c].pc.ReadHighest? || r.bidders[c].pc.Done?)
            && (r.bidders[c].pc.ReadHighest? ==> r.bidders[c].since == |s.log|)
  {
  }

  lemma DoneKept(s: State, act: Action, c: CallId)
    requires c in s.bidders && s.bidders[c].pc.Done?
    ensures c in Apply(s, act).bidders && Apply(s, act).bidders[c] == s.bidders[c]
  {
  }

  lemma {:induction false} DoneStays(s: State, acts: seq<Action>, c: CallId)
    requires c in s.bidders && s.bidders[c].pc.Done?
    ensures c in Run(s, acts).bidders && Run(s, acts).bidders[c] == s.bidders[c]
  {
    if acts != [] {
      DoneStays(s, acts[..|acts| - 1], c);
      DoneKept(Run(s, acts[..|acts| - 1]), acts[|acts| - 1], c);
    }
  }

  /**
   Progress: whoever is turned away by its transaction for the price, whether it is read there or found by the
   update, was overtaken. Since its first read somebody else's bid on the auction, or an end of it, took effect.
   */
  lemma RefusalMeansProgress(before: seq<Action>, c: CallId, userKnown: bool, after: seq<Action>)
    requires At(Run(INIT, before), c, ReadAuction)
    requires At(Run(Apply(Run(INIT, before), BidReadAuction(c, userKnown)), after), c, Rollback(TooLow))
    ensures var s := Run(INIT, before); var t := Run(Apply(s, BidReadAuction(c, userKnown)), after);
            exists i :: |s.log| <= i < |t.log|
                        && ((t.log[i].Accepted? && t.log[i].bid.auction == s.bidders[c].auction && t.log[i].bid.id != c)
                            || (t.log[i].Closed? && t.log[i].auction == s.bidders[c].auction))
  {
    var s := Run(INIT, before);
    var r := Apply(s, BidReadAuction(c, userKnown));
    var t := Run(r, after);
    FirstReadStarts(s, c, userKnown);
    if r.bidders[c].pc.Done? { DoneStays(r, after, c); }
    SinceStays(r, after, c);
    Reachable(before);
    RunIsHonest(INIT, before, c);
    StepKeepsInv(s, BidReadAuction(c, userKnown));
    LogIsListedStep(s, BidReadAuction(c, userKnown));
    FirstReadIsHonest(s, c, userKnown);
    RunIsHonest(r, after, c);
    var i :| t.bidders[c].since <= i < |t.log| && ByAnother(t.log[i], t.bidders[c].auction, c);
  }

  // ---------------------------------------------------------------- waiting

  /** An update at its expected price on a row that is locked changes nothing. */
  lemma LockedUpdateWaits(s: State, c: CallId)
    requires At(s, c, Update) && s.bidders[c].auction in s.auctions && s.bidders[c].auction in s.locks
    requires s.auctions[s.bidders[c].auction].currentPrice == s.bidders[c].expected
    ensures Apply(s, BidUpdate(c)) == s
  {
  }

  /** Nor does an ender's write to a locked row. */
  lemma LockedWriteWaits(s: State, e: CallId, acknowledged: bool)
    requires e in s.enders && s.enders[e].pc.EndStore?
    requires s.enders[e].auction in s.auctions && s.enders[e].auction in s.locks
    ensures Apply(s, EndWrite(e, acknowledged)) == s
  {
  }

  /** A call that ends an auction succeeds by the one step that puts its end into table and log. */
  lemma EndTakesEffect(s: State, act: Action, e: CallId)
    requires e in Apply(s, act).enders && Apply(s, act).enders[e].pc == EndDone(true)
    requires !(e in s.enders && s.enders[e].pc == EndDone(true))
    ensures e in s.enders && s.enders[e].pc.EndStore?
    ensures var a := s.enders[e].auction; var t := Apply(s, act);
            && t.log == s.log + [Closed(a, s.enders[e].pc.row, s.enders[e].pc.read)]
            && a in t.auctions && t.auctions[a] == s.enders[e].pc.row
  {
  }

  /** An ender that has its snapshot goes on to its write, whatever becomes of the read of the highest bid. */
  lemma HighestReadNeverStops(s: State, act: Action, e: CallId)
    requires e in s.enders && s.enders[e].pc.EndHighest?
    ensures var t := Apply(s, act); var row := s.enders[e].pc.row;
            && e in t.enders && t.enders[e].auction == s.enders[e].auction
            && (|| t.enders[e].pc == EndHighest(row)
                || exists read :: t.enders[e].pc == EndStore(row, read) && Answers(s.bids, s.enders[e].auction, read))
    ensures var a := s.enders[e].auction; var t := Apply(s, EndReadHighest(e, Unread));
            t.enders[e].pc == EndStore(s.enders[e].pc.row, Unread)
  {
  }
}
