/** A `PlaceBid` call that nobody interferes with, decided in one stroke. */
module BidAlone {
  import opened Domain
  import opened BidProtocol
  import opened BidInvariant
  import opened BidPrices

  /** What a bidder is promised: a valid request is accepted exactly if it exceeds the highest bid. */
  function Verdict(s: State, a: AuctionId, amount: real, userKnown: bool): Outcome {
    if a !in s.auctions then NotFound
    else
      var row := s.auctions[a];
      if row.status != Active then NotAccepting
      else if s.now <= row.startTime then NotStarted
      else if !userKnown then UnknownUser
      else if amount <= 0.0 then InvalidAmount
      else if amount > Highest(row.startingPrice, s.bids, a) as real then Placed
      else if HasBids(s.bids, a) then TooLow
      else BelowStarting
  }

  /** When each verdict is given. */
  lemma VerdictMeans(s: State, a: AuctionId, amount: real, userKnown: bool)
    ensures var r := Verdict(s, a, amount, userKnown);
            if a !in s.auctions then r == NotFound
            else
              var row := s.auctions[a];
              var exceeds := amount > row.startingPrice as real
                             && forall b <- s.bids | b.auction == a :: amount > b.amount as real;
              && (r == NotAccepting <==> row.status != Active)
              && (r == NotStarted <==> row.status == Active && s.now <= row.startTime)
              && (r == UnknownUser <==> row.status == Active && row.startTime < s.now && !userKnown)
              && (r == InvalidAmount <==>
                    row.status == Active && row.startTime < s.now && userKnown && amount <= 0.0)
              && (r == Placed <==>
                    row.status == Active && row.startTime < s.now && userKnown && amount > 0.0 && exceeds)
              && (r == TooLow ==> exists b <- s.bids :: b.auction == a)
              && (r == BelowStarting ==> amount <= row.startingPrice as real && forall b <- s.bids :: b.auction != a)
              && (r == NotAccepting || r == NotStarted || r == UnknownUser || r == InvalidAmount || r == Placed
                  || r == TooLow || r == BelowStarting)
  {
    if a in s.auctions { HighestIsMax(s.auctions[a].startingPrice, s.bids, a); }
  }

  /** A step of call `c` that does not fail, unless for a row that stays locked. */
  predicate SmoothStep(s: State, act: Action, c: CallId, userKnown: bool) {
    match act
    case BidReadAuction(d, k) => d == c && k == userKnown
    case BidReadHighest(d, read) => d == c && !read.Unread?
    case BidCommit(d, acknowledged) => d == c && acknowledged
    case BidTimeout(d) => d == c && At(s, c, Update) && Waits(s, c)
    case OpenAuction(_, _) => false
    case StartBid(_, _, _, _) => false
    case BidBegin(d) => d == c
    case BidTxRead(d) => d == c
    case BidInsert(d) => d == c
    case BidUpdate(d) => d == c
    case BidRollback(d) => d == c
    case _ => false
  }

  predicate SmoothRun(s: State, acts: seq<Action>, c: CallId, userKnown: bool) {
    forall i :: 0 <= i < |acts| ==> SmoothStep(Run(s, acts[..i]), acts[i], c, userKnown)
  }

  lemma SmoothSnoc(s: State, acts: seq<Action>, act: Action, c: CallId, userKnown: bool)
    requires SmoothRun(s, acts, c, userKnown) && SmoothStep(Run(s, acts), act, c, userKnown)
    ensures SmoothRun(s, acts + [act], c, userKnown)
  {
    var all := acts + [act];
    forall i | 0 <= i < |all| ensures SmoothStep(Run(s, all[..i]), all[i], c, userKnown) {
      assert all[..i] == acts[..i];
      if i == |acts| { assert acts[..i] == acts; }
    }
  }

  lemma SmoothConcat(s: State, acts: seq<Action>, more: seq<Action>, c: CallId, userKnown: bool)
    requires SmoothRun(s, acts, c, userKnown) && SmoothRun(Run(s, acts), more, c, userKnown)
    ensures SmoothRun(s, acts + more, c, userKnown)
  {
    var all := acts + more;
    forall i | 0 <= i < |all| ensures SmoothStep(Run(s, all[..i]), all[i], c, userKnown) {
      if i < |acts| {
        assert all[..i] == acts[..i];
      } else {
        assert all[..i] == acts + more[..i - |acts|] && all[i] == more[i - |acts|];
        RunConcat(s, acts, more[..i - |acts|]);
      }
    }
  }

  /** How far the call has got in state `t`, having started in `s` with nobody around. */
  predicate OnTrack(s: State, t: State, c: CallId, userKnown: bool)
    requires c in s.bidders
  {
    && c in t.bidders
    && var b := t.bidders[c];
       var a := s.bidders[c].auction;
       var verdict := Verdict(s, a, s.bidders[c].amount, userKnown);
       && b.auction == a && b.amount == s.bidders[c].amount && t.now == s.now
       && (!b.pc.Commit? && !b.pc.Done? ==>
             t.auctions == s.auctions && t.bids == s.bids && t.locks == s.locks)
       && match b.pc
          case ReadAuction => true
          case ReadHighest =>
            a in s.auctions && b == AfterAuctionRead(s, b, userKnown).(since := b.since, checkedAt := b.checkedAt)
          case Rollback(_) => false
          case Done(outcome) => outcome == verdict
          case _ => verdict == Placed == TxCheck(s, a, b.expected, b.amount)
  }

  /** While active, the price and the highest bid decide alike. */
  lemma PriceDecides(s: State, b: Bidder, userKnown: bool, read: HighestRead)
    requires Inv(s) && Answers(s.bids, b.auction, read) && !read.Unread?
    requires b.auction in s.auctions && AfterAuctionRead(s, b, userKnown).pc == ReadHighest
    requires b.start == s.auctions[b.auction].startingPrice
    ensures var verdict := Verdict(s, b.auction, b.amount, userKnown);
            if PrecheckRefuses(b, read) then verdict == if read.Found? then TooLow else BelowStarting
            else verdict == Placed == TxCheck(s, b.auction, s.auctions[b.auction].currentPrice, b.amount)
  {
    assert RowOk(s, b.auction);
    HighestIsMax(s.auctions[b.auction].startingPrice, s.bids, b.auction);
  }

  lemma SecondReadOnTrack(s: State, t: State, c: CallId, read: HighestRead, userKnown: bool)
    requires Inv(s) && c in s.bidders && OnTrack(s, t, c, userKnown) && !read.Unread?
    ensures OnTrack(s, Apply(t, BidReadHighest(c, read)), c, userKnown)
  {
    if At(t, c, ReadHighest) && Answers(t.bids, t.bidders[c].auction, read) {
      PriceDecides(s, t.bidders[c], userKnown, read);
    }
  }

  lemma FirstReadOnTrack(s: State, t: State, c: CallId, userKnown: bool)
    requires c in s.bidders && OnTrack(s, t, c, userKnown)
    ensures OnTrack(s, Apply(t, BidReadAuction(c, userKnown)), c, userKnown)
  {
  }

  lemma TxReadOnTrack(s: State, t: State, c: CallId, userKnown: bool)
    requires c in s.bidders && OnTrack(s, t, c, userKnown)
    ensures OnTrack(s, Apply(t, BidTxRead(c)), c, userKnown)
  {
  }

  lemma SmoothStepOnTrack(s: State, t: State, act: Action, c: CallId, userKnown: bool)
    requires Inv(s) && c in s.bidders && s.bidders[c].auction !in s.locks
    requires OnTrack(s, t, c, userKnown) && SmoothStep(t, act, c, userKnown)
    ensures OnTrack(s, Apply(t, act), c, userKnown)
  {
    match act
    case BidReadHighest(_, read) => SecondReadOnTrack(s, t, c, read, userKnown);
    case BidReadAuction(_, _) => FirstReadOnTrack(s, t, c, userKnown);
    case BidTxRead(_) => TxReadOnTrack(s, t, c, userKnown);
    case _ => WriteOnTrack(s, t, act, c, userKnown);
  }

  /** Begin, insert, update, commit; there is nothing to roll back. */
  lemma WriteOnTrack(s: State, t: State, act: Action, c: CallId, userKnown: bool)
    requires c in s.bidders && s.bidders[c].auction !in s.locks
    requires OnTrack(s, t, c, userKnown) && SmoothStep(t, act, c, userKnown)
    requires !act.BidReadAuction? && !act.BidReadHighest? && !act.BidTxRead?
    ensures OnTrack(s, Apply(t, act), c, userKnown)
  {
  }

  lemma {:induction false} SmoothRunOnTrack(s: State, acts: seq<Action>, c: CallId, userKnown: bool)
    requires Inv(s) && At(s, c, ReadAuction) && s.bidders[c].auction !in s.locks
    requires SmoothRun(s, acts, c, userKnown)
    ensures OnTrack(s, Run(s, acts), c, userKnown)
  {
    if acts != [] {
      var init := acts[..|acts| - 1];
      forall i | 0 <= i < |init| ensures init[..i] == acts[..i] && init[i] == acts[i] { }
      SmoothRunOnTrack(s, init, c, userKnown);
      SmoothStepOnTrack(s, Run(s, init), acts[|acts| - 1], c, userKnown);
    }
  }

  /** Undisturbed, the whole protocol of a bid comes down to one comparison with the highest bid. */
  lemma AloneBidIsDecidedByHighest(s: State, acts: seq<Action>, c: CallId, userKnown: bool)
    requires Inv(s) && At(s, c, ReadAuction) && s.bidders[c].auction !in s.locks
    requires SmoothRun(s, acts, c, userKnown) && c in Run(s, acts).bidders && Run(s, acts).bidders[c].pc.Done?
    ensures Run(s, acts).bidders[c].pc.outcome == Verdict(s, s.bidders[c].auction, s.bidders[c].amount, userKnown)
  {
    SmoothRunOnTrack(s, acts, c, userKnown);
  }
}
