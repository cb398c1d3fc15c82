/** Whether bids are accepted only between an auction's start time and its end time. */
module BidPeriod {
  import opened Domain
  import opened BidProtocol
  import opened BidInvariant
  import opened BidSerial
  import opened BidPrices
  import opened BidLate
  import opened BidSolo

  // ---------------------------------------------------------------- never before the start

  /** A call that has passed the checks on the row it reads first, and was not refused since. */
  predicate HasPassed(b: Bidder) {
    b.pc.ReadHighest? || b.pc.Begin? || b.pc.TxRead? || b.PastStatusCheck() || b.Visible()
  }

  predicate TimeOk(s: State, c: CallId)
    requires c in s.bidders
  {
    var b := s.bidders[c];
    HasPassed(b) ==>
      && b.auction in s.auctions && s.auctions[b.auction].startTime < b.checkedAt <= s.now
      && (b.pc.ReadHighest? || b.checkedAt <= b.createdAt <= s.now)
  }

  predicate Timely(s: State) { forall c <- s.bidders :: TimeOk(s, c) }

  /** How the frame of a call and the clock may change. */
  predicate Ages(s: State, t: State, c: CallId)
    requires c in t.bidders
  {
    var b := t.bidders[c];
    && s.now <= t.now
    && (HasPassed(b) ==>
          && c in s.bidders && b.auction == s.bidders[c].auction
          && (if s.bidders[c].pc.ReadAuction? then
                b.pc.ReadHighest? && b.checkedAt == s.now
                && b.auction in s.auctions && s.auctions[b.auction].startTime < s.now
              else
                HasPassed(s.bidders[c]) && b.checkedAt == s.bidders[c].checkedAt
                && (b.pc.ReadHighest? || b.createdAt == s.now
                    || (!s.bidders[c].pc.ReadHighest? && b.createdAt == s.bidders[c].createdAt))))
  }

  lemma StepAges(s: State, act: Action, c: CallId)
    requires Inv(s) && c in Apply(s, act).bidders
    ensures Ages(s, Apply(s, act), c)
  {
    assert c in s.bidders ==> BidderOk(s, c);
    match act
    case BidReadAuction(d, userKnown) => FirstReadAges(s, d, userKnown, c);
    case BidReadHighest(d, read) => SecondReadAges(s, d, read, c);
    case StartBid(d, _, _, _) => StartAges(s, act, c);
    case _ => if HasPassed(Apply(s, act).bidders[c]) { LaterStepAges(s, act, c); } else { ClockAdvances(s, act); }
  }

  lemma FirstReadAges(s: State, d: CallId, userKnown: bool, c: CallId)
    requires c in Apply(s, BidReadAuction(d, userKnown)).bidders
    ensures Ages(s, Apply(s, BidReadAuction(d, userKnown)), c)
  {
  }

  lemma SecondReadAges(s: State, d: CallId, read: HighestRead, c: CallId)
    requires c in Apply(s, BidReadHighest(d, read)).bidders
    ensures Ages(s, Apply(s, BidReadHighest(d, read)), c)
  {
  }

  lemma StartAges(s: State, act: Action, c: CallId)
    requires act.StartBid? && c in Apply(s, act).bidders
    ensures Ages(s, Apply(s, act), c)
  {
  }

  lemma ClockAdvances(s: State, act: Action)
    ensures s.now <= Apply(s, act).now
  {
  }

  lemma LaterStepAges(s: State, act: Action, c: CallId)
    requires !act.StartBid? && !act.BidReadAuction? && !act.BidReadHighest?
    requires c in s.bidders && s.bidders[c].pc.Rollback? ==>
               s.bidders[c].pc.cause != Placed && s.bidders[c].pc.cause != Unacknowledged
    requires c in Apply(s, act).bidders && HasPassed(Apply(s, act).bidders[c])
    ensures var b := Apply(s, act).bidders[c];
            && s.now <= Apply(s, act).now
            && c in s.bidders && HasPassed(s.bidders[c]) && b.auction == s.bidders[c].auction
            && (b.pc.ReadHighest? <==> s.bidders[c].pc.ReadHighest?)
            && b.checkedAt == s.bidders[c].checkedAt && b.createdAt == s.bidders[c].createdAt
  {
  }

  lemma TimelyStep(s: State, act: Action)
    requires Inv(s) && Timely(s)
    ensures Timely(Apply(s, act))
  {
    var t := Apply(s, act);
    StepGrows(s, act);
    forall c <- t.bidders ensures TimeOk(t, c) {
      StepAges(s, act, c);
      if c in s.bidders {
        assert TimeOk(s, c);
        var a := s.bidders[c].auction;
        assert a in s.auctions ==> s.auctions[a].Listing().startTime == t.auctions[a].Listing().startTime;
      }
    }
  }

  lemma {:induction false} RunIsTimely(acts: seq<Action>)
    ensures Timely(Run(INIT, acts))
  {
    if acts != [] {
      RunIsTimely(acts[..|acts| - 1]);
      Reachable(acts[..|acts| - 1]);
      TimelyStep(Run(INIT, acts[..|acts| - 1]), acts[|acts| - 1]);
    }
  }

  /** In every run, a bid that is accepted was checked and created after the start of its auction. */
  lemma NoBidBeforeTheStart(acts: seq<Action>, b: Bid)
    requires b in Run(INIT, acts).bids
    ensures var s := Run(INIT, acts);
            && b.id in s.bidders && b.auction in s.auctions
            && s.auctions[b.auction].startTime < s.bidders[b.id].checkedAt <= b.createdAt <= s.now
  {
    var s := Run(INIT, acts);
    Reachable(acts);
    RunIsTimely(acts);
    assert BidOk(s, b) && TimeOk(s, b.id);
  }

  // ---------------------------------------------------------------- but after the end

  /** From `s` to `t` a bid on `a` was accepted that had been checked at or after the end time. */
  predicate OverdueBid(s: State, t: State, a: AuctionId, c: CallId) {
    && HasCommitted(t, c) && !HasCommitted(s, c)
    && t.bidders[c].auction == a && a in t.auctions && t.auctions[a].endTime <= t.bidders[c].checkedAt
  }

  ghost predicate CanAcceptOverdue(s: State, a: AuctionId) {
    exists acts, c :: OverdueBid(s, Run(s, acts), a, c)
  }

  lemma {:induction false} OfferStays(s: State, acts: seq<Action>, c: CallId)
    requires c in s.bidders && PastReads(s.bidders[c])
    ensures var t := Run(s, acts); c in t.bidders && PastReads(t.bidders[c]) && SameOffer(s.bidders[c], t.bidders[c])
  {
    if acts != [] {
      OfferStays(s, acts[..|acts| - 1], c);
      OfferKept(Run(s, acts[..|acts| - 1]), acts[|acts| - 1], c);
    }
  }

  lemma EndTimeStays(s: State, acts: seq<Action>, a: AuctionId)
    requires Inv(s) && a in s.auctions
    ensures Inv(Run(s, acts)) && a in Run(s, acts).auctions && Run(s, acts).auctions[a].endTime == s.auctions[a].endTime
  {
    RunKeepsInv(s, acts);
    assert s.auctions[a].Listing().endTime == Run(s, acts).auctions[a].Listing().endTime;
  }

  /** A bid that commits after the end was past its check at the end. */
  lemma NewBidLanded(s: State, t: State, a: AuctionId, plan: seq<Event>, c: CallId)
    requires Inv(s) && a in s.auctions && Plan(s, a, plan)
    requires Inv(t) && BidsOf(t.bids, a) == BidsOf(s.bids, a) + Landed(s, plan)
    requires HasCommitted(t, c) && !HasCommitted(s, c) && t.bidders[c].auction == a
    ensures Lands(c) in plan
  {
    CommittedBidIsListed(t, a, c);
    BidsOfMembers(s.bids, a);
    NotYetListed(s, c);
    LandedMembers(s, a, plan);
    assert NewBid(c, t.bidders[c]) in Landed(s, plan);
  }

  lemma NotYetListed(s: State, c: CallId)
    requires Inv(s) && !HasCommitted(s, c)
    ensures forall b <- s.bids :: b.id != c
  {
    forall b <- s.bids ensures b.id != c { assert BidOk(s, b); }
  }

  lemma OverdueIsPlanned(s: State, acts: seq<Action>, a: AuctionId, c: CallId)
    requires Inv(s) && IsEndedIn(s, a) && OverdueBid(s, Run(s, acts), a, c)
    ensures c in PastCheck(s, a) && MayLand(s, a, c) && s.auctions[a].endTime <= s.bidders[c].checkedAt
  {
    var plan := RunFollowsPlan(s, acts, a);
    EndTimeStays(s, acts, a);
    NewBidLanded(s, Run(s, acts), a, plan, c);
    assert Possible(s, a, Lands(c));
    OfferStays(s, acts, c);
  }

  lemma PlannedOverdueHappens(s: State, a: AuctionId, c: CallId) returns (acts: seq<Action>)
    requires Inv(s) && a in s.auctions && c in PastCheck(s, a) && MayLand(s, a, c)
    requires s.auctions[a].endTime <= s.bidders[c].checkedAt
    ensures OverdueBid(s, Run(s, acts), a, c)
  {
    var plan :| Plan(s, a, plan) && Lands(c) in plan;
    acts := PlanIsCarriedOut(s, a, plan);
    LandedHasCommitted(s, Run(s, acts), a, plan, c);
    EndTimeStays(s, acts, a);
    OfferStays(s, acts, c);
    NotCommittedYet(s, a, c);
  }

  lemma NotCommittedYet(s: State, a: AuctionId, c: CallId)
    requires c in PastCheck(s, a)
    ensures !HasCommitted(s, c) && s.bidders[c].auction == a
  {
  }

  /** The clock passes start and end, and somebody who has not bid yet outbids everybody. */
  lemma ActiveAcceptsOverdue(s: State, a: AuctionId) returns (acts: seq<Action>, c: CallId)
    requires Inv(s) && IsActive(s, a)
    ensures OverdueBid(s, Run(s, acts), a, c)
  {
    ClearedTables(s, a);
    RunKeepsInv(s, Clearing(s, a));
    var s1 := Run(s, Clearing(s, a));
    var row := s.auctions[a];
    var passed := Until(s1.now, if row.startTime < row.endTime then row.endTime else row.startTime + 1);
    var more;
    more, c := LateRequest(Apply(s1, Advance(passed)), a);
    RunOne(s1, Advance(passed));
    RunConcat(s, Clearing(s, a), [Advance(passed)]);
    RunConcat(s, Clearing(s, a) + [Advance(passed)], more);
    acts := Clearing(s, a) + [Advance(passed)] + more;
    NewBidIsOverdue(s, acts, a, c, s1.now + passed);
  }

  lemma LateRequest(s: State, a: AuctionId) returns (acts: seq<Action>, c: CallId)
    requires IsActive(s, a) && RowOk(s, a) && a !in s.locks && s.auctions[a].startTime < s.now
    ensures c !in s.bidders && HasCommitted(Run(s, acts), c)
    ensures Run(s, acts).bidders[c].auction == a && Run(s, acts).bidders[c].checkedAt == s.now
  {
    c := FreshCall(s.bidders.Keys);
    var read := AnswerExists(s.bids, a);
    var amount := s.auctions[a].currentPrice as real + 1.0;
    RunBid(s, c, a, amount, read);
    acts := Approach(c, a, amount, read) + Finish(c);
  }

  function Until(now: Time, then_: Time): nat { if now < then_ then then_ - now else 0 }

  lemma ClearedTables(s: State, a: AuctionId)
    requires Inv(s)
    ensures var t := Run(s, Clearing(s, a));
            t.auctions == s.auctions && t.bids == s.bids && a !in t.locks && t.bidders.Keys == s.bidders.Keys
  {
    if a in s.locks {
      HolderGivesWay(s, a);
    }
  }

  /** The bid that call `c` has placed at time `at`. */
  lemma NewBidIsOverdue(s: State, acts: seq<Action>, a: AuctionId, c: CallId, at: Time)
    requires Inv(s) && a in s.auctions && c !in s.bidders
    requires HasCommitted(Run(s, acts), c) && Run(s, acts).bidders[c].auction == a
    requires s.auctions[a].endTime <= at && Run(s, acts).bidders[c].checkedAt == at
    ensures OverdueBid(s, Run(s, acts), a, c)
  {
    EndTimeStays(s, acts, a);
  }

  /**
   A bid that is checked at or after the end time can still be accepted if and only if the auction has not
   been ended, or such a bid is past its check and some plan has it commit: the service looks at the
   status and never at the end time.
   */
  lemma OverdueBidIff(s: State, a: AuctionId)
    requires Inv(s) && a in s.auctions
    ensures CanAcceptOverdue(s, a) <==>
              || IsActive(s, a)
              || exists c <- PastCheck(s, a) :: MayLand(s, a, c) && s.auctions[a].endTime <= s.bidders[c].checkedAt
  {
    assert RowOk(s, a);
    if IsActive(s, a) {
      var acts, c := ActiveAcceptsOverdue(s, a);
    } else {
      if acts, c :| OverdueBid(s, Run(s, acts), a, c) {
        OverdueIsPlanned(s, acts, a, c);
      }
      if c :| c in PastCheck(s, a) && MayLand(s, a, c) && s.auctions[a].endTime <= s.bidders[c].checkedAt {
        var acts := PlannedOverdueHappens(s, a, c);
      }
    }
  }
}
