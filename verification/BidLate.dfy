/** Everything that can still happen to an auction after its end. */
module BidLate {
  import opened Domain
  import opened BidProtocol
  import opened BidInvariant
  import opened BidSerial
  import opened BidPrices
  import opened BidEnds

  // ---------------------------------------------------------------- plans

  /** A commit on the ended auction: of transaction `c`, or of the write that ender `e` has prepared. */
  datatype Event = Lands(c: CallId) | Rewrites(e: CallId)

  predicate Ending(s: State, a: AuctionId, e: CallId) {
    e in s.enders && s.enders[e].auction == a && s.enders[e].HoldsSnapshot()
  }

  predicate Possible(s: State, a: AuctionId, ev: Event) {
    match ev
    case Lands(c) => c in PastCheck(s, a)
    case Rewrites(e) => Ending(s, a, e)
  }

  /** The price that an event leaves. */
  function Leaves(s: State, a: AuctionId, ev: Event): Cents
    requires Possible(s, a, ev)
  {
    match ev
    case Lands(c) => Stored(s.bidders[c].amount)
    case Rewrites(e) => s.enders[e].pc.row.currentPrice
  }

  function PriceAfter(s: State, a: AuctionId, plan: seq<Event>): Cents
    requires a in s.auctions && forall ev <- plan :: Possible(s, a, ev)
  {
    if plan == [] then s.auctions[a].currentPrice else Leaves(s, a, plan[|plan| - 1])
  }

  /** The event fits at the end of `before`: a transaction finds its expected price; a lock holder is first. */
  predicate Fits(s: State, a: AuctionId, before: seq<Event>, ev: Event)
    requires a in s.auctions && forall x <- before :: Possible(s, a, x)
  {
    && Possible(s, a, ev)
    && ev !in before
    && (ev.Lands? ==>
          && s.bidders[ev.c].expected == PriceAfter(s, a, before)
          && (At(s, ev.c, Commit) ==> before == []))
  }

  /** A sequence of late commits that the expected prices allow. */
  predicate Plan(s: State, a: AuctionId, plan: seq<Event>)
    requires a in s.auctions
    ensures Plan(s, a, plan) ==> forall ev <- plan :: Possible(s, a, ev)
  {
    if plan == [] then true
    else Plan(s, a, plan[..|plan| - 1]) && Fits(s, a, plan[..|plan| - 1], plan[|plan| - 1])
  }

  /** The bids that a plan adds. */
  function Landed(s: State, plan: seq<Event>): seq<Bid>
    requires forall ev <- plan | ev.Lands? :: ev.c in s.bidders
  {
    if plan == [] then []
    else
      var ev := plan[|plan| - 1];
      Landed(s, plan[..|plan| - 1]) + if ev.Lands? then [NewBid(ev.c, s.bidders[ev.c])] else []
  }

  lemma PlanSnoc(s: State, a: AuctionId, plan: seq<Event>, ev: Event)
    requires a in s.auctions && Plan(s, a, plan) && Fits(s, a, plan, ev)
    ensures Plan(s, a, plan + [ev])
    ensures PriceAfter(s, a, plan + [ev]) == Leaves(s, a, ev)
    ensures Landed(s, plan + [ev]) == Landed(s, plan) + if ev.Lands? then [NewBid(ev.c, s.bidders[ev.c])] else []
  {
    assert (plan + [ev])[..|plan + [ev]| - 1] == plan;
  }

  // ---------------------------------------------------------------- every run follows a plan

  /** Of a transaction past its check, what its bid will be. */
  predicate SameOffer(b: Bidder, b': Bidder) {
    && b'.auction == b.auction && b'.user == b.user && b'.amount == b.amount
    && b'.expected == b.expected && b'.createdAt == b.createdAt && b'.checkedAt == b.checkedAt
  }

  /** What is left for later: transactions and enders that were there and have not had their turn. */
  predicate Remaining(s: State, t: State, a: AuctionId, plan: seq<Event>) {
    && (forall c <- PastCheck(t, a) ::
          && c in PastCheck(s, a) && Lands(c) !in plan && SameOffer(s.bidders[c], t.bidders[c])
          && (At(s, c, Commit) ==> plan == [] && At(t, c, Commit)))
    && (forall e <- t.enders | Ending(t, a, e) ::
          Ending(s, a, e) && Rewrites(e) !in plan && t.enders[e].pc.row == s.enders[e].pc.row)
  }

  predicate Follows(s: State, t: State, a: AuctionId, plan: seq<Event>)
    requires a in s.auctions
  {
    && Plan(s, a, plan)
    && a in t.auctions && t.auctions[a].currentPrice == PriceAfter(s, a, plan)
    && BidsOf(t.bids, a) == BidsOf(s.bids, a) + Landed(s, plan)
    && Remaining(s, t, a, plan)
  }

  lemma OfferFixed(s: State, act: Action, c: CallId)
    requires c in s.bidders && s.bidders[c].PastStatusCheck()
    ensures var t := Apply(s, act);
            && c in t.bidders && SameOffer(s.bidders[c], t.bidders[c])
            && (At(s, c, Commit) && t.bidders[c].PastStatusCheck() ==> At(t, c, Commit))
  {
    OfferKept(s, act, c);
    if At(s, c, Commit) { CommitIsNext(s, act, c); }
  }

  predicate PastReads(b: Bidder) { !b.pc.ReadAuction? && !b.pc.ReadHighest? }

  lemma OfferKept(s: State, act: Action, c: CallId)
    requires c in s.bidders && PastReads(s.bidders[c])
    ensures var t := Apply(s, act);
            c in t.bidders && PastReads(t.bidders[c]) && SameOffer(s.bidders[c], t.bidders[c])
  {
    if act.BidFail? || act.BidTimeout? || act.BidUpdate? || act.BidCommit? || act.BidRollback? {
      FinishKeepsOffer(s, act, c);
    }
  }

  lemma FinishKeepsOffer(s: State, act: Action, c: CallId)
    requires act.BidFail? || act.BidTimeout? || act.BidUpdate? || act.BidCommit? || act.BidRollback?
    requires c in s.bidders && PastReads(s.bidders[c])
    ensures var t := Apply(s, act);
            c in t.bidders && PastReads(t.bidders[c]) && SameOffer(s.bidders[c], t.bidders[c])
  {
  }

  lemma CommitIsNext(s: State, act: Action, c: CallId)
    requires At(s, c, Commit)
    ensures var t := Apply(s, act); c in t.bidders && (t.bidders[c].PastStatusCheck() ==> At(t, c, Commit))
  {
  }

  /** Whatever the step, nothing is added to what remains. */
  lemma RemainingShrinks(s: State, t: State, act: Action, a: AuctionId, plan: seq<Event>)
    requires IsEndedIn(t, a) && Remaining(s, t, a, plan)
    ensures Remaining(s, Apply(t, act), a, plan)
  {
    var u := Apply(t, act);
    forall c <- PastCheck(u, a)
      ensures c in PastCheck(s, a) && Lands(c) !in plan && SameOffer(s.bidders[c], u.bidders[c])
      ensures At(s, c, Commit) ==> plan == [] && At(u, c, Commit)
    {
      NobodyPassesAfterTheEnd(t, act, a, c);
      OfferFixed(t, act, c);
    }
    forall e <- u.enders | Ending(u, a, e)
      ensures Ending(s, a, e) && Rewrites(e) !in plan && u.enders[e].pc.row == s.enders[e].pc.row
    {
      NoSnapshotOfEnded(t, act, e);
      SnapshotStep(t, act, e);
    }
  }

  /** One who holds the lock can only be the one who commits next. */
  lemma HolderIsNext(s: State, t: State, a: AuctionId, plan: seq<Event>, d: CallId)
    requires Inv(t) && Remaining(s, t, a, plan) && d in PastCheck(t, a) && At(s, d, Commit)
    ensures HoldsLock(t, d, a)
  {
    assert BidderOk(t, d);
  }

  /** After a commit on `a` nobody is left who held the lock at the start, nor the one who committed. */
  lemma CommitRemaining(s: State, t: State, c: CallId, acknowledged: bool, a: AuctionId, plan: seq<Event>)
    requires Inv(t) && IsEndedIn(t, a) && Remaining(s, t, a, plan)
    requires At(t, c, Commit) && t.bidders[c].auction == a
    ensures Remaining(s, Apply(t, BidCommit(c, acknowledged)), a, plan + [Lands(c)])
  {
    var act := BidCommit(c, acknowledged);
    var u := Apply(t, act);
    RemainingShrinks(s, t, act, a, plan);
    assert BidderOk(t, c);
    forall d <- PastCheck(u, a) ensures d != c && !At(s, d, Commit) {
      CommitLeaves(t, c, acknowledged, a);
      if At(s, d, Commit) {
        NobodyPassesAfterTheEnd(t, act, a, d);
        HolderIsNext(s, t, a, plan, d);
      }
    }
  }

  lemma CommitFollows(s: State, t: State, c: CallId, acknowledged: bool, a: AuctionId, plan: seq<Event>)
    requires a in s.auctions && Inv(t) && IsEndedIn(t, a) && Follows(s, t, a, plan)
    requires At(t, c, Commit) && t.bidders[c].auction == a
    ensures Follows(s, Apply(t, BidCommit(c, acknowledged)), a, plan + [Lands(c)])
  {
    CommitShows(t, c, acknowledged);
    CommitFits(s, t, c, a, plan);
    CommitRemaining(s, t, c, acknowledged, a, plan);
    FollowsSnoc(s, t, Apply(t, BidCommit(c, acknowledged)), a, plan, Lands(c));
  }

  lemma CommitShows(t: State, c: CallId, acknowledged: bool)
    requires Inv(t) && At(t, c, Commit)
    ensures var u := Apply(t, BidCommit(c, acknowledged)); var a := t.bidders[c].auction;
            && a in u.auctions && u.auctions[a].currentPrice == Stored(t.bidders[c].amount)
            && BidsOf(u.bids, a) == BidsOf(t.bids, a) + [NewBid(c, t.bidders[c])]
  {
    CommitEffect(t, c, acknowledged);
    LateCommit(t, c, acknowledged, t.bidders[c].auction);
  }

  lemma FollowsSnoc(s: State, t: State, u: State, a: AuctionId, plan: seq<Event>, ev: Event)
    requires a in s.auctions && Follows(s, t, a, plan) && Fits(s, a, plan, ev)
    requires a in u.auctions && u.auctions[a].currentPrice == Leaves(s, a, ev)
    requires BidsOf(u.bids, a) == BidsOf(t.bids, a) + if ev.Lands? then [NewBid(ev.c, s.bidders[ev.c])] else []
    requires Remaining(s, u, a, plan + [ev])
    ensures Follows(s, u, a, plan + [ev])
  {
    PlanSnoc(s, a, plan, ev);
  }

  lemma CommitFits(s: State, t: State, c: CallId, a: AuctionId, plan: seq<Event>)
    requires a in s.auctions && Inv(t) && Follows(s, t, a, plan)
    requires At(t, c, Commit) && t.bidders[c].auction == a
    ensures Fits(s, a, plan, Lands(c)) && NewBid(c, t.bidders[c]) == NewBid(c, s.bidders[c])
    ensures Leaves(s, a, Lands(c)) == Stored(t.bidders[c].amount)
  {
    assert c in PastCheck(t, a);
    assert t.auctions[a].currentPrice == t.bidders[c].expected by { assert BidderOk(t, c); }
  }

  lemma WriteFollows(s: State, t: State, e: CallId, acknowledged: bool, a: AuctionId, plan: seq<Event>)
    requires a in s.auctions && Inv(t) && IsEndedIn(t, a) && Follows(s, t, a, plan)
    requires Apply(t, EndWrite(e, acknowledged)).log != t.log
    requires e in t.enders && t.enders[e].auction == a
    ensures Follows(s, Apply(t, EndWrite(e, acknowledged)), a, plan + [Rewrites(e)])
  {
    var act := EndWrite(e, acknowledged);
    var u := Apply(t, act);
    WriteEffect(t, e, acknowledged);
    assert Ending(t, a, e) && !Ending(u, a, e);
    WriteRemaining(s, t, e, acknowledged, a, plan);
    FollowsSnoc(s, t, u, a, plan, Rewrites(e));
  }

  lemma WriteRemaining(s: State, t: State, e: CallId, acknowledged: bool, a: AuctionId, plan: seq<Event>)
    requires Inv(t) && IsEndedIn(t, a) && Remaining(s, t, a, plan) && a !in t.locks
    requires Ending(t, a, e) && !Ending(Apply(t, EndWrite(e, acknowledged)), a, e)
    ensures Remaining(s, Apply(t, EndWrite(e, acknowledged)), a, plan + [Rewrites(e)])
  {
    var act := EndWrite(e, acknowledged);
    var u := Apply(t, act);
    RemainingShrinks(s, t, act, a, plan);
    forall d <- PastCheck(u, a) ensures !At(s, d, Commit) {
      if At(s, d, Commit) {
        NobodyPassesAfterTheEnd(t, act, a, d);
        HolderIsNext(s, t, a, plan, d);
      }
    }
  }

  /** A step that commits nothing on `a`. */
  lemma StepElsewhere(s: State, act: Action, a: AuctionId)
    requires Inv(s) && a in s.auctions
    requires act.BidCommit? && At(s, act.c, Commit) ==> s.bidders[act.c].auction != a
    requires act.EndWrite? && Apply(s, act).log != s.log ==> act.c in s.enders && s.enders[act.c].auction != a
    ensures var t := Apply(s, act);
            a in t.auctions && t.auctions[a] == s.auctions[a] && BidsOf(t.bids, a) == BidsOf(s.bids, a)
  {
    match act
    case OpenAuction(_, _) =>
    case EndWrite(c, acknowledged) => WriteElsewhere(s, c, acknowledged, a);
    case BidCommit(c, acknowledged) => CommitElsewhere(s, c, acknowledged, a);
    case _ => QuietStep(s, act);
  }

  lemma WriteElsewhere(s: State, c: CallId, acknowledged: bool, a: AuctionId)
    requires Inv(s) && a in s.auctions
    requires Apply(s, EndWrite(c, acknowledged)).log != s.log ==> c in s.enders && s.enders[c].auction != a
    ensures var t := Apply(s, EndWrite(c, acknowledged));
            a in t.auctions && t.auctions[a] == s.auctions[a] && t.bids == s.bids
  {
    if Apply(s, EndWrite(c, acknowledged)).log != s.log {
      WriteEffect(s, c, acknowledged);
    } else {
      var e := WriteIsAtomic(s, c, acknowledged);
    }
  }

  lemma CommitElsewhere(s: State, c: CallId, acknowledged: bool, a: AuctionId)
    requires Inv(s) && a in s.auctions
    requires At(s, c, Commit) ==> s.bidders[c].auction != a
    ensures var t := Apply(s, BidCommit(c, acknowledged));
            a in t.auctions && t.auctions[a] == s.auctions[a] && BidsOf(t.bids, a) == BidsOf(s.bids, a)
  {
    if At(s, c, Commit) && s.bidders[c].tx.Open? {
      CommitEffect(s, c, acknowledged);
      LateCommit(s, c, acknowledged, a);
    }
  }

  lemma StepFollows(s: State, t: State, act: Action, a: AuctionId, plan: seq<Event>) returns (longer: seq<Event>)
    requires a in s.auctions && Inv(t) && IsEndedIn(t, a) && Follows(s, t, a, plan)
    ensures Follows(s, Apply(t, act), a, longer)
  {
    if act.BidCommit? && At(t, act.c, Commit) && t.bidders[act.c].auction == a {
      CommitFollows(s, t, act.c, act.acknowledged, a, plan);
      longer := plan + [Lands(act.c)];
    } else if act.EndWrite? && Apply(t, act).log != t.log && t.enders[act.c].auction == a {
      WriteFollows(s, t, act.c, act.acknowledged, a, plan);
      longer := plan + [Rewrites(act.c)];
    } else {
      StepElsewhere(t, act, a);
      RemainingShrinks(s, t, act, a, plan);
      longer := plan;
    }
  }

  /** Whatever a run does to an ended auction, it does by a plan. */
  lemma {:induction false} RunFollowsPlan(s: State, acts: seq<Action>, a: AuctionId) returns (plan: seq<Event>)
    requires Inv(s) && IsEndedIn(s, a)
    ensures Follows(s, Run(s, acts), a, plan)
  {
    if acts == [] {
      plan := [];
    } else {
      var init := acts[..|acts| - 1];
      plan := RunFollowsPlan(s, init, a);
      RunKeepsInv(s, init);
      plan := StepFollows(s, Run(s, init), acts[|acts| - 1], a, plan);
    }
  }

  // ---------------------------------------------------------------- every plan can be carried out

  /** `t` has done the plan, and everybody who is not part of it is still where it was. */
  predicate CarriedOut(s: State, t: State, a: AuctionId, plan: seq<Event>)
    requires a in s.auctions && Plan(s, a, plan)
  {
    && a in t.auctions && a !in t.locks
    && t.auctions[a].currentPrice == PriceAfter(s, a, plan)
    && BidsOf(t.bids, a) == BidsOf(s.bids, a) + Landed(s, plan)
    && (forall c <- PastCheck(s, a) | Lands(c) !in plan && !At(s, c, Commit) ::
          c in t.bidders && t.bidders[c] == s.bidders[c])
    && (forall e <- s.enders | Ending(s, a, e) && Rewrites(e) !in plan ::
          e in t.enders && t.enders[e] == s.enders[e])
  }

  lemma RunOne(s: State, x: Action)
    ensures Run(s, [x]) == Apply(s, x)
  {
    assert [x][..0] == [];
  }

  lemma RunTwo(s: State, x: Action, y: Action)
    ensures Run(s, [x, y]) == Apply(Apply(s, x), y)
  {
    RunOne(s, x);
    assert [x, y][..1] == [x];
  }

  lemma RunThree(s: State, x: Action, y: Action, z: Action)
    ensures Run(s, [x, y, z]) == Apply(Apply(Apply(s, x), y), z)
  {
    RunTwo(s, x, y);
    assert [x, y, z][..2] == [x, y];
  }

  /** The holder of the row lock gives way. */
  lemma HolderGivesWay(s: State, a: AuctionId)
    requires Inv(s) && a in s.locks
    ensures var t := Run(s, [BidFail(s.locks[a]), BidRollback(s.locks[a])]);
            && a !in t.locks && t.auctions == s.auctions && t.enders == s.enders && t.bids == s.bids
            && t.bidders.Keys == s.bidders.Keys
            && (forall c <- s.bidders | c != s.locks[a] :: c in t.bidders && t.bidders[c] == s.bidders[c])
            && s.locks[a] in s.bidders && (s.bidders[s.locks[a]].pc.Commit? || s.bidders[s.locks[a]].pc.Rollback?)
  {
    var d := s.locks[a];
    RunTwo(s, BidFail(d), BidRollback(d));
    assert LockOk(s, a);
    FailureTurnsBack(s, d);
    RollbackFrees(Apply(s, BidFail(d)), d);
  }

  lemma FailureTurnsBack(s: State, d: CallId)
    requires d in s.bidders && (s.bidders[d].pc.Commit? || s.bidders[d].pc.Rollback?)
    ensures var t := Apply(s, BidFail(d));
            && t == s.(bidders := t.bidders) && t.bidders.Keys == s.bidders.Keys && t.bidders[d].pc.Rollback?
            && t.bidders[d].auction == s.bidders[d].auction
            && forall c <- s.bidders | c != d :: c in t.bidders && t.bidders[c] == s.bidders[c]
  {
  }

  function Clearing(s: State, a: AuctionId): seq<Action> {
    if a in s.locks then [BidFail(s.locks[a]), BidRollback(s.locks[a])] else []
  }

  lemma NothingPlanned(s: State, a: AuctionId)
    requires Inv(s) && a in s.auctions
    ensures CarriedOut(s, Run(s, Clearing(s, a)), a, [])
  {
    if a in s.locks {
      HolderGivesWay(s, a);
      assert forall c <- PastCheck(s, a) | !At(s, c, Commit) :: c != s.locks[a];
    }
  }

  function Finish(c: CallId): seq<Action> { [BidInsert(c), BidUpdate(c), BidCommit(c, true)] }

  predicate Unhindered(s: State, c: CallId) {
    && c in s.bidders
    && (At(s, c, Insert) || At(s, c, Update))
    && var b := s.bidders[c];
       b.auction in s.auctions && b.auction !in s.locks && s.auctions[b.auction].currentPrice == b.expected
  }

  /** One commit, and nobody else moves. */
  predicate OnlyLanded(s: State, t: State, c: CallId)
    requires c in s.bidders && s.bidders[c].auction in s.auctions
  {
    var b := s.bidders[c];
    && t.auctions == s.auctions[b.auction := s.auctions[b.auction].(currentPrice := Stored(b.amount))]
    && t.bids == s.bids + [NewBid(c, b)]
    && t.locks == s.locks && t.enders == s.enders && t.now == s.now
    && t.bidders.Keys == s.bidders.Keys && t.bidders[c] == b.(tx := Idle, pc := Done(Placed))
    && t.log == s.log + [Accepted(NewBid(c, b), b.amount, b.expected)]
    && forall d <- s.bidders | d != c :: t.bidders[d] == s.bidders[d]
  }

  lemma UpdateAndCommit(s: State, c: CallId)
    requires Unhindered(s, c) && At(s, c, Update) && s.bidders[c].tx == Open([NewBid(c, s.bidders[c])], None)
    ensures OnlyLanded(s, Apply(Apply(s, BidUpdate(c)), BidCommit(c, true)), c)
  {
    var a := s.bidders[c].auction;
    assert s.locks[a := c] - {a} == s.locks;
  }

  /** A transaction that finds its row free and at the expected price can finish at once. */
  lemma FinishLands(s: State, c: CallId)
    requires Unhindered(s, c)
    requires s.bidders[c].tx == Open(if At(s, c, Insert) then [] else [NewBid(c, s.bidders[c])], None)
    ensures OnlyLanded(s, Run(s, Finish(c)), c)
  {
    RunThree(s, BidInsert(c), BidUpdate(c), BidCommit(c, true));
    var m := Apply(s, BidInsert(c));
    if At(s, c, Insert) { assert [] + [NewBid(c, s.bidders[c])] == [NewBid(c, s.bidders[c])]; }
    assert m == SetBidder(s, c, m.bidders[c]);
    UpdateAndCommit(m, c);
  }

  /** From `t` to `u` the event happened, and nothing else did. */
  predicate OnlyHappened(s: State, t: State, u: State, a: AuctionId, ev: Event)
    requires Possible(s, a, ev)
  {
    && a in u.auctions && a !in u.locks && u.auctions[a].currentPrice == Leaves(s, a, ev)
    && BidsOf(u.bids, a) == BidsOf(t.bids, a) + (if ev.Lands? then [NewBid(ev.c, s.bidders[ev.c])] else [])
    && (forall c <- t.bidders | Lands(c) != ev :: c in u.bidders && u.bidders[c] == t.bidders[c])
    && (forall e <- t.enders | Rewrites(e) != ev :: e in u.enders && u.enders[e] == t.enders[e])
  }

  lemma CarriedOutSnoc(s: State, t: State, u: State, a: AuctionId, plan: seq<Event>, ev: Event)
    requires a in s.auctions && Plan(s, a, plan) && Fits(s, a, plan, ev)
    requires CarriedOut(s, t, a, plan) && OnlyHappened(s, t, u, a, ev)
    ensures Plan(s, a, plan + [ev]) && CarriedOut(s, u, a, plan + [ev])
  {
    PlanSnoc(s, a, plan, ev);
  }

  lemma LandNext(s: State, t: State, a: AuctionId, plan: seq<Event>, c: CallId)
    requires a in s.auctions && Plan(s, a, plan) && Fits(s, a, plan, Lands(c)) && !At(s, c, Commit)
    requires Inv(t) && CarriedOut(s, t, a, plan)
    ensures Plan(s, a, plan + [Lands(c)]) && CarriedOut(s, Run(t, Finish(c)), a, plan + [Lands(c)])
  {
    assert t.bidders[c] == s.bidders[c];
    assert t.bidders[c].tx == Open(if At(t, c, Insert) then [] else [NewBid(c, t.bidders[c])], None) by {
      assert BidderOk(t, c);
    }
    FinishLands(t, c);
    BidsOfAppend(t.bids, NewBid(c, t.bidders[c]), a);
    CarriedOutSnoc(s, t, Run(t, Finish(c)), a, plan, Lands(c));
  }

  lemma RewriteNext(s: State, t: State, a: AuctionId, plan: seq<Event>, e: CallId)
    requires a in s.auctions && Plan(s, a, plan) && Fits(s, a, plan, Rewrites(e))
    requires CarriedOut(s, t, a, plan)
    ensures Plan(s, a, plan + [Rewrites(e)])
    ensures CarriedOut(s, Run(t, [EndReadHighest(e, Unread), EndWrite(e, true)]), a, plan + [Rewrites(e)])
  {
    RunTwo(t, EndReadHighest(e, Unread), EndWrite(e, true));
    UnlockedWriteLands(t, a, e);
    CarriedOutSnoc(s, t, Run(t, [EndReadHighest(e, Unread), EndWrite(e, true)]), a, plan, Rewrites(e));
  }

  lemma UnlockedWriteLands(s: State, a: AuctionId, e: CallId)
    requires a in s.auctions && a !in s.locks && Ending(s, a, e)
    ensures var t := Apply(Apply(s, EndReadHighest(e, Unread)), EndWrite(e, true));
            && t.auctions == s.auctions[a := s.enders[e].pc.row]
            && t.bids == s.bids && t.bidders == s.bidders && t.locks == s.locks
            && forall x <- s.enders | x != e :: x in t.enders && t.enders[x] == s.enders[x]
  {
    var m := Apply(s, EndReadHighest(e, Unread));
    assert m == s.(enders := m.enders);
    assert m.enders[e].auction == a && m.enders[e].pc.EndStore? && m.enders[e].pc.row == s.enders[e].pc.row;
  }

  /** The transaction that holds the lock commits first. */
  lemma HolderLands(s: State, a: AuctionId, c: CallId)
    requires Inv(s) && a in s.auctions && At(s, c, Commit) && Fits(s, a, [], Lands(c))
    ensures Plan(s, a, [Lands(c)]) && CarriedOut(s, Run(s, [BidCommit(c, true)]), a, [Lands(c)])
  {
    PlanSnoc(s, a, [], Lands(c));
    assert [] + [Lands(c)] == [Lands(c)];
    RunOne(s, BidCommit(c, true));
    CommitEffect(s, c, true);
    LateCommit(s, c, true, a);
    CommitLocks(s, c, true);
    CommitSpares(s, c, true);
    LandedAlone(s, Apply(s, BidCommit(c, true)), a, c);
  }

  lemma LandedAlone(s: State, t: State, a: AuctionId, c: CallId)
    requires a in s.auctions && Fits(s, a, [], Lands(c)) && At(s, c, Commit) && Plan(s, a, [Lands(c)])
    requires OnlyHappened(s, s, t, a, Lands(c))
    requires PriceAfter(s, a, [Lands(c)]) == Leaves(s, a, Lands(c))
    requires Landed(s, [Lands(c)]) == [NewBid(c, s.bidders[c])]
    ensures CarriedOut(s, t, a, [Lands(c)])
  {
  }


  lemma {:induction false} PlanIsCarriedOut(s: State, a: AuctionId, plan: seq<Event>) returns (acts: seq<Action>)
    requires Inv(s) && a in s.auctions && Plan(s, a, plan)
    ensures CarriedOut(s, Run(s, acts), a, plan) && Inv(Run(s, acts))
  {
    if plan == [] {
      NothingPlanned(s, a);
      acts := Clearing(s, a);
    } else {
      var init := plan[..|plan| - 1];
      var ev := plan[|plan| - 1];
      assert plan == init + [ev];
      if ev.Lands? && At(s, ev.c, Commit) {
        HolderLands(s, a, ev.c);
        acts := [BidCommit(ev.c, true)];
      } else {
        var done := PlanIsCarriedOut(s, a, init);
        var more := if ev.Lands? then Finish(ev.c) else [EndReadHighest(ev.e, Unread), EndWrite(ev.e, true)];
        if ev.Lands? { LandNext(s, Run(s, done), a, init, ev.c); } else { RewriteNext(s, Run(s, done), a, init, ev.e); }
        RunConcat(s, done, more);
        acts := done + more;
      }
    }
    RunKeepsInv(s, acts);
  }

  // ---------------------------------------------------------------- who can still commit

  predicate Shows(t: State, a: AuctionId, p: Cents, bids: seq<Bid>) {
    a in t.auctions && t.auctions[a].currentPrice == p && BidsOf(t.bids, a) == bids
  }

  /** Some run from here shows this price and these bids. */
  ghost predicate CanShow(s: State, a: AuctionId, p: Cents, bids: seq<Bid>) {
    exists acts :: Shows(Run(s, acts), a, p, bids)
  }

  predicate Plans(s: State, a: AuctionId, plan: seq<Event>, p: Cents, bids: seq<Bid>)
    requires a in s.auctions
  {
    Plan(s, a, plan) && PriceAfter(s, a, plan) == p && BidsOf(s.bids, a) + Landed(s, plan) == bids
  }

  /** Prices and bids that runs reach on an ended auction are those of its plans, no more and no less. */
  lemma PlansAreExact(s: State, a: AuctionId, p: Cents, bids: seq<Bid>)
    requires Inv(s) && IsEndedIn(s, a)
    ensures CanShow(s, a, p, bids) <==> exists plan :: Plans(s, a, plan, p, bids)
  {
    if acts :| Shows(Run(s, acts), a, p, bids) {
      var plan := RunFollowsPlan(s, acts, a);
      assert Plans(s, a, plan, p, bids);
    }
    if plan :| Plans(s, a, plan, p, bids) {
      var acts := PlanIsCarriedOut(s, a, plan);
      assert Shows(Run(s, acts), a, p, bids);
    }
  }

  /** Some plan has transaction `c` commit. */
  ghost predicate MayLand(s: State, a: AuctionId, c: CallId)
    requires a in s.auctions
  {
    exists plan :: Plan(s, a, plan) && Lands(c) in plan
  }

  lemma {:induction false} LandedMembers(s: State, a: AuctionId, plan: seq<Event>)
    requires a in s.auctions && Plan(s, a, plan)
    ensures forall c | Lands(c) in plan :: NewBid(c, s.bidders[c]) in Landed(s, plan)
    ensures forall b <- Landed(s, plan) :: Lands(b.id) in plan && b == NewBid(b.id, s.bidders[b.id])
  {
    if plan != [] {
      LandedMembers(s, a, plan[..|plan| - 1]);
      assert plan == plan[..|plan| - 1] + [plan[|plan| - 1]];
    }
  }

  /** Some run from here has call `c` commit. */
  ghost predicate CanCommit(s: State, c: CallId) { exists acts :: HasCommitted(Run(s, acts), c) }

  predicate HasCommitted(s: State, c: CallId) { c in s.bidders && s.bidders[c].Visible() }

  lemma CommittedBidIsListed(t: State, a: AuctionId, c: CallId)
    requires Inv(t) && HasCommitted(t, c) && t.bidders[c].auction == a
    ensures NewBid(c, t.bidders[c]) in BidsOf(t.bids, a)
  {
    assert BidderOk(t, c);
    BidsOfMembers(t.bids, a);
  }

  lemma NotListedYet(s: State, a: AuctionId, c: CallId)
    requires Inv(s) && c in PastCheck(s, a)
    ensures forall b <- BidsOf(s.bids, a) :: b.id != c
  {
    BidsOfMembers(s.bids, a);
    NotYetVisible(s, c);
  }

  lemma CommittedBidLanded(s: State, t: State, a: AuctionId, plan: seq<Event>, c: CallId)
    requires Inv(s) && a in s.auctions && c in PastCheck(s, a)
    requires Inv(t) && SameRow(s, t, c) && HasCommitted(t, c)
    requires Plan(s, a, plan) && BidsOf(t.bids, a) == BidsOf(s.bids, a) + Landed(s, plan)
    ensures Lands(c) in plan
  {
    CommittedBidIsListed(t, a, c);
    NotListedYet(s, a, c);
    LandedMembers(s, a, plan);
    assert NewBid(c, t.bidders[c]) in Landed(s, plan);
  }

  lemma LandedHasCommitted(s: State, t: State, a: AuctionId, plan: seq<Event>, c: CallId)
    requires a in s.auctions && Plan(s, a, plan) && Lands(c) in plan
    requires Inv(t) && BidsOf(t.bids, a) == BidsOf(s.bids, a) + Landed(s, plan)
    ensures HasCommitted(t, c)
  {
    LandedMembers(s, a, plan);
    var b := NewBid(c, s.bidders[c]);
    assert b in BidsOf(t.bids, a);
    BidsOfMembers(t.bids, a);
    assert BidOk(t, b);
  }

  /** The auction a call bids on never changes. */
  predicate SameRow(s: State, t: State, c: CallId) {
    c in s.bidders ==> c in t.bidders && t.bidders[c].auction == s.bidders[c].auction
  }

  lemma {:induction false} RowStays(s: State, acts: seq<Action>, c: CallId)
    ensures SameRow(s, Run(s, acts), c)
  {
    if acts != [] {
      RowStays(s, acts[..|acts| - 1], c);
      RowStep(Run(s, acts[..|acts| - 1]), acts[|acts| - 1], c);
    }
  }

  lemma RowStep(s: State, act: Action, c: CallId)
    ensures SameRow(s, Apply(s, act), c)
  {
  }

  /** A transaction past its check can commit after the end if and only if some plan has it commit. */
  lemma LateBidderIff(s: State, a: AuctionId, c: CallId)
    requires Inv(s) && IsEndedIn(s, a) && c in PastCheck(s, a)
    ensures CanCommit(s, c) <==> MayLand(s, a, c)
  {
    if acts :| HasCommitted(Run(s, acts), c) {
      var plan := RunFollowsPlan(s, acts, a);
      RunKeepsInv(s, acts);
      RowStays(s, acts, c);
      CommittedBidLanded(s, Run(s, acts), a, plan, c);
    }
    if plan :| Plan(s, a, plan) && Lands(c) in plan {
      var acts := PlanIsCarriedOut(s, a, plan);
      LandedHasCommitted(s, Run(s, acts), a, plan, c);
    }
  }

  // ---------------------------------------------------------------- whether anybody can

  /** Transaction `c` is past its status check, and its expected price is there or will be written. */
  predicate MayCommitLate(s: State, a: AuctionId, c: CallId)
    requires a in s.auctions
  {
    && c in PastCheck(s, a)
    && (|| s.bidders[c].expected == s.auctions[a].currentPrice
        || exists e <- s.enders :: Ending(s, a, e) && s.enders[e].pc.row.currentPrice == s.bidders[c].expected)
  }

  /** Some run from here adds a bid on `a`. */
  ghost predicate CanGrow(s: State, a: AuctionId) {
    exists acts :: BidsOf(Run(s, acts).bids, a) != BidsOf(s.bids, a)
  }

  /** The first transaction of a plan finds its price without the help of another one. */
  lemma {:induction false} FirstLanding(s: State, a: AuctionId, plan: seq<Event>)
    requires a in s.auctions && Plan(s, a, plan) && Landed(s, plan) != []
    ensures exists c <- s.bidders :: MayCommitLate(s, a, c)
  {
    var init := plan[..|plan| - 1];
    if Landed(s, init) != [] {
      FirstLanding(s, a, init);
    } else {
      LandedMembers(s, a, init);
      assert MayCommitLate(s, a, plan[|plan| - 1].c);
    }
  }

  /**
   An ended auction can still get a bid if and only if some transaction that is past its status check
   expects the price the row has, or a price that a call still ending the auction is going to write.
   */
  lemma LateBidIff(s: State, a: AuctionId)
    requires Inv(s) && IsEndedIn(s, a)
    ensures CanGrow(s, a) <==> exists c <- s.bidders :: MayCommitLate(s, a, c)
  {
    if acts :| BidsOf(Run(s, acts).bids, a) != BidsOf(s.bids, a) {
      var plan := RunFollowsPlan(s, acts, a);
      FirstLanding(s, a, plan);
    }
    if c :| c in s.bidders && MayCommitLate(s, a, c) {
      var plan := PlanFor(s, a, c);
      var acts := PlanIsCarriedOut(s, a, plan);
      LandedMembers(s, a, plan);
      assert BidsOf(Run(s, acts).bids, a) != BidsOf(s.bids, a);
    }
  }

  lemma PlanFor(s: State, a: AuctionId, c: CallId) returns (plan: seq<Event>)
    requires Inv(s) && a in s.auctions && MayCommitLate(s, a, c)
    ensures Plan(s, a, plan) && Lands(c) in plan
  {
    var before: seq<Event> := [];
    if s.bidders[c].expected != s.auctions[a].currentPrice {
      var e :| e in s.enders && Ending(s, a, e) && s.enders[e].pc.row.currentPrice == s.bidders[c].expected;
      PlanSnoc(s, a, [], Rewrites(e));
      before := [] + [Rewrites(e)];
      assert !At(s, c, Commit) by { assert BidderOk(s, c); }
    }
    PlanSnoc(s, a, before, Lands(c));
    plan := before + [Lands(c)];
  }
}
