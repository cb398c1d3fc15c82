/** Who can still commit after an end, computed from the state. */
module BidReach {
  import opened Collections
  import opened Domain
  import opened BidProtocol
  import opened BidInvariant
  import opened BidPrices
  import opened BidLate

  /** The price there is, and those that enders are about to write. */
  function Sources(s: State, a: AuctionId): set<Cents>
    requires a in s.auctions
  {
    {s.auctions[a].currentPrice} + set e | e in s.enders && Ending(s, a, e) :: s.enders[e].pc.row.currentPrice
  }

  /** One transaction further: what those that expect one of `prices` would store. */
  function Onward(s: State, a: AuctionId, prices: set<Cents>): set<Cents> {
    prices + set c | c in PastCheck(s, a) && s.bidders[c].expected in prices :: Stored(s.bidders[c].amount)
  }

  /** The prices at most `n` transactions away from a source. */
  function Within(s: State, a: AuctionId, n: nat): set<Cents>
    requires a in s.auctions
  {
    if n == 0 then Sources(s, a) else Onward(s, a, Within(s, a, n - 1))
  }

  function ReachablePrices(s: State, a: AuctionId): set<Cents>
    requires a in s.auctions
  {
    Within(s, a, |PastCheck(s, a)|)
  }

  lemma {:induction false} WithinGrows(s: State, a: AuctionId, n: nat, m: nat)
    requires a in s.auctions && n <= m
    ensures Within(s, a, n) <= Within(s, a, m)
  {
    if n < m { WithinGrows(s, a, n, m - 1); }
  }

  // ---------------------------------------------------------------- plans stay within

  function Callers(plan: seq<Event>): set<CallId> {
    set ev | ev in plan && ev.Lands? :: ev.c
  }

  lemma {:induction false} PlanPrefix(s: State, a: AuctionId, plan: seq<Event>, i: nat)
    requires a in s.auctions && Plan(s, a, plan) && i < |plan|
    ensures Plan(s, a, plan[..i]) && Fits(s, a, plan[..i], plan[i])
  {
    if i < |plan| - 1 {
      var init := plan[..|plan| - 1];
      PlanPrefix(s, a, init, i);
      assert init[..i] == plan[..i] && init[i] == plan[i];
    }
  }

  lemma CallersSnoc(plan: seq<Event>, ev: Event)
    requires ev !in plan
    ensures |Callers(plan + [ev])| == |Callers(plan)| + if ev.Lands? then 1 else 0
  {
    if ev.Lands? {
      assert ev.c !in Callers(plan);
      assert Callers(plan + [ev]) == Callers(plan) + {ev.c};
    } else {
      assert Callers(plan + [ev]) == Callers(plan);
    }
  }

  lemma {:induction false} PlanStaysWithin(s: State, a: AuctionId, plan: seq<Event>)
    requires a in s.auctions && Plan(s, a, plan)
    ensures PriceAfter(s, a, plan) in Within(s, a, |Callers(plan)|)
  {
    if plan != [] {
      var init, ev := plan[..|plan| - 1], plan[|plan| - 1];
      PlanStaysWithin(s, a, init);
      assert plan == init + [ev];
      CallersSnoc(init, ev);
      if ev.Rewrites? { WithinGrows(s, a, 0, |Callers(plan)|); }
    }
  }

  lemma FewCallers(s: State, a: AuctionId, plan: seq<Event>)
    requires a in s.auctions && Plan(s, a, plan)
    ensures |Callers(plan)| <= |PastCheck(s, a)|
  {
    assert forall ev <- plan :: Possible(s, a, ev);
    CardinalityOfSubset(Callers(plan), PastCheck(s, a));
  }

  lemma LanderIsWithin(s: State, a: AuctionId, plan: seq<Event>, c: CallId)
    requires a in s.auctions && Plan(s, a, plan) && Lands(c) in plan
    ensures c in PastCheck(s, a) && s.bidders[c].expected in ReachablePrices(s, a)
  {
    var i :| 0 <= i < |plan| && plan[i] == Lands(c);
    PlanPrefix(s, a, plan, i);
    PlanStaysWithin(s, a, plan[..i]);
    FewCallers(s, a, plan[..i]);
    WithinGrows(s, a, |Callers(plan[..i])|, |PastCheck(s, a)|);
  }

  // ---------------------------------------------------------------- and reach everything within

  /** Who holds the lock has found its price already. */
  predicate HolderIsReady(s: State, a: AuctionId)
    requires a in s.auctions
  {
    forall c <- PastCheck(s, a) | At(s, c, Commit) :: s.bidders[c].expected == s.auctions[a].currentPrice
  }

  lemma HoldersAreReady(s: State, a: AuctionId)
    requires Inv(s) && a in s.auctions
    ensures HolderIsReady(s, a)
  {
    forall c <- PastCheck(s, a) | At(s, c, Commit) ensures s.bidders[c].expected == s.auctions[a].currentPrice {
      assert BidderOk(s, c);
    }
  }

  /** Once the price is what `c` expects, `c` can be next, unless it has been before. */
  lemma LandAfter(s: State, a: AuctionId, before: seq<Event>, c: CallId) returns (plan: seq<Event>)
    requires a in s.auctions && HolderIsReady(s, a) && Plan(s, a, before) && c in PastCheck(s, a)
    requires PriceAfter(s, a, before) == s.bidders[c].expected
    ensures Plan(s, a, plan) && Lands(c) in plan && PriceAfter(s, a, plan) == Stored(s.bidders[c].amount)
  {
    if At(s, c, Commit) {
      PlanSnoc(s, a, [], Lands(c));
      plan := [] + [Lands(c)];
    } else if Lands(c) in before {
      var i :| 0 <= i < |before| && before[i] == Lands(c);
      PlanPrefix(s, a, before, i);
      PlanSnoc(s, a, before[..i], Lands(c));
      plan := before[..i] + [Lands(c)];
    } else {
      PlanSnoc(s, a, before, Lands(c));
      plan := before + [Lands(c)];
    }
  }

  lemma SourcePlan(s: State, a: AuctionId, p: Cents) returns (plan: seq<Event>)
    requires a in s.auctions && p in Sources(s, a)
    ensures Plan(s, a, plan) && PriceAfter(s, a, plan) == p
  {
    plan := [];
    if p != s.auctions[a].currentPrice {
      var e :| e in s.enders && Ending(s, a, e) && s.enders[e].pc.row.currentPrice == p;
      PlanSnoc(s, a, [], Rewrites(e));
      plan := [] + [Rewrites(e)];
    }
  }

  lemma StoredBy(s: State, a: AuctionId, prices: set<Cents>, p: Cents) returns (c: CallId)
    requires p in Onward(s, a, prices) && p !in prices
    ensures c in PastCheck(s, a) && s.bidders[c].expected in prices && Stored(s.bidders[c].amount) == p
  {
    c :| c in PastCheck(s, a) && s.bidders[c].expected in prices && Stored(s.bidders[c].amount) == p;
  }

  lemma {:induction false} PlanTo(s: State, a: AuctionId, p: Cents, n: nat) returns (plan: seq<Event>)
    requires a in s.auctions && HolderIsReady(s, a) && p in Within(s, a, n)
    ensures Plan(s, a, plan) && PriceAfter(s, a, plan) == p
    decreases n
  {
    if n == 0 {
      plan := SourcePlan(s, a, p);
    } else if p in Within(s, a, n - 1) {
      plan := PlanTo(s, a, p, n - 1);
    } else {
      var c := StoredBy(s, a, Within(s, a, n - 1), p);
      var before := PlanTo(s, a, s.bidders[c].expected, n - 1);
      plan := LandAfter(s, a, before, c);
    }
  }

  /**
   Some plan has a transaction commit if and only if the price it expects is among those that lead on from
   the present price and the pending snapshots, each transaction from what it expects to what it stores.
   */
  lemma MayLandIff(s: State, a: AuctionId, c: CallId)
    requires Inv(s) && a in s.auctions
    ensures MayLand(s, a, c) <==> c in PastCheck(s, a) && s.bidders[c].expected in ReachablePrices(s, a)
  {
    if plan :| Plan(s, a, plan) && Lands(c) in plan {
      LanderIsWithin(s, a, plan, c);
    }
    if c in PastCheck(s, a) && s.bidders[c].expected in ReachablePrices(s, a) {
      HoldersAreReady(s, a);
      var before := PlanTo(s, a, s.bidders[c].expected, |PastCheck(s, a)|);
      var plan := LandAfter(s, a, before, c);
    }
  }

  /** A transaction past its check can commit after the end if and only if its expected price is reachable. */
  lemma LateBidderComputed(s: State, a: AuctionId, c: CallId)
    requires Inv(s) && IsEndedIn(s, a) && c in PastCheck(s, a)
    ensures CanCommit(s, c) <==> s.bidders[c].expected in ReachablePrices(s, a)
  {
    LateBidderIff(s, a, c);
    MayLandIff(s, a, c);
  }
}
