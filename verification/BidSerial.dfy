/** The interleaved protocol against two simpler machines: serial commits and the English auction. */
module BidSerial {
  import opened Domain
  import opened BidProtocol
  import opened BidInvariant

  // ---------------------------------------------------------------- serial commits

  datatype Tables = Tables(auctions: map<AuctionId, AuctionRow>, bids: seq<Bid>)

  function TablesOf(s: State): Tables { Tables(s.auctions, s.bids) }

  /** An accepted bid is one compare-and-set: the price must be the expected one, and be exceeded. */
  predicate Enabled(t: Tables, e: Entry) {
    match e
    case Opened(a, row) => a !in t.auctions && row.CanBid() && 0 < row.startingPrice == row.currentPrice
    case Accepted(bid, offered, expected) =>
      && bid.auction in t.auctions
      && t.auctions[bid.auction].currentPrice == expected
      && offered > expected as real
      && bid.amount == Stored(offered)
      && forall x <- t.bids :: x.id != bid.id
    case Closed(a, row, _) =>
      && a in t.auctions
      && row.IsEnded()
      && row.Listing() == t.auctions[a].Listing()
  }

  function Effect(t: Tables, e: Entry): Tables
    requires Enabled(t, e)
  {
    match e
    case Opened(a, row) => t.(auctions := t.auctions[a := row])
    case Accepted(bid, _, _) =>
      Tables(t.auctions[bid.auction := t.auctions[bid.auction].(currentPrice := bid.amount)], t.bids + [bid])
    case Closed(a, row, _) => t.(auctions := t.auctions[a := row])
  }

  /** The log, executed serially from empty tables, each entry one atomic and successful operation. */
  function Replay(log: seq<Entry>): Option<Tables> {
    if log == [] then Some(Tables(map[], []))
    else
      match Replay(log[..|log| - 1])
      case None => None
      case Some(t) => if Enabled(t, log[|log| - 1]) then Some(Effect(t, log[|log| - 1])) else None
  }

  /** What entry `e`, if any, did between two states. */
  predicate AtomicStep(s: State, t: State, e: Option<Entry>) {
    match e
    case None => t.log == s.log && TablesOf(t) == TablesOf(s)
    case Some(e) =>
      t.log == s.log + [e] && Enabled(TablesOf(s), e) && TablesOf(t) == Effect(TablesOf(s), e)
  }

  lemma CommitIsAtomic(s: State, c: CallId, acknowledged: bool) returns (e: Option<Entry>)
    requires Inv(s) && At(s, c, Commit)
    ensures e.Some? && AtomicStep(s, Apply(s, BidCommit(c, acknowledged)), e)
    ensures e == Some(Accepted(NewBid(c, s.bidders[c]), s.bidders[c].amount, s.bidders[c].expected))
  {
    var b := s.bidders[c];
    CommitEffect(s, c, acknowledged);
    e := Some(Accepted(NewBid(c, b), b.amount, b.expected));
    assert BidderOk(s, c);
    NotYetVisible(s, c);
  }

  lemma WriteIsAtomic(s: State, c: CallId, acknowledged: bool) returns (e: Option<Entry>)
    requires Inv(s)
    ensures AtomicStep(s, Apply(s, EndWrite(c, acknowledged)), e)
    ensures e.Some? ==> e.value.Closed?
  {
    var t := Apply(s, EndWrite(c, acknowledged));
    if t.log != s.log {
      WriteEffect(s, c, acknowledged);
      assert EnderOk(s, c);
      e := Some(Closed(s.enders[c].auction, s.enders[c].pc.row, s.enders[c].pc.read));
    } else {
      assert c in s.enders ==> EnderOk(s, c);
      e := None;
    }
  }

  /** Every step either leaves both tables alone or is one enabled atomic operation on them. */
  lemma StepIsAtomic(s: State, act: Action) returns (e: Option<Entry>)
    requires Inv(s)
    ensures AtomicStep(s, Apply(s, act), e)
  {
    e := None;
    match act
    case OpenAuction(a, row) =>
      if Apply(s, act).log != s.log { e := Some(Opened(a, row)); }
    case BidCommit(c, acknowledged) =>
      if At(s, c, Commit) && s.bidders[c].tx.Open? { e := CommitIsAtomic(s, c, acknowledged); }
    case EndWrite(c, acknowledged) =>
      e := WriteIsAtomic(s, c, acknowledged);
    case _ => QuietStep(s, act);
  }

  /**
   After any run the tables are those of the commits executed one after the other: a bid as one
   compare-and-set, an end as one write of the row in its entry, whatever price that row carries.
   */
  lemma {:induction false} TablesAreSerial(acts: seq<Action>)
    ensures var s := Run(INIT, acts); Replay(s.log) == Some(TablesOf(s))
  {
    if acts != [] {
      var s := Run(INIT, acts[..|acts| - 1]);
      var t := Run(INIT, acts);
      TablesAreSerial(acts[..|acts| - 1]);
      Reachable(acts[..|acts| - 1]);
      var e := StepIsAtomic(s, acts[|acts| - 1]);
      if e.Some? { assert t.log[..|t.log| - 1] == s.log; }
    }
  }

  /** The bids the log accepts, in order. */
  function AcceptedBids(log: seq<Entry>): seq<Bid> {
    if log == [] then []
    else
      var e := log[|log| - 1];
      AcceptedBids(log[..|log| - 1]) + if e.Accepted? then [e.bid] else []
  }

  lemma {:induction false} ReplayedBids(log: seq<Entry>)
    requires Replay(log).Some?
    ensures Replay(log).value.bids == AcceptedBids(log)
  {
    if log != [] {
      ReplayedBids(log[..|log| - 1]);
    }
  }

  /** All or nothing: a bid row is visible exactly when its price update took effect, in the same order. */
  lemma RowsAreAcceptedBids(acts: seq<Action>)
    ensures var s := Run(INIT, acts); s.bids == AcceptedBids(s.log)
  {
    TablesAreSerial(acts);
    ReplayedBids(Run(INIT, acts).log);
  }

  // ---------------------------------------------------------------- the English auction

  /** A lot under the hammer. */
  datatype Lot = Lot(price: Cents, leader: Option<CallId>)

  /** Accept an offer if and only if it exceeds the highest one so far. */
  function Offer(lot: Lot, c: CallId, amount: real): Lot {
    if amount > lot.price as real then Lot(Stored(amount), Some(c)) else lot
  }

  /** The offers that were committed on `a`, played as a serial auction from the starting price. */
  function Play(log: seq<Entry>, a: AuctionId): Lot {
    if log == [] then Lot(0, None)
    else
      var lot := Play(log[..|log| - 1], a);
      match log[|log| - 1]
      case Opened(x, row) => if x == a then Lot(row.startingPrice, None) else lot
      case Accepted(bid, offered, _) => if bid.auction == a then Offer(lot, bid.id, offered) else lot
      case Closed(_, _, _) => lot
  }

  function BidsOf(bids: seq<Bid>, a: AuctionId): seq<Bid> {
    if bids == [] then []
    else BidsOf(bids[..|bids| - 1], a) + if bids[|bids| - 1].auction == a then [bids[|bids| - 1]] else []
  }

  function Leader(bids: seq<Bid>, a: AuctionId): Option<CallId> {
    var own := BidsOf(bids, a);
    if own == [] then None else Some(own[|own| - 1].id)
  }

  lemma BidsOfAppend(bids: seq<Bid>, b: Bid, a: AuctionId)
    ensures BidsOf(bids + [b], a) == BidsOf(bids, a) + if b.auction == a then [b] else []
  {
    assert (bids + [b])[..|bids + [b]| - 1] == bids;
  }

  lemma {:induction false} BidsOfMembers(bids: seq<Bid>, a: AuctionId)
    ensures forall b :: b in BidsOf(bids, a) <==> b in bids && b.auction == a
  {
    if bids != [] {
      BidsOfMembers(bids[..|bids| - 1], a);
      assert bids == bids[..|bids| - 1] + [bids[|bids| - 1]];
    }
  }

  /** The lot a state shows to an onlooker: the cached price and the bidder of the latest row. */
  function LotOf(s: State, a: AuctionId): Lot
    requires a in s.auctions
  {
    Lot(s.auctions[a].currentPrice, Leader(s.bids, a))
  }

  predicate IsActive(s: State, a: AuctionId) { a in s.auctions && s.auctions[a].status == Active }

  lemma CommitIsAnOffer(s: State, c: CallId, acknowledged: bool, a: AuctionId)
    requires Inv(s) && At(s, c, Commit) && a in s.auctions
    ensures var t := Apply(s, BidCommit(c, acknowledged)); var b := s.bidders[c];
            && a in t.auctions
            && b.amount > s.auctions[b.auction].currentPrice as real
            && LotOf(t, a) == if b.auction == a then Offer(LotOf(s, a), c, b.amount) else LotOf(s, a)
  {
    CommitEffect(s, c, acknowledged);
    BidsOfAppend(s.bids, NewBid(c, s.bidders[c]), a);
  }

  /**
   Simulation: while an auction is active, the only step that shows is a commit, and it is an accepted
   offer of the English auction; every read, insert, update, failure and rollback stutters.
   */
  lemma StepRefinesEnglish(s: State, act: Action, a: AuctionId)
    requires Inv(s)
    requires IsActive(s, a) && IsActive(Apply(s, act), a)
    ensures var t := Apply(s, act);
            || LotOf(t, a) == LotOf(s, a)
            || (&& act.BidCommit? && At(s, act.c, Commit) && s.bidders[act.c].auction == a
                && s.bidders[act.c].amount > LotOf(s, a).price as real
                && LotOf(t, a) == Offer(LotOf(s, a), act.c, s.bidders[act.c].amount))
  {
    match act
    case OpenAuction(x, row) => OpenSpares(s, x, row, a);
    case BidCommit(c, acknowledged) =>
      if At(s, c, Commit) && s.bidders[c].tx.Open? { CommitIsAnOffer(s, c, acknowledged, a); }
    case EndWrite(c, acknowledged) => WriteSparesActive(s, c, acknowledged, a);
    case _ => QuietStep(s, act);
  }

  lemma OpenSpares(s: State, x: AuctionId, row: AuctionRow, a: AuctionId)
    requires a in s.auctions
    ensures var t := Apply(s, OpenAuction(x, row));
            a in t.auctions && t.auctions[a] == s.auctions[a] && t.bids == s.bids
  {
  }

  /** A write of `a` would have ended it. */
  lemma WriteSparesActive(s: State, c: CallId, acknowledged: bool, a: AuctionId)
    requires Inv(s) && a in s.auctions && IsActive(Apply(s, EndWrite(c, acknowledged)), a)
    ensures var t := Apply(s, EndWrite(c, acknowledged)); t.auctions[a] == s.auctions[a] && t.bids == s.bids
  {
    var e := WriteIsAtomic(s, c, acknowledged);
  }

  lemma {:induction false} BidsOfNone(bids: seq<Bid>, a: AuctionId)
    requires forall b <- bids :: b.auction != a
    ensures BidsOf(bids, a) == []
  {
    if bids != [] { BidsOfNone(bids[..|bids| - 1], a); }
  }

  lemma NoBidsBeforeOpening(s: State, a: AuctionId)
    requires Inv(s) && a !in s.auctions
    ensures BidsOf(s.bids, a) == []
  {
    forall b <- s.bids ensures b.auction != a { assert BidOk(s, b); }
    BidsOfNone(s.bids, a);
  }

  lemma PlaySnoc(log: seq<Entry>, e: Entry, a: AuctionId)
    requires e.Opened? ==> e.auction != a
    ensures Play(log + [e], a) ==
            if e.Accepted? && e.bid.auction == a then Offer(Play(log, a), e.bid.id, e.offered) else Play(log, a)
  {
    assert (log + [e])[..|log + [e]| - 1] == log;
  }

  lemma LotAfter(s: State, t: State, e: Entry, a: AuctionId)
    requires AtomicStep(s, t, Some(e)) && IsActive(s, a) && IsActive(t, a)
    ensures e.Opened? ==> e.auction != a
    ensures LotOf(t, a) ==
            if e.Accepted? && e.bid.auction == a then Offer(LotOf(s, a), e.bid.id, e.offered) else LotOf(s, a)
  {
    PriceOfEntry(s, t, e, a);
    if e.Accepted? { BidsOfAppend(s.bids, e.bid, a); }
  }

  lemma PlayEntry(s: State, t: State, e: Entry, a: AuctionId)
    requires AtomicStep(s, t, Some(e))
    requires IsActive(s, a) && IsActive(t, a)
    requires Play(s.log, a) == LotOf(s, a)
    ensures Play(t.log, a) == LotOf(t, a)
  {
    LotAfter(s, t, e, a);
    PlaySnoc(s.log, e, a);
  }

  /** Every run refines the serial English auction as long as the auction is active. */
  lemma {:induction false} RunRefinesEnglish(acts: seq<Action>, a: AuctionId)
    requires IsActive(Run(INIT, acts), a)
    ensures var s := Run(INIT, acts); Play(s.log, a) == LotOf(s, a)
  {
    if acts != [] {
      var act := acts[|acts| - 1];
      var s := Run(INIT, acts[..|acts| - 1]);
      var t := Run(INIT, acts);
      Reachable(acts[..|acts| - 1]);
      StepGrows(s, act);
      var e := StepIsAtomic(s, act);
      if a in s.auctions {
        assert RowOk(s, a);
        RunRefinesEnglish(acts[..|acts| - 1], a);
        if e.Some? { PlayEntry(s, t, e.value, a); }
      } else {
        NoBidsBeforeOpening(s, a);
        if e.Some? { assert t.log[..|t.log| - 1] == s.log; }
      }
    }
  }

  // ---------------------------------------------------------------- the chain of expected prices

  function AcceptedOf(log: seq<Entry>, a: AuctionId): (chain: seq<Entry>)
    ensures forall e <- chain :: e.Accepted? && e.bid.auction == a
  {
    if log == [] then []
    else
      var e := log[|log| - 1];
      AcceptedOf(log[..|log| - 1], a) + if e.Accepted? && e.bid.auction == a then [e] else []
  }

  /** The price a chain of accepted bids reaches from `start`. */
  function Reached(start: Cents, chain: seq<Entry>): Cents
    requires forall e <- chain :: e.Accepted?
  {
    if chain == [] then start else chain[|chain| - 1].bid.amount
  }

  /** Each bid expects the price its predecessor left, and offers more. */
  predicate Linked(start: Cents, chain: seq<Entry>)
    requires forall e <- chain :: e.Accepted?
  {
    && (forall e <- chain :: e.offered > e.expected as real && e.bid.amount == Stored(e.offered))
    && (forall i {:trigger chain[..i]} :: 0 <= i < |chain| ==> chain[i].expected == Reached(start, chain[..i]))
  }

  function Raises(chain: seq<Entry>): Cents
    requires forall e <- chain :: e.Accepted?
  {
    if chain == [] then 0
    else Raises(chain[..|chain| - 1]) + chain[|chain| - 1].bid.amount - chain[|chain| - 1].expected
  }

  lemma LinkedAppend(start: Cents, chain: seq<Entry>, e: Entry)
    requires (forall x <- chain :: x.Accepted?) && e.Accepted?
    requires Linked(start, chain)
    requires e.expected == Reached(start, chain) && e.offered > e.expected as real && e.bid.amount == Stored(e.offered)
    ensures Linked(start, chain + [e])
  {
    var longer := chain + [e];
    forall i | 0 <= i < |longer|
      ensures longer[i].expected == Reached(start, longer[..i])
    {
      if i < |chain| { assert longer[..i] == chain[..i]; } else { assert longer[..i] == chain; }
    }
  }

  predicate Chained(s: State, a: AuctionId)
    requires a in s.auctions
  {
    var start := s.auctions[a].startingPrice;
    var chain := AcceptedOf(s.log, a);
    Linked(start, chain) && Reached(start, chain) == s.auctions[a].currentPrice
  }

  lemma ChainEntry(s: State, t: State, e: Entry, a: AuctionId)
    requires AtomicStep(s, t, Some(e))
    requires IsActive(s, a) && IsActive(t, a)
    requires Chained(s, a)
    ensures Chained(t, a)
  {
    AcceptedOfSnoc(s.log, e, a);
    PriceOfEntry(s, t, e, a);
    if e.Accepted? && e.bid.auction == a {
      LinkedAppend(s.auctions[a].startingPrice, AcceptedOf(s.log, a), e);
    } else {
      assert AcceptedOf(t.log, a) == AcceptedOf(s.log, a);
    }
  }

  lemma PriceOfEntry(s: State, t: State, e: Entry, a: AuctionId)
    requires AtomicStep(s, t, Some(e)) && IsActive(s, a) && IsActive(t, a)
    ensures t.auctions[a].startingPrice == s.auctions[a].startingPrice
    ensures if e.Accepted? && e.bid.auction == a then
              && e.expected == s.auctions[a].currentPrice && e.offered > e.expected as real
              && e.bid.amount == Stored(e.offered) == t.auctions[a].currentPrice
            else t.auctions[a].currentPrice == s.auctions[a].currentPrice
  {
  }

  lemma AcceptedOfSnoc(log: seq<Entry>, e: Entry, a: AuctionId)
    ensures AcceptedOf(log + [e], a) == AcceptedOf(log, a) + if e.Accepted? && e.bid.auction == a then [e] else []
  {
    assert (log + [e])[..|log + [e]| - 1] == log;
  }

  /** While an auction is active its commits form one chain from the starting price to the current price. */
  lemma {:induction false} ActiveChain(acts: seq<Action>, a: AuctionId)
    requires IsActive(Run(INIT, acts), a)
    ensures Chained(Run(INIT, acts), a)
  {
    if acts != [] {
      var act := acts[|acts| - 1];
      var s := Run(INIT, acts[..|acts| - 1]);
      var t := Run(INIT, acts);
      Reachable(acts[..|acts| - 1]);
      StepGrows(s, act);
      var e := StepIsAtomic(s, act);
      if a in s.auctions {
        assert RowOk(s, a);
        ActiveChain(acts[..|acts| - 1], a);
        if e.Some? { ChainEntry(s, t, e.value, a); }
      } else {
        NothingAcceptedBeforeOpening(acts[..|acts| - 1], a);
        if e.Some? { assert t.log[..|t.log| - 1] == s.log; }
      }
    }
  }

  lemma NothingAcceptedBeforeOpening(acts: seq<Action>, a: AuctionId)
    requires a !in Run(INIT, acts).auctions
    ensures AcceptedOf(Run(INIT, acts).log, a) == []
  {
    var s := Run(INIT, acts);
    Reachable(acts);
    RowsAreAcceptedBids(acts);
    forall b <- s.bids ensures b.auction != a { assert BidOk(s, b); }
    AcceptedOfNone(s.log, a);
  }

  lemma {:induction false} AcceptedOfNone(log: seq<Entry>, a: AuctionId)
    requires forall b <- AcceptedBids(log) :: b.auction != a
    ensures AcceptedOf(log, a) == []
  {
    if log != [] {
      var e := log[|log| - 1];
      if e.Accepted? { assert AcceptedBids(log)[|AcceptedBids(log)| - 1] == e.bid; }
      forall b <- AcceptedBids(log[..|log| - 1]) ensures b.auction != a { assert b in AcceptedBids(log); }
      AcceptedOfNone(log[..|log| - 1], a);
    }
  }

  /** The raises telescope. */
  lemma {:induction false} RaisesTelescope(start: Cents, chain: seq<Entry>)
    requires forall e <- chain :: e.Accepted?
    requires Linked(start, chain)
    ensures Raises(chain) == Reached(start, chain) - start
  {
    if chain != [] {
      var init := chain[..|chain| - 1];
      forall i | 0 <= i < |init| ensures init[..i] == chain[..i] { }
      RaisesTelescope(start, init);
    }
  }

  /** Offers in whole cents raise strictly, so no two bids expect the same price. */
  lemma {:induction false} WholeCentsClimb(start: Cents, chain: seq<Entry>, i: nat, j: nat)
    requires forall e <- chain :: e.Accepted? && WholeCents(e.offered)
    requires Linked(start, chain)
    requires i < j < |chain|
    ensures chain[i].expected < chain[i].bid.amount <= chain[j].expected < chain[j].bid.amount
    decreases j
  {
    StoredKeepsUp(chain[i].offered, chain[i].expected);
    StoredKeepsUp(chain[j].offered, chain[j].expected);
    assert chain[..j][|chain[..j]| - 1] == chain[j - 1];
    if i < j - 1 {
      WholeCentsClimb(start, chain, i, j - 1);
    }
  }

  /** In finer units the stored price may stand still, but never falls. */
  lemma {:induction false} StoredNeverFalls(start: Cents, chain: seq<Entry>, i: nat, j: nat)
    requires forall e <- chain :: e.Accepted?
    requires Linked(start, chain)
    requires i < j < |chain|
    ensures chain[i].expected <= chain[i].bid.amount <= chain[j].expected <= chain[j].bid.amount
    decreases j
  {
    StoredKeepsUp(chain[i].offered, chain[i].expected);
    StoredKeepsUp(chain[j].offered, chain[j].expected);
    assert chain[..j][|chain[..j]| - 1] == chain[j - 1];
    if i < j - 1 {
      StoredNeverFalls(start, chain, i, j - 1);
    }
  }

  /** While active the raises sum to the current price less the starting price, and no raise is negative. */
  lemma RaisesSumUp(acts: seq<Action>, a: AuctionId)
    requires IsActive(Run(INIT, acts), a)
    ensures var s := Run(INIT, acts); var chain := AcceptedOf(s.log, a);
            && Raises(chain) == s.auctions[a].currentPrice - s.auctions[a].startingPrice
            && forall e <- chain :: e.bid.amount >= e.expected
  {
    var s := Run(INIT, acts);
    var chain := AcceptedOf(s.log, a);
    ActiveChain(acts, a);
    RaisesTelescope(s.auctions[a].startingPrice, chain);
    forall e <- chain ensures e.bid.amount >= e.expected { StoredKeepsUp(e.offered, e.expected); }
  }

  /** While active no two bids in whole cents were accepted against the same price. */
  lemma ExpectationsAreDistinct(acts: seq<Action>, a: AuctionId, i: nat, j: nat)
    requires IsActive(Run(INIT, acts), a)
    requires var chain := AcceptedOf(Run(INIT, acts).log, a);
             i < j < |chain| && forall e <- chain :: WholeCents(e.offered)
    ensures var chain := AcceptedOf(Run(INIT, acts).log, a); chain[i].expected < chain[j].expected
  {
    var s := Run(INIT, acts);
    ActiveChain(acts, a);
    WholeCentsClimb(s.auctions[a].startingPrice, AcceptedOf(s.log, a), i, j);
  }
}
