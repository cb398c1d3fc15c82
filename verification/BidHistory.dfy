/** What an end that took effect had read, and whether its announcement was still true when it wrote. */
module BidHistory {
  import opened Domain
  import opened BidProtocol
  import opened BidInvariant
  import opened BidSerial
  import opened BidPrices
  import opened BidFinal

  // ---------------------------------------------------------------- ends read the past

  /** After the first `j` commits the row of `a` was active, and otherwise what the ender keeps. */
  predicate RowWas(log: seq<Entry>, j: nat, a: AuctionId, row: AuctionRow) {
    && j <= |log| && Replay(log[..j]).Some?
    && var rows := Replay(log[..j]).value.auctions;
       a in rows && !rows[a].IsEnded() && row == rows[a].(status := Ended)
  }

  /** After the first `k` commits `read` was what `GetHighestBid` returns. */
  predicate ReadWas(log: seq<Entry>, k: nat, a: AuctionId, read: HighestRead) {
    k <= |log| && Replay(log[..k]).Some? && Answers(Replay(log[..k]).value.bids, a, read)
  }

  /** One read after the other, both within the first `end` commits. */
  ghost predicate ReadInOrder(log: seq<Entry>, end: nat, a: AuctionId, row: AuctionRow, read: HighestRead) {
    exists j: nat, k: nat :: j <= k <= end && RowWas(log, j, a, row) && ReadWas(log, k, a, read)
  }

  ghost predicate EnderHasRead(s: State, c: CallId)
    requires c in s.enders
  {
    var e := s.enders[c];
    match e.pc
    case EndRead => true
    case EndHighest(row) => exists j: nat :: RowWas(s.log, j, e.auction, row)
    case EndStore(row, read) => ReadInOrder(s.log, |s.log|, e.auction, row, read)
    case EndDone(_) => true
  }

  ghost predicate EndHadRead(log: seq<Entry>, i: nat)
    requires i < |log|
  {
    log[i].Closed? ==> ReadInOrder(log, i, log[i].auction, log[i].row, log[i].read)
  }

  ghost predicate Past(s: State) {
    && (forall c <- s.enders :: EnderHasRead(s, c))
    && (forall i: nat | i < |s.log| :: EndHadRead(s.log, i))
  }

  lemma RowWasGrows(log: seq<Entry>, more: seq<Entry>, j: nat, a: AuctionId, row: AuctionRow)
    requires log <= more && RowWas(log, j, a, row)
    ensures RowWas(more, j, a, row)
  {
    assert more[..j] == log[..j];
  }

  lemma ReadsGrow(log: seq<Entry>, more: seq<Entry>, end: nat, a: AuctionId, row: AuctionRow, read: HighestRead)
    requires log <= more && ReadInOrder(log, end, a, row, read)
    ensures ReadInOrder(more, end, a, row, read)
  {
    var j: nat, k: nat :| j <= k <= end && RowWas(log, j, a, row) && ReadWas(log, k, a, read);
    RowWasGrows(log, more, j, a, row);
    assert more[..k] == log[..k];
    assert ReadWas(more, k, a, read);
  }

  lemma EnderKeepsReads(s: State, t: State, c: CallId)
    requires s.log <= t.log && c in s.enders && EnderHasRead(s, c)
    requires c in t.enders && t.enders[c] == s.enders[c]
    ensures EnderHasRead(t, c)
  {
    var e := s.enders[c];
    match e.pc
    case EndHighest(row) =>
      var j: nat :| RowWas(s.log, j, e.auction, row);
      RowWasGrows(s.log, t.log, j, e.auction, row);
    case EndStore(row, read) =>
      ReadsGrow(s.log, t.log, |s.log|, e.auction, row, read);
      var j: nat, k: nat :| j <= k <= |s.log| && RowWas(t.log, j, e.auction, row) && ReadWas(t.log, k, e.auction, read);
      assert k <= |t.log|;
    case _ =>
  }

  lemma PresentIsLast(s: State)
    requires Replay(s.log) == Some(TablesOf(s))
    ensures Replay(s.log[..|s.log|]) == Some(TablesOf(s))
  {
    assert s.log[..|s.log|] == s.log;
  }

  /** The two reads see the present tables. */
  lemma ReaderStep(s: State, act: Action, c: CallId)
    requires Past(s) && Replay(s.log) == Some(TablesOf(s)) && c in s.enders
    requires act == EndReadAuction(c) || (act.EndReadHighest? && act.c == c)
    ensures EnderHasRead(Apply(s, act), c)
  {
    var t := Apply(s, act);
    var a := s.enders[c].auction;
    PresentIsLast(s);
    assert EnderHasRead(s, c);
    if t.enders[c] == s.enders[c] {
      EnderKeepsReads(s, t, c);
    } else if act.EndReadAuction? {
      if t.enders[c].pc.EndHighest? { assert RowWas(t.log, |s.log|, a, t.enders[c].pc.row); }
    } else {
      var j: nat :| RowWas(s.log, j, a, s.enders[c].pc.row);
      assert ReadWas(t.log, |s.log|, a, act.read);
    }
  }

  lemma EnderStepKeeps(s: State, act: Action, c: CallId)
    requires Inv(s) && Past(s) && Replay(s.log) == Some(TablesOf(s)) && c in Apply(s, act).enders
    ensures EnderHasRead(Apply(s, act), c)
  {
    var t := Apply(s, act);
    StepGrows(s, act);
    if c in s.enders && t.enders[c] == s.enders[c] {
      EnderKeepsReads(s, t, c);
    } else if act.EndReadAuction? || act.EndReadHighest? {
      ReaderIsEnder(s, act, c);
      ReaderStep(s, act, c);
    } else {
      OtherwiseOver(s, act, c);
    }
  }

  lemma ReaderIsEnder(s: State, act: Action, c: CallId)
    requires act.EndReadAuction? || act.EndReadHighest?
    requires c in Apply(s, act).enders && !(c in s.enders && Apply(s, act).enders[c] == s.enders[c])
    ensures act.c == c && c in s.enders
  {
  }

  lemma OtherwiseOver(s: State, act: Action, c: CallId)
    requires !act.EndReadAuction? && !act.EndReadHighest?
    requires c in Apply(s, act).enders && !(c in s.enders && Apply(s, act).enders[c] == s.enders[c])
    ensures Apply(s, act).enders[c].pc.EndRead? || Apply(s, act).enders[c].pc.EndDone?
  {
  }

  lemma EntriesKeep(s: State, t: State)
    requires s.log <= t.log && forall i: nat | i < |s.log| :: EndHadRead(s.log, i)
    ensures forall i: nat | i < |s.log| :: EndHadRead(t.log, i)
  {
    forall i: nat | i < |s.log| ensures EndHadRead(t.log, i) {
      assert EndHadRead(s.log, i);
      if s.log[i].Closed? { ReadsGrow(s.log, t.log, i, s.log[i].auction, s.log[i].row, s.log[i].read); }
    }
  }

  lemma NewEnd(s: State, c: CallId, acknowledged: bool)
    requires Inv(s) && Past(s) && Apply(s, EndWrite(c, acknowledged)).log != s.log
    ensures var t := Apply(s, EndWrite(c, acknowledged)); |t.log| == |s.log| + 1 && EndHadRead(t.log, |s.log|)
  {
    WriteEffect(s, c, acknowledged);
    var e := s.enders[c];
    assert EnderHasRead(s, c);
    ReadsGrow(s.log, Apply(s, EndWrite(c, acknowledged)).log, |s.log|, e.auction, e.pc.row, e.pc.read);
  }

  lemma NewEntry(s: State, act: Action)
    requires Inv(s) && Past(s)
    ensures var t := Apply(s, act); forall i: nat | |s.log| <= i < |t.log| :: EndHadRead(t.log, i)
  {
    var t := Apply(s, act);
    match act
    case EndWrite(c, acknowledged) => if t.log != s.log { NewEnd(s, c, acknowledged); }
    case BidCommit(c, acknowledged) =>
      if At(s, c, Commit) && s.bidders[c].tx.Open? { CommitEffect(s, c, acknowledged); }
    case OpenAuction(_, _) =>
    case _ => QuietStep(s, act);
  }

  /** In every run an end writes a row that was there before, and announces a bid read no earlier than that. */
  lemma {:induction false} EndsReadThePast(acts: seq<Action>)
    ensures Past(Run(INIT, acts))
  {
    if acts != [] {
      var s := Run(INIT, acts[..|acts| - 1]);
      var act := acts[|acts| - 1];
      EndsReadThePast(acts[..|acts| - 1]);
      Reachable(acts[..|acts| - 1]);
      TablesAreSerial(acts[..|acts| - 1]);
      StepGrows(s, act);
      EntriesKeep(s, Apply(s, act));
      NewEntry(s, act);
      forall c <- Apply(s, act).enders ensures EnderHasRead(Apply(s, act), c) { EnderStepKeeps(s, act, c); }
    }
  }

  lemma {:induction false} ReplayPrefix(log: seq<Entry>, i: nat)
    requires Replay(log).Some? && i < |log|
    ensures Replay(log[..i]).Some? && Enabled(Replay(log[..i]).value, log[i])
  {
    if i < |log| - 1 {
      var init := log[..|log| - 1];
      ReplayPrefix(init, i);
      assert init[..i] == log[..i];
    }
  }

  /** An end amounts to one atomic read and write of its row if and only if its price is the one it finds there. */
  lemma EndIsSerialIff(acts: seq<Action>, i: nat)
    requires i < |Run(INIT, acts).log| && Run(INIT, acts).log[i].Closed?
    ensures var log := Run(INIT, acts).log; var e := log[i];
            && Replay(log[..i]).Some?
            && var rows := Replay(log[..i]).value.auctions;
               && e.auction in rows
               && (e.row == rows[e.auction].(status := Ended) <==> e.row.currentPrice == rows[e.auction].currentPrice)
  {
    var log := Run(INIT, acts).log;
    TablesAreSerial(acts);
    ReplayPrefix(log, i);
    SameButForThePrice(log[i].row, Replay(log[..i]).value.auctions[log[i].auction]);
  }

  lemma SameButForThePrice(row: AuctionRow, there: AuctionRow)
    requires row.IsEnded() && row.Listing() == there.Listing()
    ensures row == there.(status := Ended) <==> row.currentPrice == there.currentPrice
  {
    assert row == row.Listing().(currentPrice := row.currentPrice, status := Ended);
    assert there.(status := Ended) == there.Listing().(currentPrice := there.currentPrice, status := Ended);
  }

  // ---------------------------------------------------------------- whether the announcement is true

  /** The announcement made after `read` is what `bids` say. */
  predicate Truthful(bids: seq<Bid>, a: AuctionId, read: HighestRead) {
    match read
    case Found(b) => IsHighest(bids, a, b)
    case NoBids => !HasBids(bids, a)
    case Unread => !HasBids(bids, a)
  }

  /** Between commits `k` and `i` no bid on `a` was accepted that the announcement would have to name. */
  predicate NothingMissed(log: seq<Entry>, k: nat, i: nat, a: AuctionId, read: HighestRead)
    requires k <= i <= |log|
  {
    forall e <- log[k..i] | e.Accepted? && e.bid.auction == a :: read.Found? && !Beats(e.bid, read.bid)
  }

  lemma {:induction false} AcceptedSince(log: seq<Entry>, k: nat)
    requires k <= |log|
    ensures forall b :: b in AcceptedBids(log) <==>
              b in AcceptedBids(log[..k]) || exists e <- log[k..] :: e.Accepted? && e.bid == b
  {
    if k == |log| {
      assert log[..k] == log;
    } else {
      var init := log[..|log| - 1];
      AcceptedSince(init, k);
      assert init[..k] == log[..k];
      assert log[k..] == init[k..] + [log[|log| - 1]];
    }
  }

  lemma TruthIff(log: seq<Entry>, k: nat, i: nat, a: AuctionId, read: HighestRead)
    requires k <= i <= |log| && Answers(AcceptedBids(log[..k]), a, read)
    ensures Truthful(AcceptedBids(log[..i]), a, read)
            <==> NothingMissed(log, k, i, a, read) && !(read.Unread? && HasBids(AcceptedBids(log[..k]), a))
  {
    var before, all := AcceptedBids(log[..k]), AcceptedBids(log[..i]);
    AcceptedSince(log[..i], k);
    assert log[..i][..k] == log[..k] && log[..i][k..] == log[k..i];
    assert forall b <- before :: b in all;
    forall e <- log[k..i] | e.Accepted? ensures e.bid in all { }
  }

  /**
   Every end announces what was true when it read, and that is still true at its write if and only if no
   bid that it would have to name was accepted in between, and the read did not fail on an auction with
   bids: such an error is logged and then taken for "no bids".
   */
  lemma AnnouncementIsTrueIff(acts: seq<Action>, i: nat) returns (k: nat)
    requires i < |Run(INIT, acts).log| && Run(INIT, acts).log[i].Closed?
    ensures var log := Run(INIT, acts).log; var e := log[i];
            && k <= i && Answers(AcceptedBids(log[..k]), e.auction, e.read)
            && (Truthful(AcceptedBids(log[..i]), e.auction, e.read)
                <==> NothingMissed(log, k, i, e.auction, e.read)
                     && !(e.read.Unread? && HasBids(AcceptedBids(log[..k]), e.auction)))
  {
    var log := Run(INIT, acts).log;
    var e := log[i];
    EndsReadThePast(acts);
    assert EndHadRead(log, i);
    var j: nat, k': nat :| j <= k' <= i && RowWas(log, j, e.auction, e.row) && ReadWas(log, k', e.auction, e.read);
    k := k';
    ReplayedBids(log[..k]);
    TruthIff(log, k, i, e.auction, e.read);
  }
}
