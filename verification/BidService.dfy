/**
 `PlaceBid`, `PlaceBidWithOCC`, `ExecuteTransaction` and `endAuctionWithResult` as they are written:
 one statement after the other on shared tables, other calls running in between.
 */
module BidService {
  import opened Domain
  import opened BidProtocol
  import opened BidInvariant
  import opened BidPrices
  import opened BidAlone
  import opened BidAnswers

  /** The statements that may fail. */
  datatype Statement =
    | SelectAuction | SelectHighest | BeginTx | SelectPrice | InsertBid | UpdatePrice
    | CommitTx | AckOfCommit | RollbackTx

  /**
   What surrounds a call: the steps that other calls take whenever it lets them, the statements that fail,
   and how often a statement goes on waiting for a row lock before it times out.
   */
  datatype Environment = Environment(others: nat -> seq<Action>, broken: set<Statement>, patience: nat)

  predicate StepOfBidder(act: Action, c: CallId) {
    && (act.StartBid? || act.BidReadAuction? || act.BidReadHighest? || act.BidBegin? || act.BidTxRead?
        || act.BidInsert? || act.BidUpdate? || act.BidCommit? || act.BidRollback? || act.BidFail? || act.BidTimeout?)
    && act.c == c
  }

  predicate StepOfEnder(act: Action, c: CallId) {
    && (act.StartEnd? || act.EndReadAuction? || act.EndReadHighest? || act.EndWrite? || act.EndFail?)
    && act.c == c
  }

  predicate ByOthers(acts: seq<Action>, c: CallId) {
    forall act <- acts :: !StepOfBidder(act, c) && !StepOfEnder(act, c)
  }

  lemma OthersStep(s: State, act: Action, c: CallId)
    ensures !StepOfBidder(act, c) ==>
              (c in Apply(s, act).bidders <==> c in s.bidders)
              && (c in s.bidders ==> Apply(s, act).bidders[c] == s.bidders[c])
    ensures !StepOfEnder(act, c) ==>
              (c in Apply(s, act).enders <==> c in s.enders)
              && (c in s.enders ==> Apply(s, act).enders[c] == s.enders[c])
  {
  }

  lemma RunSnoc(s: State, acts: seq<Action>, act: Action)
    ensures Run(s, acts + [act]) == Apply(Run(s, acts), act)
  {
    assert (acts + [act])[..|acts + [act]| - 1] == acts;
  }

  /** What a bid asks for never changes. */
  predicate SameRequest(s: State, t: State, c: CallId)
    requires c in s.bidders
  {
    && c in t.bidders
    && t.bidders[c].auction == s.bidders[c].auction
    && t.bidders[c].user == s.bidders[c].user
    && t.bidders[c].amount == s.bidders[c].amount
  }

  lemma RequestStep(s: State, act: Action, c: CallId)
    requires c in s.bidders
    ensures SameRequest(s, Apply(s, act), c)
  {
  }

  lemma {:induction false} RequestStays(s: State, acts: seq<Action>, c: CallId)
    requires c in s.bidders
    ensures SameRequest(s, Run(s, acts), c)
  {
    if acts != [] {
      RequestStays(s, acts[..|acts| - 1], c);
      RequestStep(Run(s, acts[..|acts| - 1]), acts[|acts| - 1], c);
    }
  }

  /** No other call runs in between and no statement fails. */
  ghost predicate Undisturbed(env: Environment) {
    env.broken == {} && forall k: nat :: env.others(k) == []
  }

  /** What other calls do while a statement waits for so many rounds. */
  function Rounds(env: Environment, n: nat): seq<Action> {
    if n == 0 then env.others(2) else Rounds(env, n - 1) + env.others(9 + n)
  }

  lemma NextRound(s: State, env: Environment, n: nat)
    ensures Run(s, Rounds(env, n + 1)) == Run(Run(s, Rounds(env, n)), env.others(10 + n))
  {
    RunConcat(s, Rounds(env, n), env.others(10 + n));
  }

  lemma {:induction false} NoRounds(env: Environment, n: nat)
    requires Undisturbed(env)
    ensures Rounds(env, n) == []
  {
    if n > 0 { NoRounds(env, n - 1); }
  }

  ghost predicate Apart(env: Environment, c: CallId) {
    forall k: nat :: ByOthers(env.others(k), c)
  }

  predicate IsCommitted(r: Outcome) { r == Placed || r == Unacknowledged }

  /** What a transaction is rolled back for. */
  predicate IsTxError(r: Outcome) { r == NotAccepting || r == TooLow || r == DbError || r == LockTimeout }

  /** What the checks on the row read first refuse. */
  predicate IsFirstRefusal(r: Outcome) {
    r == NotFound || r == NotAccepting || r == NotStarted || r == UnknownUser || r == InvalidAmount
  }

  /** An answer of a call that has passed the checks on the row it reads first. */
  predicate IsLateAnswer(r: Outcome) { IsCommitted(r) || IsTxError(r) || r == BelowStarting }

  /** What the answer tells about the statements that follow the first read. */
  predicate AnswersBroken(env: Environment, r: Outcome) {
    && (r == DbError ==>
          (SelectHighest in env.broken || BeginTx in env.broken || SelectPrice in env.broken
           || InsertBid in env.broken || UpdatePrice in env.broken || CommitTx in env.broken
           || RollbackTx in env.broken))
    && (IsCommitted(r) ==>
          && (SelectHighest !in env.broken && BeginTx !in env.broken && SelectPrice !in env.broken
              && InsertBid !in env.broken && UpdatePrice !in env.broken && CommitTx !in env.broken)
          && (r == Unacknowledged <==> AckOfCommit in env.broken))
  }

  lemma BidStarts(s: State, start: Action)
    requires Inv(s) && start.StartBid? && start.c !in s.bidders
    ensures var t := Apply(s, start);
            && t == SetBidder(s, start.c, Bidder(start.a, start.user, start.amount, 0, 0, 0, 0, 0, Idle, ReadAuction))
            && Inv(t)
  {
    StepKeepsInv(s, start);
  }

  /** The answer `r` tells whether there is a row, and what is in it. */
  lemma BidIsRecorded(s: State, start: Action, more: seq<Action>, r: Outcome)
    requires Inv(s) && start.StartBid? && start.c !in s.bidders
    requires At(Run(Apply(s, start), more), start.c, Done(r))
    ensures var t := Run(Apply(s, start), more);
            && s.bids <= t.bids
            && RowsOf(t.bids, start.c) == (if r == Placed || r == Unacknowledged then 1 else 0)
            && (r == Placed ==> exists b <- t.bids ::
                  b.id == start.c && b.auction == start.a && b.user == start.user
                  && b.amount as real - 0.5 <= start.amount < b.amount as real + 0.5)
  {
    BidStarts(s, start);
    RunKeepsInv(Apply(s, start), more);
    RequestStays(Apply(s, start), more, start.c);
    RowsOfCall(Run(Apply(s, start), more), start.c);
    StoredIsNearest(start.amount);
  }

  /** The answer is true of the tables at that moment. */
  lemma BidIsHonest(s: State, start: Action, more: seq<Action>, r: Outcome)
    requires Inv(s) && LogIsListed(s) && start.StartBid? && start.c !in s.bidders
    requires At(Run(Apply(s, start), more), start.c, Done(r))
    ensures var t := Run(Apply(s, start), more); LogIsListed(t) && IsJustified(t, start.c, t.bidders[start.c], r)
  {
    BidStarts(s, start);
    LogIsListedStep(s, start);
    RunIsHonest(Apply(s, start), more, start.c);
  }

  lemma BidIsJudged(s: State, start: Action, more: seq<Action>, r: Outcome, userKnown: bool)
    requires Inv(s) && start.StartBid? && start.c !in s.bidders && start.a !in s.locks
    requires At(Run(Apply(s, start), more), start.c, Done(r))
    requires SmoothRun(Apply(s, start), more, start.c, userKnown)
    ensures r == Verdict(s, start.a, start.amount, userKnown)
  {
    BidStarts(s, start);
    StartedBidIsJudged(Apply(s, start), more, start.c, r, userKnown);
    VerdictOfTables(s, Apply(s, start), start.a, start.amount, userKnown);
  }

  lemma StartedBidIsJudged(s: State, more: seq<Action>, c: CallId, r: Outcome, userKnown: bool)
    requires Inv(s) && At(s, c, ReadAuction) && s.bidders[c].auction !in s.locks
    requires SmoothRun(s, more, c, userKnown) && At(Run(s, more), c, Done(r))
    ensures r == Verdict(s, s.bidders[c].auction, s.bidders[c].amount, userKnown)
  {
    AloneBidIsDecidedByHighest(s, more, c, userKnown);
  }

  lemma VerdictOfTables(s: State, t: State, a: AuctionId, amount: real, userKnown: bool)
    requires t.auctions == s.auctions && t.bids == s.bids && t.now == s.now
    ensures Verdict(t, a, amount, userKnown) == Verdict(s, a, amount, userKnown)
  {
  }

  lemma RowIsThere(s: State, c: CallId)
    requires Inv(s) && At(s, c, TxRead)
    ensures s.bidders[c].auction in s.auctions
  {
    assert BidderOk(s, c);
  }

  lemma RowIsThereToEnd(s: State, c: CallId)
    requires Inv(s) && c in s.enders && s.enders[c].pc.EndStore?
    ensures s.enders[c].auction in s.auctions
  {
    assert EnderOk(s, c);
  }

  lemma TxIsOpen(s: State, c: CallId)
    requires Inv(s) && c in s.bidders && s.bidders[c].PastStatusCheck()
    ensures s.bidders[c].tx.Open?
    ensures s.bidders[c].pc.Commit? ==> s.bidders[c].tx.updated.Some?
  {
    assert BidderOk(s, c);
  }

  class Backend {
    var now: Time
    // committed rows and row locks
    var auctions: map<AuctionId, AuctionRow>
    var bids: seq<Bid>
    var locks: map<AuctionId, CallId>
    // the frames of the calls, each with its open transaction
    var bidders: map<CallId, Bidder>
    var enders: map<CallId, Ender>
    // the commit log
    var log: seq<Entry>

    function View(): State
      reads this
    {
      State(now, auctions, bids, locks, bidders, enders, log)
    }

    constructor ()
      ensures View() == INIT
    {
      now, auctions, bids, locks, bidders, enders, log := 0, map[], [], map[], map[], map[], [];
    }

    /** One step of some call. */
    method Execute(act: Action)
      modifies this
      ensures View() == Apply(old(View()), act)
    {
      var s := Apply(View(), act);
      now, auctions, bids, locks := s.now, s.auctions, s.bids, s.locks;
      bidders, enders, log := s.bidders, s.enders, s.log;
    }

    /** Other calls run for a while. */
    method Yield(acts: seq<Action>, c: CallId)
      requires ByOthers(acts, c)
      requires Inv(View())
      modifies this
      ensures View() == Run(old(View()), acts)
      ensures Inv(View()) && Grows(old(View()), View())
      ensures (c in bidders <==> c in old(bidders)) && (c in bidders ==> bidders[c] == old(bidders[c]))
      ensures (c in enders <==> c in old(enders)) && (c in enders ==> enders[c] == old(enders[c]))
    {
      for i := 0 to |acts|
        invariant View() == Run(old(View()), acts[..i])
        invariant (c in bidders <==> c in old(bidders)) && (c in bidders ==> bidders[c] == old(bidders[c]))
        invariant (c in enders <==> c in old(enders)) && (c in enders ==> enders[c] == old(enders[c]))
      {
        RunSnoc(old(View()), acts[..i], acts[i]);
        assert acts[..i + 1] == acts[..i] + [acts[i]];
        OthersStep(View(), acts[i], c);
        Execute(acts[i]);
      }
      assert acts[..|acts|] == acts;
      RunKeepsInv(old(View()), acts);
    }

    method GetByID(a: AuctionId) returns (row: Option<AuctionRow>)
      ensures row == if a in auctions then Some(auctions[a]) else None
    {
      if a in auctions { row := Some(auctions[a]); } else { row := None; }
    }

    /** ORDER BY amount DESC, created_at ASC LIMIT 1. */
    method GetHighestBid(a: AuctionId) returns (read: HighestRead)
      ensures Answers(bids, a, read) && !read.Unread?
    {
      read := NoBids;
      for i := 0 to |bids|
        invariant Answers(bids[..i], a, read) && !read.Unread?
      {
        var b := bids[i];
        assert bids[..i + 1] == bids[..i] + [b];
        if b.auction == a {
          if read.NoBids?
             || read.bid.amount < b.amount
             || (read.bid.amount == b.amount && b.createdAt < read.bid.createdAt)
          {
            read := Found(b);
          }
        }
      }
      assert bids[..|bids|] == bids;
    }

    method SetBidderPc(c: CallId, pc: BidderPc)
      requires c in bidders
      modifies this`bidders
      ensures bidders == old(bidders)[c := old(bidders)[c].(pc := pc)]
    {
      bidders := bidders[c := bidders[c].(pc := pc)];
    }

    /** Lines 66-91 of bid.go. */
    method ReadAuctionForBid(c: CallId, userKnown: bool, fails: bool)
      returns (err: Option<Outcome>, ghost act: Action)
      requires At(View(), c, ReadAuction)
      modifies this
      ensures View() == Apply(old(View()), act)
      ensures fails || SmoothStep(old(View()), act, c, userKnown)
      ensures err == Some(NotFound) <==> fails || old(bidders[c].auction !in auctions)
      ensures err.None? ==> userKnown
      ensures err.Some? ==> IsFirstRefusal(err.value) && (err.value == UnknownUser ==> !userKnown)
      ensures At(View(), c, if err.Some? then Done(err.value) else ReadHighest)
    {
      err := None;
      var row := GetByID(bidders[c].auction);
      if fails || row.None? { err := Some(NotFound); }
      else if row.value.status != Active { err := Some(NotAccepting); }
      else if now <= row.value.startTime { err := Some(NotStarted); }
      else if !userKnown { err := Some(UnknownUser); }
      else if bidders[c].amount <= 0.0 { err := Some(InvalidAmount); }
      if err == Some(NotStarted) {
        bidders := bidders[c := bidders[c].(pc := Done(NotStarted), checkedAt := now)];
      } else if err.Some? {
        SetBidderPc(c, Done(err.value));
      } else {
        bidders := bidders[c := bidders[c].(
          pc := ReadHighest, start := row.value.startingPrice, expected := row.value.currentPrice,
          since := |log|, checkedAt := now)];
      }
      act := if fails then BidFail(c) else BidReadAuction(c, userKnown);
    }

    /** Lines 95-131 of bid.go. */
    method ReadHighestForBid(c: CallId, fails: bool)
      returns (err: Option<Outcome>, ghost act: Action)
      requires At(View(), c, ReadHighest)
      modifies this
      ensures View() == Apply(old(View()), act)
      ensures fails || forall k :: SmoothStep(old(View()), act, c, k)
      ensures err == Some(DbError) <==> fails
      ensures err.Some? ==> err.value == DbError || err.value == TooLow || err.value == BelowStarting
      ensures At(View(), c, if err.Some? then Done(err.value) else Begin)
    {
      var amount := bidders[c].amount;
      var highest := GetHighestBid(bidders[c].auction);
      err := None;
      if fails { err := Some(DbError); }
      else if highest.Found? && amount <= highest.bid.amount as real { err := Some(TooLow); }
      else if highest.NoBids? && amount <= bidders[c].start as real { err := Some(BelowStarting); }
      if err.Some? {
        SetBidderPc(c, Done(err.value));
      } else {
        bidders := bidders[c := bidders[c].(pc := Begin, createdAt := now)];
      }
      act := if fails then BidFail(c) else BidReadHighest(c, highest);
    }

    /** Lines 47-52 of connection.go. */
    method BeginTransaction(c: CallId, fails: bool)
      returns (err: Option<Outcome>, ghost act: Action)
      requires At(View(), c, Begin)
      modifies this
      ensures View() == Apply(old(View()), act)
      ensures fails || forall k :: SmoothStep(old(View()), act, c, k)
      ensures err == if fails then Some(DbError) else None
      ensures At(View(), c, if err.Some? then Done(err.value) else TxRead)
    {
      if fails {
        err := Some(DbError);
        SetBidderPc(c, Done(DbError));
      } else {
        err := None;
        bidders := bidders[c := bidders[c].(pc := TxRead, tx := Open([], None))];
      }
      act := if fails then BidFail(c) else BidBegin(c);
    }

    /** Lines 189-217 of bid_repository.go. */
    method CheckPrice(c: CallId, fails: bool)
      returns (err: Option<Outcome>, ghost act: Action)
      requires At(View(), c, TxRead)
      modifies this
      ensures View() == Apply(old(View()), act)
      ensures fails || forall k :: SmoothStep(old(View()), act, c, k)
      ensures err == Some(DbError) <==> fails
      ensures err == Some(NotFound) <==> !fails && old(bidders[c].auction !in auctions)
      ensures err.Some? ==> err.value == NotFound || IsTxError(err.value)
      ensures At(View(), c, if err.Some? then Rollback(err.value) else Insert)
    {
      err := None;
      var row := GetByID(bidders[c].auction);
      if fails { err := Some(DbError); }
      else if row.None? { err := Some(NotFound); }
      else if row.value.status != Active { err := Some(NotAccepting); }
      else if row.value.currentPrice != bidders[c].expected { err := Some(TooLow); }
      else if bidders[c].amount <= row.value.currentPrice as real { err := Some(TooLow); }
      SetBidderPc(c, if err.Some? then Rollback(err.value) else Insert);
      act := if fails then BidFail(c) else BidTxRead(c);
    }

    /** Lines 219-236: the row is the transaction's own until it commits. */
    method InsertRow(c: CallId, fails: bool)
      returns (err: Option<Outcome>, ghost act: Action)
      requires At(View(), c, Insert) && bidders[c].tx.Open?
      modifies this
      ensures View() == Apply(old(View()), act)
      ensures fails || forall k :: SmoothStep(old(View()), act, c, k)
      ensures err == if fails then Some(DbError) else None
      ensures At(View(), c, if err.Some? then Rollback(err.value) else Update)
    {
      if fails {
        err := Some(DbError);
        SetBidderPc(c, Rollback(DbError));
      } else {
        err := None;
        var b := bidders[c];
        var row := Bid(c, b.auction, b.user, Stored(b.amount), b.createdAt);
        bidders := bidders[c := b.(pc := Update, tx := b.tx.(inserted := b.tx.inserted + [row]))];
      }
      act := if fails then BidFail(c) else BidInsert(c);
    }

    /** Lines 238-266; a row that is still locked by another transaction makes the statement time out. */
    method RaisePrice(c: CallId, fails: bool)
      returns (err: Option<Outcome>, ghost act: Action)
      requires At(View(), c, Update) && bidders[c].tx.Open?
      modifies this
      ensures View() == Apply(old(View()), act)
      ensures fails || forall k :: SmoothStep(old(View()), act, c, k)
      ensures var b := old(bidders[c]);
              err == if fails then Some(DbError)
                     else if old(b.auction !in auctions || auctions[b.auction].currentPrice != b.expected) then
                       Some(TooLow)
                     else if b.auction in old(locks) then Some(LockTimeout) else None
      ensures At(View(), c, if err.Some? then Rollback(err.value) else Commit)
    {
      var b := bidders[c];
      var matches := b.auction in auctions && auctions[b.auction].currentPrice == b.expected;
      var timesOut := !fails && matches && b.auction in locks;
      err := None;
      if fails {
        err := Some(DbError);
      } else if timesOut {
        err := Some(LockTimeout);
      } else {
        var rowsAffected := 0;
        if matches {
          var row := auctions[b.auction].(currentPrice := Stored(b.amount));
          bidders := bidders[c := b.(tx := b.tx.(updated := Some(row)))];
          locks := locks[b.auction := c];
          rowsAffected := 1;
        }
        if rowsAffected == 0 { err := Some(TooLow); }
      }
      bidders := bidders[c := bidders[c].(pc := if err.Some? then Rollback(err.value) else Commit)];
      act := if fails then BidFail(c) else if timesOut then BidTimeout(c) else BidUpdate(c);
    }

    /** tx.Commit(): both pending writes become visible at once and the row lock is released. */
    method CommitWrites(c: CallId, acknowledged: bool) returns (r: Outcome, ghost act: Action)
      requires At(View(), c, Commit) && bidders[c].tx.Open? && bidders[c].tx.updated.Some?
      modifies this
      ensures View() == Apply(old(View()), act)
      ensures acknowledged ==> forall k :: SmoothStep(old(View()), act, c, k)
      ensures At(View(), c, Done(r)) && r == (if acknowledged then Placed else Unacknowledged)
    {
      var b := bidders[c];
      auctions := auctions[b.auction := b.tx.updated.value];
      bids := bids + b.tx.inserted;
      locks := locks - {b.auction};
      log := log + [Accepted(NewBid(c, b), b.amount, b.expected)];
      r := if acknowledged then Placed else Unacknowledged;
      bidders := bidders[c := b.(tx := Idle, pc := Done(r))];
      act := BidCommit(c, acknowledged);
    }

    /** tx.Commit() fails: the server has rolled the transaction back. */
    method FailCommit(c: CallId) returns (ghost act: Action)
      requires At(View(), c, Commit)
      modifies this
      ensures View() == Apply(old(View()), act)
      ensures At(View(), c, Rollback(DbError))
    {
      SetBidderPc(c, Rollback(DbError));
      act := BidFail(c);
    }

    /** tx.Rollback() fails: the caller is told so, and the server drops the transaction all the same. */
    method FailRollback(c: CallId, cause: Outcome) returns (ghost act: Action)
      requires At(View(), c, Rollback(cause))
      modifies this
      ensures View() == Apply(old(View()), act)
      ensures At(View(), c, Rollback(DbError))
    {
      SetBidderPc(c, Rollback(DbError));
      act := BidFail(c);
    }

    /** tx.Rollback(). */
    method DiscardWrites(c: CallId, cause: Outcome) returns (ghost act: Action)
      requires At(View(), c, Rollback(cause))
      modifies this
      ensures View() == Apply(old(View()), act)
      ensures forall k :: SmoothStep(old(View()), act, c, k)
      ensures At(View(), c, Done(cause))
    {
      var b := bidders[c];
      if b.auction in locks && locks[b.auction] == c { locks := locks - {b.auction}; }
      bidders := bidders[c := b.(tx := Idle, pc := Done(cause))];
      act := BidRollback(c);
    }

    /** The function `PlaceBidWithOCC` hands to `ExecuteTransaction`. */
    method PlaceBidInTx(c: CallId, ghost userKnown: bool, env: Environment)
      returns (err: Option<Outcome>, ghost steps: seq<Action>)
      requires Inv(View()) && At(View(), c, TxRead)
      requires Apart(env, c)
      modifies this
      ensures Inv(View()) && View() == Run(old(View()), steps)
      ensures At(View(), c, if err.Some? then Rollback(err.value) else Commit)
      ensures Undisturbed(env) ==> SmoothRun(old(View()), steps, c, userKnown)
      ensures err == Some(DbError) ==>
                (SelectPrice in env.broken || InsertBid in env.broken || UpdatePrice in env.broken)
      ensures err.None? ==> (SelectPrice !in env.broken && InsertBid !in env.broken && UpdatePrice !in env.broken)
      ensures err.Some? ==> IsTxError(err.value)
    {
      ghost var act;
      ghost var more;
      Yield(env.others(0), c);
      RowIsThere(View(), c);
      err, act := CheckPrice(c, SelectPrice in env.broken);
      steps := ExtendBid(old(View()), env.others(0), act, c, userKnown);
      if err.Some? { return; }
      err, more := InsertAndRaise(c, userKnown, env);
      steps := InterleaveBid(old(View()), steps, more, c, userKnown);
    }

    method InsertAndRaise(c: CallId, ghost userKnown: bool, env: Environment)
      returns (err: Option<Outcome>, ghost steps: seq<Action>)
      requires Inv(View()) && At(View(), c, Insert)
      requires Apart(env, c)
      modifies this
      ensures Inv(View()) && View() == Run(old(View()), steps)
      ensures At(View(), c, if err.Some? then Rollback(err.value) else Commit)
      ensures Undisturbed(env) ==> SmoothRun(old(View()), steps, c, userKnown)
      ensures err == Some(DbError) <==> (InsertBid in env.broken || UpdatePrice in env.broken)
      ensures err.Some? ==> IsTxError(err.value)
    {
      ghost var act;
      ghost var more;
      TxIsOpen(View(), c);
      Yield(env.others(1), c);
      err, act := InsertRow(c, InsertBid in env.broken);
      steps := ExtendBid(old(View()), env.others(1), act, c, userKnown);
      if err.Some? { return; }
      err, more := RaiseInTx(c, userKnown, env);
      steps := InterleaveBid(old(View()), steps, more, c, userKnown);
    }

    /** What the transaction makes of the update. */
    method TryRaise(c: CallId, fails: bool) returns (err: Option<Outcome>, ghost act: Action)
      requires At(View(), c, Update) && bidders[c].tx.Open?
      modifies this
      ensures View() == Apply(old(View()), act)
      ensures fails || forall k :: SmoothStep(old(View()), act, c, k)
      ensures At(View(), c, if err.Some? then Rollback(err.value) else Commit)
      ensures (err == Some(DbError) <==> fails) && (err.Some? ==> IsTxError(err.value))
    {
      err, act := RaisePrice(c, fails);
    }

    method RaiseInTx(c: CallId, ghost userKnown: bool, env: Environment)
      returns (err: Option<Outcome>, ghost steps: seq<Action>)
      requires Inv(View()) && At(View(), c, Update)
      requires Apart(env, c)
      modifies this
      ensures Inv(View()) && View() == Run(old(View()), steps)
      ensures At(View(), c, if err.Some? then Rollback(err.value) else Commit)
      ensures Undisturbed(env) ==> SmoothRun(old(View()), steps, c, userKnown)
      ensures err == Some(DbError) <==> UpdatePrice in env.broken
      ensures err.Some? ==> IsTxError(err.value)
    {
      ghost var act;
      TxIsOpen(View(), c);
      var rounds;
      rounds, steps := AwaitUpdate(c, env);
      err, act := TryRaise(c, UpdatePrice in env.broken);
      steps := ExtendBid(old(View()), steps, act, c, userKnown);
    }

    /** The update waits while its row is locked, and evaluates its condition again whenever others have run. */
    method AwaitUpdate(c: CallId, env: Environment) returns (rounds: nat, ghost steps: seq<Action>)
      requires Inv(View()) && At(View(), c, Update) && Apart(env, c)
      modifies this
      ensures Inv(View()) && View() == Run(old(View()), steps)
      ensures c in bidders && bidders[c] == old(bidders[c])
      ensures !Waits(View(), c) || rounds == env.patience
      ensures Undisturbed(env) ==> steps == []
      ensures steps == Rounds(env, rounds)
    {
      Yield(env.others(2), c);
      rounds := 0;
      while rounds < env.patience && Waits(View(), c)
        invariant rounds <= env.patience
        invariant Inv(View()) && View() == Run(old(View()), Rounds(env, rounds))
        invariant c in bidders && bidders[c] == old(bidders[c])
      {
        Yield(env.others(10 + rounds), c);
        NextRound(old(View()), env, rounds);
        rounds := rounds + 1;
      }
      steps := Rounds(env, rounds);
      if Undisturbed(env) { NoRounds(env, rounds); }
    }

    /** Lines 69-79 of connection.go: roll back if the function failed, commit if it did not. */
    method FinishTransaction(c: CallId, err: Option<Outcome>, ghost userKnown: bool, env: Environment)
      returns (r: Outcome, ghost steps: seq<Action>)
      requires Inv(View()) && At(View(), c, if err.Some? then Rollback(err.value) else Commit)
      requires Apart(env, c) && (err.Some? ==> IsTxError(err.value))
      modifies this
      ensures Inv(View()) && View() == Run(old(View()), steps)
      ensures At(View(), c, Done(r))
      ensures Undisturbed(env) ==> SmoothRun(old(View()), steps, c, userKnown)
      ensures r == DbError ==> err == Some(DbError) || (CommitTx in env.broken || RollbackTx in env.broken)
      ensures r == Placed <==> err.None? && (CommitTx !in env.broken && AckOfCommit !in env.broken)
      ensures r == Unacknowledged <==> err.None? && CommitTx !in env.broken && AckOfCommit in env.broken
      ensures IsCommitted(r) || IsTxError(r)
      ensures err.Some? || CommitTx in env.broken ==> (RollbackTx in env.broken ==> r == DbError)
      ensures err.Some? && RollbackTx !in env.broken ==> r == err.value
    {
      ghost var act;
      var failure := err;
      Yield(env.others(3), c);
      steps := env.others(3);
      if err.None? && CommitTx in env.broken {
        act := FailCommit(c);
        steps := ExtendBid(old(View()), steps, act, c, userKnown);
        failure := Some(DbError);
      }
      if failure.Some? && RollbackTx in env.broken {
        act := FailRollback(c, failure.value);
        steps := ExtendBid(old(View()), steps, act, c, userKnown);
        failure := Some(DbError);
      }
      if failure.Some? {
        act := DiscardWrites(c, failure.value);
        r := failure.value;
      } else {
        TxIsOpen(View(), c);
        r, act := CommitWrites(c, AckOfCommit !in env.broken);
      }
      steps := ExtendBid(old(View()), steps, act, c, userKnown);
    }

    method BeginLater(c: CallId, ghost userKnown: bool, env: Environment)
      returns (err: Option<Outcome>, ghost steps: seq<Action>)
      requires Inv(View()) && At(View(), c, Begin) && Apart(env, c)
      modifies this
      ensures Inv(View()) && View() == Run(old(View()), steps)
      ensures At(View(), c, if err.Some? then Done(err.value) else TxRead)
      ensures Undisturbed(env) ==> SmoothRun(old(View()), steps, c, userKnown)
      ensures err == if BeginTx in env.broken then Some(DbError) else None
    {
      ghost var act;
      Yield(env.others(6), c);
      err, act := BeginTransaction(c, BeginTx in env.broken);
      steps := ExtendBid(old(View()), env.others(6), act, c, userKnown);
    }

    /** `ExecuteTransaction`. */
    method ExecuteTransaction(c: CallId, ghost userKnown: bool, env: Environment)
      returns (r: Outcome, ghost steps: seq<Action>)
      requires Inv(View()) && At(View(), c, Begin)
      requires Apart(env, c)
      modifies this
      ensures Inv(View()) && View() == Run(old(View()), steps)
      ensures At(View(), c, Done(r))
      ensures Undisturbed(env) ==> SmoothRun(old(View()), steps, c, userKnown)
      ensures r == DbError ==>
                (BeginTx in env.broken || SelectPrice in env.broken || InsertBid in env.broken
                 || UpdatePrice in env.broken || CommitTx in env.broken || RollbackTx in env.broken)
      ensures IsCommitted(r) ==>
                (BeginTx !in env.broken && SelectPrice !in env.broken && InsertBid !in env.broken
                 && UpdatePrice !in env.broken && CommitTx !in env.broken)
      ensures IsCommitted(r) ==> (r == Unacknowledged <==> AckOfCommit in env.broken)
      ensures IsLateAnswer(r) && (SelectHighest !in env.broken ==> AnswersBroken(env, r))
      ensures IsCommitted(r) || IsTxError(r)
      ensures RollbackTx in env.broken ==> IsCommitted(r) || r == DbError
    {
      ghost var more;
      var err;
      err, steps := BeginLater(c, userKnown, env);
      if err.Some? { return err.value, steps; }
      err, more := PlaceBidInTx(c, userKnown, env);
      steps := InterleaveBid(old(View()), steps, more, c, userKnown);
      r, more := FinishTransaction(c, err, userKnown, env);
      steps := InterleaveBid(old(View()), steps, more, c, userKnown);
    }

    /**
     `PlaceBid`, preempted anywhere by any steps of other calls and with any statements failing: what it
     does is a run of the protocol, and what it answers is what became of the bid.
     */
    method PlaceBid(c: CallId, a: AuctionId, user: UserId, amount: real, subscribed: bool, userKnown: bool,
                    env: Environment)
      returns (r: Outcome, ghost steps: seq<Action>)
      requires Inv(View()) && c !in bidders
      requires Apart(env, c)
      modifies this
      ensures Inv(View()) && View() == Run(old(View()), steps) && old(bids) <= bids
      ensures !subscribed ==> r == NotSubscribed && View() == old(View())
      ensures subscribed ==> At(View(), c, Done(r))
      ensures subscribed ==> RowsOf(bids, c) == if r == Placed || r == Unacknowledged then 1 else 0
      ensures Undisturbed(env) && subscribed && a !in old(locks) ==>
                r == Verdict(old(View()), a, amount, userKnown)
      ensures r == Placed ==>
                exists b <- bids ::
                  && b.id == c && b.auction == a && b.user == user
                  && b.amount as real - 0.5 <= amount < b.amount as real + 0.5
      // what any answer says about the tables, and about the statements that failed
      ensures subscribed && old(LogIsListed(View())) ==> IsJustified(View(), c, bidders[c], r)
      ensures r == DbError ==>
                (SelectHighest in env.broken || BeginTx in env.broken || SelectPrice in env.broken
                 || InsertBid in env.broken || UpdatePrice in env.broken || CommitTx in env.broken
                 || RollbackTx in env.broken)
      ensures IsCommitted(r) ==>
                && (SelectAuction !in env.broken && SelectHighest !in env.broken && BeginTx !in env.broken
                    && SelectPrice !in env.broken && InsertBid !in env.broken && UpdatePrice !in env.broken
                    && CommitTx !in env.broken)
                && (r == Unacknowledged <==> AckOfCommit in env.broken)
      ensures r == NotFound ==> SelectAuction in env.broken || a !in old(auctions)
      ensures (r == UnknownUser ==> !userKnown) && (IsCommitted(r) ==> userKnown)
    {
      if !subscribed {
        r, steps := NotSubscribed, [];
        return;
      }
      bidders := bidders[c := Bidder(a, user, amount, 0, 0, 0, 0, 0, Idle, ReadAuction)];
      steps := Extend(old(View()), [], StartBid(c, a, user, amount));
      ghost var more;
      r, more := PlaceStartedBid(c, a, userKnown, env);
      steps := Interleave(old(View()), steps, more);
      BidIsRecorded(old(View()), StartBid(c, a, user, amount), more, r);
      if LogIsListed(old(View())) { BidIsHonest(old(View()), StartBid(c, a, user, amount), more, r); }
      if Undisturbed(env) && a !in old(locks) {
        BidIsJudged(old(View()), StartBid(c, a, user, amount), more, r, userKnown);
      }
    }

    method PlaceStartedBid(c: CallId, ghost a: AuctionId, userKnown: bool, env: Environment)
      returns (r: Outcome, ghost steps: seq<Action>)
      requires Inv(View()) && At(View(), c, ReadAuction) && bidders[c].auction == a
      requires Apart(env, c)
      modifies this
      ensures Inv(View()) && View() == Run(old(View()), steps)
      ensures At(View(), c, Done(r))
      ensures Undisturbed(env) ==> SmoothRun(old(View()), steps, c, userKnown)
      ensures AnswersBroken(env, r)
      ensures IsCommitted(r) ==> SelectAuction !in env.broken && userKnown
      ensures r == NotFound ==> SelectAuction in env.broken || a !in old(auctions)
      ensures r == UnknownUser ==> !userKnown
    {
      ghost var more;
      var err;
      err, steps := FirstRead(c, a, userKnown, env);
      if err.Some? {
        r := err.value;
      } else {
        r, more := PlaceCheckedBid(c, userKnown, env);
        steps := InterleaveBid(old(View()), steps, more, c, userKnown);
      }
    }

    /** The first read, and what its refusal tells. */
    method TryAuction(c: CallId, userKnown: bool, env: Environment) returns (err: Option<Outcome>, ghost act: Action)
      requires At(View(), c, ReadAuction)
      modifies this
      ensures View() == Apply(old(View()), act)
      ensures SelectAuction in env.broken || SmoothStep(old(View()), act, c, userKnown)
      ensures At(View(), c, if err.Some? then Done(err.value) else ReadHighest)
      ensures err.None? ==> SelectAuction !in env.broken && userKnown
      ensures err.Some? ==> AnswersBroken(env, err.value) && !IsCommitted(err.value)
      ensures err == Some(UnknownUser) ==> !userKnown
      ensures err == Some(NotFound) ==> SelectAuction in env.broken || old(bidders[c].auction !in auctions)
    {
      err, act := ReadAuctionForBid(c, userKnown, SelectAuction in env.broken);
    }

    /** The second one. */
    method TryHighest(c: CallId, ghost userKnown: bool, env: Environment)
      returns (err: Option<Outcome>, ghost act: Action)
      requires At(View(), c, ReadHighest)
      modifies this
      ensures View() == Apply(old(View()), act)
      ensures SelectHighest in env.broken || SmoothStep(old(View()), act, c, userKnown)
      ensures At(View(), c, if err.Some? then Done(err.value) else Begin)
      ensures err == Some(DbError) <==> SelectHighest in env.broken
      ensures err.Some? ==> AnswersBroken(env, err.value) && IsLateAnswer(err.value)
    {
      err, act := ReadHighestForBid(c, SelectHighest in env.broken);
    }

    method FirstRead(c: CallId, ghost a: AuctionId, userKnown: bool, env: Environment)
      returns (err: Option<Outcome>, ghost steps: seq<Action>)
      requires Inv(View()) && At(View(), c, ReadAuction) && bidders[c].auction == a && Apart(env, c)
      modifies this
      ensures Inv(View()) && View() == Run(old(View()), steps)
      ensures At(View(), c, if err.Some? then Done(err.value) else ReadHighest)
      ensures Undisturbed(env) ==> SmoothRun(old(View()), steps, c, userKnown)
      ensures err.None? ==> SelectAuction !in env.broken && userKnown
      ensures err.Some? ==> AnswersBroken(env, err.value) && !IsCommitted(err.value)
      ensures err == Some(UnknownUser) ==> !userKnown
      ensures err == Some(NotFound) ==> SelectAuction in env.broken || a !in old(auctions)
    {
      ghost var act;
      Yield(env.others(4), c);
      err, act := TryAuction(c, userKnown, env);
      steps := ExtendBid(old(View()), env.others(4), act, c, userKnown);
    }

    method SecondRead(c: CallId, ghost userKnown: bool, env: Environment)
      returns (err: Option<Outcome>, ghost steps: seq<Action>)
      requires Inv(View()) && At(View(), c, ReadHighest) && Apart(env, c)
      modifies this
      ensures Inv(View()) && View() == Run(old(View()), steps)
      ensures At(View(), c, if err.Some? then Done(err.value) else Begin)
      ensures Undisturbed(env) ==> SmoothRun(old(View()), steps, c, userKnown)
      ensures err == Some(DbError) <==> SelectHighest in env.broken
      ensures err.Some? ==> AnswersBroken(env, err.value) && IsLateAnswer(err.value)
    {
      ghost var act;
      Yield(env.others(5), c);
      err, act := TryHighest(c, userKnown, env);
      steps := ExtendBid(old(View()), env.others(5), act, c, userKnown);
    }

    method PlaceCheckedBid(c: CallId, ghost userKnown: bool, env: Environment)
      returns (r: Outcome, ghost steps: seq<Action>)
      requires Inv(View()) && At(View(), c, ReadHighest)
      requires Apart(env, c)
      modifies this
      ensures Inv(View()) && View() == Run(old(View()), steps)
      ensures At(View(), c, Done(r))
      ensures Undisturbed(env) ==> SmoothRun(old(View()), steps, c, userKnown)
      ensures AnswersBroken(env, r)
      ensures IsLateAnswer(r)
    {
      ghost var more;
      var err;
      err, steps := SecondRead(c, userKnown, env);
      if err.Some? {
        r := err.value;
      } else {
        r, more := ExecuteTransaction(c, userKnown, env);
        steps := InterleaveBid(old(View()), steps, more, c, userKnown);
      }
    }

    method SetEnderPc(c: CallId, pc: EnderPc)
      requires c in enders
      modifies this`enders
      ensures enders == old(enders)[c := old(enders)[c].(pc := pc)]
    {
      enders := enders[c := enders[c].(pc := pc)];
    }

    /** Lines 225-236 of auction.go. */
    method ReadForEnd(c: CallId, fails: bool) returns (auction: Option<AuctionRow>, ghost act: Action)
      requires c in enders && enders[c].pc == EndRead
      modifies this`enders
      ensures View() == Apply(old(View()), act)
      ensures c in enders && enders[c].auction == old(enders[c].auction)
      ensures enders[c].pc == if auction.Some? then EndHighest(auction.value) else EndDone(false)
      ensures var a := enders[c].auction;
              auction == if fails || a !in auctions || auctions[a].IsEnded() then None
                         else Some(auctions[a].(status := Ended))
    {
      act := if fails then EndFail(c) else EndReadAuction(c);
      auction := GetByID(enders[c].auction);
      if fails || auction.None? || auction.value.IsEnded() {
        auction := None;
        SetEnderPc(c, EndDone(false));
      } else {
        auction := Some(auction.value.(status := Ended));
        SetEnderPc(c, EndHighest(auction.value));
      }
    }

    /** Lines 238-263: an error of this read is only logged. */
    method HighestForEnd(c: CallId, auction: AuctionRow, fails: bool)
      returns (result: EndReply, ghost read: HighestRead, ghost act: Action)
      requires c in enders && enders[c].pc == EndHighest(auction)
      modifies this`enders
      ensures View() == Apply(old(View()), act)
      ensures c in enders && enders[c] == old(enders[c]).(pc := EndStore(auction, read))
      ensures result == Announcement(read)
      ensures Answers(bids, old(enders[c].auction), read) && (read.Unread? <==> fails)
    {
      var highest := GetHighestBid(enders[c].auction);
      if fails { highest := Unread; }
      read := highest;
      act := EndReadHighest(c, read);
      result := AuctionEnded(None, None);
      if highest.Found? { result := AuctionEnded(Some(highest.bid.user), Some(highest.bid.amount)); }
      SetEnderPc(c, EndStore(auction, highest));
    }

    /** `AuctionRepository.Update`; a row that is still locked makes it time out; `false` is any error it returns. */
    method Store(c: CallId, fails: bool, acknowledged: bool) returns (ok: bool, ghost act: Action)
      requires c in enders && enders[c].pc.EndStore?
      modifies this
      ensures View() == Apply(old(View()), act)
      ensures enders == old(enders)[c := old(enders[c]).(pc := EndDone(ok))] && locks == old(locks)
      ensures ok ==> var e := old(enders[c]); log == old(log) + [Closed(e.auction, e.pc.row, e.pc.read)]
      ensures var written := !fails && old(enders[c].auction in auctions && enders[c].auction !in locks);
              && (ok <==> written && acknowledged)
              && auctions == if written then old(auctions[enders[c].auction := enders[c].pc.row]) else old(auctions)
    {
      var e := enders[c];
      if fails || e.auction !in auctions || e.auction in locks {
        act := EndFail(c);
        ok := false;
        SetEnderPc(c, EndDone(false));
      } else {
        act := EndWrite(c, acknowledged);
        auctions := auctions[e.auction := e.pc.row];
        log := log + [Closed(e.auction, e.pc.row, e.pc.read)];
        ok := acknowledged;
        SetEnderPc(c, EndDone(acknowledged));
      }
    }

    /**
     `endAuctionWithResult`, preempted anywhere: what it announces is what it read, never less than the
     price it wrote, and the auction has ended.
     */
    method EndAuctionWithResult(c: CallId, a: AuctionId, env: Environment)
      returns (result: EndReply, ghost steps: seq<Action>)
      requires Inv(View()) && c !in enders
      requires Apart(env, c)
      modifies this
      ensures Inv(View()) && View() == Run(old(View()), steps)
      ensures c in enders && (result == EndRefused <==> enders[c].pc == EndDone(false))
      ensures result != EndRefused ==>
                enders[c].pc == EndDone(true) && Announced(View(), |old(log)|, a, result, SelectHighest in env.broken)
      ensures result != EndRefused && SelectHighest in env.broken ==> result == AuctionEnded(None, None)
      ensures result == EndRefused ==>
                || a !in old(auctions) || old(auctions)[a].IsEnded() || SelectAuction in env.broken
                || UpdatePrice in env.broken || AckOfCommit in env.broken || a in locks
      ensures Undisturbed(env) && a !in old(locks) ==> EndedAlone(old(View()), View(), a, result)
    {
      ghost var more;
      var auction;
      auction, steps := StartEnding(c, a, SelectAuction in env.broken);
      if auction.None? { return EndRefused, steps; }
      result, more := FinishEnding(c, a, auction.value, env);
      steps := Interleave(old(View()), steps, more);
    }

    method EnterEnding(c: CallId, a: AuctionId) returns (ghost act: Action)
      requires c !in enders
      modifies this`enders
      ensures View() == Apply(old(View()), act)
      ensures enders == old(enders)[c := Ender(a, EndRead)]
    {
      enders := enders[c := Ender(a, EndRead)];
      act := StartEnd(c, a);
    }

    method StartEnding(c: CallId, a: AuctionId, fails: bool)
      returns (auction: Option<AuctionRow>, ghost steps: seq<Action>)
      requires Inv(View()) && c !in enders
      modifies this
      ensures Inv(View()) && View() == Run(old(View()), steps) && log == old(log)
      ensures c in enders && enders[c] == Ender(a, if auction.Some? then EndHighest(auction.value) else EndDone(false))
      ensures auction == if fails || a !in auctions || auctions[a].IsEnded() then None
                         else Some(auctions[a].(status := Ended))
      ensures auctions == old(auctions) && bids == old(bids) && locks == old(locks)
    {
      ghost var act;
      act := EnterEnding(c, a);
      steps := Extend(old(View()), [], act);
      auction, act := ReadForEnd(c, fails);
      steps := Extend(old(View()), steps, act);
    }

    method FinishEnding(c: CallId, a: AuctionId, auction: AuctionRow, env: Environment)
      returns (result: EndReply, ghost steps: seq<Action>)
      requires Inv(View()) && c in enders && enders[c] == Ender(a, EndHighest(auction))
      requires Apart(env, c)
      modifies this
      ensures Inv(View()) && View() == Run(old(View()), steps)
      ensures c in enders && (result == EndRefused <==> enders[c].pc == EndDone(false))
      ensures result != EndRefused ==>
                enders[c].pc == EndDone(true) && Announced(View(), |old(log)|, a, result, SelectHighest in env.broken)
      ensures result != EndRefused && SelectHighest in env.broken ==> result == AuctionEnded(None, None)
      ensures result == EndRefused ==> UpdatePrice in env.broken || AckOfCommit in env.broken || a in locks
      ensures Undisturbed(env) && old(a in auctions && a !in locks) ==>
                WrittenAlone(old(View()), View(), a, auction, result)
    {
      ghost var act;
      ghost var read;
      Yield(env.others(1), c);
      assert |old(log)| <= |log|;
      result, read, act := HighestForEnd(c, auction, SelectHighest in env.broken);
      steps := Extend(old(View()), env.others(1), act);
      ghost var more;
      var ok;
      ok, more := StoreEnding(c, a, auction, read, |old(log)|, env);
      steps := Interleave(old(View()), steps, more);
      if !ok { result := EndRefused; }
    }

    method StoreEnding(c: CallId, a: AuctionId, auction: AuctionRow, ghost read: HighestRead, ghost k: nat,
                       env: Environment)
      returns (ok: bool, ghost steps: seq<Action>)
      requires Inv(View()) && c in enders && enders[c] == Ender(a, EndStore(auction, read))
      requires Apart(env, c) && k <= |log|
      modifies this
      ensures Inv(View()) && View() == Run(old(View()), steps)
      ensures c in enders && enders[c].pc == EndDone(ok)
      ensures ok ==> Announced(View(), k, a, Announcement(read), read.Unread?)
      ensures !ok ==> UpdatePrice in env.broken || AckOfCommit in env.broken || a in locks
      ensures Undisturbed(env) && old(a in auctions && a !in locks) ==>
                ok && auctions == old(auctions)[a := auction]
    {
      ghost var act;
      var rounds;
      rounds, steps := AwaitStore(c, env);
      RowIsThereToEnd(View(), c);
      ok, act := Store(c, UpdatePrice in env.broken, AckOfCommit !in env.broken);
      steps := Extend(old(View()), steps, act);
      if ok { AnnouncedAt(View(), k, a, auction, read); }
    }

    /** The write waits while its row is locked. */
    method AwaitStore(c: CallId, env: Environment) returns (rounds: nat, ghost steps: seq<Action>)
      requires Inv(View()) && c in enders && enders[c].pc.EndStore? && Apart(env, c)
      modifies this
      ensures Inv(View()) && View() == Run(old(View()), steps) && old(log) <= log
      ensures c in enders && enders[c] == old(enders[c])
      ensures enders[c].auction !in locks || rounds == env.patience
      ensures Undisturbed(env) ==> steps == []
      ensures steps == Rounds(env, rounds)
    {
      Yield(env.others(2), c);
      rounds := 0;
      while rounds < env.patience && enders[c].auction in locks
        invariant rounds <= env.patience
        invariant Inv(View()) && View() == Run(old(View()), Rounds(env, rounds)) && old(log) <= log
        invariant c in enders && enders[c] == old(enders[c])
      {
        Yield(env.others(10 + rounds), c);
        NextRound(old(View()), env, rounds);
        rounds := rounds + 1;
      }
      steps := Rounds(env, rounds);
      if Undisturbed(env) { NoRounds(env, rounds); }
    }
  }

  /** A row was written, and the highest bid announced. */
  ghost predicate WrittenAlone(s: State, t: State, a: AuctionId, row: AuctionRow, result: EndReply) {
    && t.auctions == s.auctions[a := row]
    && exists read :: Answers(s.bids, a, read) && !read.Unread? && result == Announcement(read)
  }

  /**
   An end that nothing disturbs is refused if there is nothing to end; else it keeps the price and
   names the highest bid.
   */
  ghost predicate EndedAlone(s: State, t: State, a: AuctionId, result: EndReply) {
    if a !in s.auctions || s.auctions[a].IsEnded() then result == EndRefused && t.auctions == s.auctions
    else WrittenAlone(s, t, a, s.auctions[a].(status := Ended), result)
  }

  /**
   The latest commit, at or after position `k` of the log, is the end of `a` that `result` tells of: the row is
   the one it wrote, and what is announced is not below it. `unread` is whether the highest bid could not be read.
   */
  ghost predicate Announced(s: State, k: nat, a: AuctionId, result: EndReply, unread: bool) {
    exists row, read ::
      && k < |s.log| && s.log[|s.log| - 1] == Closed(a, row, read)
      && a in s.auctions && s.auctions[a] == row && row.IsEnded()
      && result == Announcement(read) && (read.Unread? <==> unread)
      && (result.AuctionEnded? && result.finalPrice.Some? ==> row.currentPrice <= result.finalPrice.value)
  }

  lemma AnnouncedAt(s: State, k: nat, a: AuctionId, row: AuctionRow, read: HighestRead)
    requires Inv(s) && k < |s.log| && s.log[|s.log| - 1] == Closed(a, row, read)
    requires a in s.auctions && s.auctions[a] == row
    ensures Announced(s, k, a, Announcement(read), read.Unread?)
  {
    assert ClosedOk(s, s.log[|s.log| - 1]);
  }

  /** One more step of a run. */
  lemma Extend(s: State, acts: seq<Action>, act: Action) returns (longer: seq<Action>)
    requires Inv(s)
    ensures Run(s, longer) == Apply(Run(s, acts), act) && Inv(Run(s, longer))
    ensures longer == acts + [act]
  {
    longer := acts + [act];
    RunSnoc(s, acts, act);
    RunKeepsInv(s, longer);
  }

  lemma Interleave(s: State, acts: seq<Action>, more: seq<Action>) returns (longer: seq<Action>)
    ensures Run(s, longer) == Run(Run(s, acts), more)
    ensures longer == acts + more
  {
    longer := acts + more;
    RunConcat(s, acts, more);
  }

  /** The same for the steps of a bid. */
  lemma ExtendBid(s: State, acts: seq<Action>, act: Action, c: CallId, userKnown: bool)
    returns (longer: seq<Action>)
    requires Inv(s)
    ensures Run(s, longer) == Apply(Run(s, acts), act) && Inv(Run(s, longer))
    ensures SmoothRun(s, acts, c, userKnown) && SmoothStep(Run(s, acts), act, c, userKnown)
            ==> SmoothRun(s, longer, c, userKnown)
  {
    longer := Extend(s, acts, act);
    if SmoothRun(s, acts, c, userKnown) && SmoothStep(Run(s, acts), act, c, userKnown) {
      SmoothSnoc(s, acts, act, c, userKnown);
    }
  }

  lemma InterleaveBid(s: State, acts: seq<Action>, more: seq<Action>, c: CallId, userKnown: bool)
    returns (longer: seq<Action>)
    ensures Run(s, longer) == Run(Run(s, acts), more)
    ensures SmoothRun(s, acts, c, userKnown) && SmoothRun(Run(s, acts), more, c, userKnown)
            ==> SmoothRun(s, longer, c, userKnown)
  {
    longer := Interleave(s, acts, more);
    if SmoothRun(s, acts, c, userKnown) && SmoothRun(Run(s, acts), more, c, userKnown) {
      SmoothConcat(s, acts, more, c, userKnown);
    }
  }
}
