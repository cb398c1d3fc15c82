/** How many active auctions an item can have, and how long an expired auction can wait. */
module LifecycleBounds {
  import opened Collections
  import opened Domain
  import opened Lifecycle

  // ---------------------------------------------------------------- active auctions per item

  /** The `CreateAuction` calls for `item` that have started and not returned. */
  function InFlight(s: State, item: ItemId): set<CallId> {
    set c | c in s.creators && s.creators[c].item == item && s.creators[c].pc != Returned
  }

  /** Those that found no active auction and have not inserted theirs yet. */
  function PastItemCheck(s: State, item: ItemId): set<CallId> {
    set c | c in s.creators && s.creators[c].item == item && s.creators[c].pc == Insert
  }

  /** At no moment of the run are more than `k` creations for `item` in flight. */
  predicate OverlapWithin(acts: seq<Action>, item: ItemId, k: nat) {
    forall i :: 0 <= i <= |acts| ==> |InFlight(Run(INIT, acts[..i]), item)| <= k
  }

  lemma InsertionMovesOne(s: State, c: CallId, acknowledged: bool, item: ItemId)
    requires Inv(s) && CreatorAt(s, c, Insert)
    ensures var t := Apply(s, InsertListing(c, acknowledged));
            |Live(t, item)| + |PastItemCheck(t, item)| == |Live(s, item)| + |PastItemCheck(s, item)|
  {
    InsertionAddsListing(s, c, acknowledged, item);
    InsertionLeavesCheck(s, c, acknowledged, item);
  }

  lemma InsertionAddsListing(s: State, c: CallId, acknowledged: bool, item: ItemId)
    requires Inv(s) && CreatorAt(s, c, Insert)
    ensures var t := Apply(s, InsertListing(c, acknowledged));
            |Live(t, item)| == |Live(s, item)| + if s.creators[c].item == item then 1 else 0
  {
    var t := Apply(s, InsertListing(c, acknowledged));
    var r := s.creators[c];
    assert CreatorOk(s, c);
    assert t.listings == s.listings[r.auction := Listing(r.item, r.endTime, true)];
    if r.item == item {
      assert r.auction !in Live(s, item);
      assert Live(t, item) == Live(s, item) + {r.auction};
    } else {
      assert Live(t, item) == Live(s, item);
    }
  }

  lemma InsertionLeavesCheck(s: State, c: CallId, acknowledged: bool, item: ItemId)
    requires CreatorAt(s, c, Insert)
    ensures var t := Apply(s, InsertListing(c, acknowledged));
            |PastItemCheck(t, item)| == |PastItemCheck(s, item)| - if s.creators[c].item == item then 1 else 0
  {
    var t := Apply(s, InsertListing(c, acknowledged));
    if s.creators[c].item == item {
      assert PastItemCheck(t, item) == PastItemCheck(s, item) - {c};
    } else {
      assert PastItemCheck(t, item) == PastItemCheck(s, item);
    }
  }

  /** No step but a passed check adds to the count, and a passed check starts from no active auction. */
  lemma CountStep(s: State, act: Action, item: ItemId)
    requires Inv(s)
    ensures var t := Apply(s, act);
            || |Live(t, item)| + |PastItemCheck(t, item)| <= |Live(s, item)| + |PastItemCheck(s, item)|
            || (Live(t, item) == {} && PastItemCheck(t, item) <= InFlight(t, item))
  {
    var t := Apply(s, act);
    if act.InsertListing? {
      if CreatorAt(s, act.c, Insert) { InsertionMovesOne(s, act.c, act.acknowledged, item); }
    } else {
      LiveOnlyShrinks(s, act, item);
      CardinalityOfSubset(Live(t, item), Live(s, item));
      if PastItemCheck(t, item) <= PastItemCheck(s, item) {
        CardinalityOfSubset(PastItemCheck(t, item), PastItemCheck(s, item));
      }
    }
  }

  lemma LiveOnlyShrinks(s: State, act: Action, item: ItemId)
    requires !act.InsertListing?
    ensures var t := Apply(s, act);
            && Live(t, item) <= Live(s, item)
            && (PastItemCheck(t, item) <= PastItemCheck(s, item) || Live(t, item) == {})
  {
  }

  /** With at most `k` overlapping creations, an item never has more than `k` active auctions. */
  lemma {:induction false} ActiveWithinOverlap(acts: seq<Action>, item: ItemId, k: nat)
    requires OverlapWithin(acts, item, k)
    ensures var s := Run(INIT, acts); |Live(s, item)| + |PastItemCheck(s, item)| <= k
  {
    if acts != [] {
      var init := acts[..|acts| - 1];
      forall i | 0 <= i <= |init| ensures init[..i] == acts[..i] { }
      ActiveWithinOverlap(init, item, k);
      RunKeepsInv(INIT, init);
      CountStep(Run(INIT, init), acts[|acts| - 1], item);
      var t := Run(INIT, acts);
      if PastItemCheck(t, item) <= InFlight(t, item) {
        CardinalityOfSubset(PastItemCheck(t, item), InFlight(t, item));
      }
      assert acts[..|acts|] == acts;
    }
  }

  // What the creations past their check can still do.

  predicate NobodyChecks(acts: seq<Action>) { forall act <- acts :: !act.CheckItem? }

  /** Without another creation passing the check, `item` can get `n` active auctions. */
  ghost predicate CanHaveActive(s: State, item: ItemId, n: nat) {
    exists acts :: NobodyChecks(acts) && |Live(Run(s, acts), item)| >= n
  }

  lemma NoNewcomer(s: State, act: Action, item: ItemId)
    requires Inv(s) && !act.CheckItem?
    ensures var t := Apply(s, act);
            |Live(t, item)| + |PastItemCheck(t, item)| <= |Live(s, item)| + |PastItemCheck(s, item)|
  {
    if act.InsertListing? {
      if CreatorAt(s, act.c, Insert) { InsertionMovesOne(s, act.c, act.acknowledged, item); }
    } else {
      LiveOnlyShrinks(s, act, item);
      OnlyChecksAdd(s, act, item);
      CardinalityOfSubset(Live(Apply(s, act), item), Live(s, item));
      CardinalityOfSubset(PastItemCheck(Apply(s, act), item), PastItemCheck(s, item));
    }
  }

  lemma OnlyChecksAdd(s: State, act: Action, item: ItemId)
    requires !act.CheckItem?
    ensures PastItemCheck(Apply(s, act), item) <= PastItemCheck(s, item)
  {
  }

  lemma {:induction false} NoNewcomers(s: State, acts: seq<Action>, item: ItemId)
    requires Inv(s) && NobodyChecks(acts)
    ensures var t := Run(s, acts);
            |Live(t, item)| + |PastItemCheck(t, item)| <= |Live(s, item)| + |PastItemCheck(s, item)|
  {
    if acts != [] {
      NoNewcomers(s, acts[..|acts| - 1], item);
      RunKeepsInv(s, acts[..|acts| - 1]);
      NoNewcomer(Run(s, acts[..|acts| - 1]), acts[|acts| - 1], item);
    }
  }

  lemma {:induction false} AllInsert(s: State, item: ItemId) returns (acts: seq<Action>)
    requires Inv(s)
    ensures forall act <- acts :: act.InsertListing?
    ensures |Live(Run(s, acts), item)| == |Live(s, item)| + |PastItemCheck(s, item)|
    decreases |PastItemCheck(s, item)|
  {
    if PastItemCheck(s, item) == {} {
      acts := [];
    } else {
      var c :| c in PastItemCheck(s, item);
      var t := Apply(s, InsertListing(c, true));
      InsertionMovesOne(s, c, true, item);
      InsertionLeavesCheck(s, c, true, item);
      InsertStep(s, c, true);
      var more := AllInsert(t, item);
      assert [InsertListing(c, true)][..0] == [];
      assert Run(s, [InsertListing(c, true)]) == t;
      RunConcat(s, [InsertListing(c, true)], more);
      acts := [InsertListing(c, true)] + more;
    }
  }

  /** They can leave an item with `n` active auctions if and only if they and the active ones make up `n`. */
  lemma ActiveReachableIff(s: State, item: ItemId, n: nat)
    requires Inv(s)
    ensures CanHaveActive(s, item, n) <==> |Live(s, item)| + |PastItemCheck(s, item)| >= n
  {
    if acts :| NobodyChecks(acts) && |Live(Run(s, acts), item)| >= n {
      NoNewcomers(s, acts, item);
    }
    if |Live(s, item)| + |PastItemCheck(s, item)| >= n {
      var acts := AllInsert(s, item);
    }
  }

  // The bound is met: `n` creations that all check before the first one inserts.

  /** The creations for `item` that have not checked yet. */
  function BeforeItemCheck(s: State, item: ItemId): set<CallId> {
    set c | c in s.creators && s.creators[c].item == item && s.creators[c].pc == Check
  }

  /** `n` calls have started, for auctions of their own. */
  predicate Started(s: State, n: nat) {
    && s.now == 0 && s.listings == map[]
    && forall c <- s.creators :: c < n && s.creators[c].auction < n
  }

  lemma {:induction false} StartMany(n: nat) returns (acts: seq<Action>)
    ensures Started(Run(INIT, acts), n) && |BeforeItemCheck(Run(INIT, acts), 0)| == n
    ensures forall act <- acts :: act.StartCreate? && act.c < n
  {
    if n == 0 {
      acts := [];
    } else {
      var before := StartMany(n - 1);
      acts := before + [StartCreate(n - 1, n - 1, 0, 0, 0)];
      RunSnoc(INIT, before, StartCreate(n - 1, n - 1, 0, 0, 0));
      StartOne(Run(INIT, before), n - 1);
    }
  }

  lemma StartOne(s: State, n: nat)
    requires Started(s, n)
    ensures var t := Apply(s, StartCreate(n, n, 0, 0, 0));
            Started(t, n + 1) && |BeforeItemCheck(t, 0)| == |BeforeItemCheck(s, 0)| + 1
  {
    var t := Apply(s, StartCreate(n, n, 0, 0, 0));
    assert !Taken(s, n);
    assert t.creators == s.creators[n := Creator(0, n, 0, Check)];
    assert BeforeItemCheck(t, 0) == BeforeItemCheck(s, 0) + {n};
  }

  lemma {:induction false} AllCheck(s: State, item: ItemId) returns (acts: seq<Action>)
    requires Live(s, item) == {}
    ensures forall act <- acts :: act.CheckItem?
    ensures |PastItemCheck(Run(s, acts), item)| == |PastItemCheck(s, item)| + |BeforeItemCheck(s, item)|
    decreases |BeforeItemCheck(s, item)|
  {
    if BeforeItemCheck(s, item) == {} {
      acts := [];
    } else {
      var c :| c in BeforeItemCheck(s, item);
      CheckOne(s, c, item);
      var more := AllCheck(Apply(s, CheckItem(c)), item);
      assert [CheckItem(c)][..0] == [];
      assert Run(s, [CheckItem(c)]) == Apply(s, CheckItem(c));
      RunConcat(s, [CheckItem(c)], more);
      acts := [CheckItem(c)] + more;
    }
  }

  lemma CheckOne(s: State, c: CallId, item: ItemId)
    requires Live(s, item) == {} && c in BeforeItemCheck(s, item)
    ensures var t := Apply(s, CheckItem(c));
            && Live(t, item) == {}
            && |BeforeItemCheck(t, item)| == |BeforeItemCheck(s, item)| - 1
            && |PastItemCheck(t, item)| == |PastItemCheck(s, item)| + 1
  {
    assert Apply(s, CheckItem(c)) == Goto(s, c, CreatorPc.Insert);
    OneChecked(s, c, item);
  }

  lemma OneChecked(s: State, c: CallId, item: ItemId)
    requires c in BeforeItemCheck(s, item)
    ensures var t := Goto(s, c, CreatorPc.Insert);
            && Live(t, item) == Live(s, item)
            && |BeforeItemCheck(t, item)| == |BeforeItemCheck(s, item)| - 1
            && |PastItemCheck(t, item)| == |PastItemCheck(s, item)| + 1
  {
    var t := Goto(s, c, CreatorPc.Insert);
    assert BeforeItemCheck(t, item) == BeforeItemCheck(s, item) - {c};
    assert PastItemCheck(t, item) == PastItemCheck(s, item) + {c};
  }

  /** `n` overlapping creations can leave one item with `n` active auctions. */
  lemma OverlapIsReached(n: nat) returns (acts: seq<Action>)
    ensures |Live(Run(INIT, acts), 0)| == n
    ensures OverlapWithin(acts, 0, n)
  {
    var starts := StartMany(n);
    var s := Run(INIT, starts);
    assert Live(s, 0) == {};
    var checks := AllCheck(s, 0);
    RunConcat(INIT, starts, checks);
    RunKeepsInv(INIT, starts + checks);
    var inserts := AllInsert(Run(s, checks), 0);
    RunConcat(INIT, starts + checks, inserts);
    acts := starts + checks + inserts;
    CallersStay(acts, n);
    ActiveWithinOverlap(acts, 0, n);
  }

  function FirstN(n: nat): (r: set<nat>)
    ensures forall c: nat :: c in r <==> c < n
    ensures |r| == n
  {
    if n == 0 then {} else FirstN(n - 1) + {n - 1}
  }

  lemma CallersStay(acts: seq<Action>, n: nat)
    requires forall act <- acts :: act.StartCreate? ==> act.c < n
    ensures OverlapWithin(acts, 0, n)
  {
    forall i | 0 <= i <= |acts| ensures |InFlight(Run(INIT, acts[..i]), 0)| <= n {
      CallersAmong(acts[..i], n);
      CardinalityOfSubset(InFlight(Run(INIT, acts[..i]), 0), FirstN(n));
    }
  }

  lemma {:induction false} CallersAmong(acts: seq<Action>, n: nat)
    requires forall act <- acts :: act.StartCreate? ==> act.c < n
    ensures Run(INIT, acts).creators.Keys <= FirstN(n)
  {
    if acts != [] {
      CallersAmong(acts[..|acts| - 1], n);
      NewCallersStart(Run(INIT, acts[..|acts| - 1]), acts[|acts| - 1], n);
    }
  }

  lemma NewCallersStart(s: State, act: Action, n: nat)
    requires s.creators.Keys <= FirstN(n) && (act.StartCreate? ==> act.c < n)
    ensures Apply(s, act).creators.Keys <= FirstN(n)
  {
  }

  /** An overlap of at most `k` guarantees "only one active auction per item" exactly if `k` is at most one. */
  lemma OneActivePerItemIff(k: nat)
    ensures (forall acts, item :: OverlapWithin(acts, item, k) ==> |Live(Run(INIT, acts), item)| <= 1) <==> k <= 1
  {
    if k <= 1 {
      forall acts, item | OverlapWithin(acts, item, k) ensures |Live(Run(INIT, acts), item)| <= 1 {
        ActiveWithinOverlap(acts, item, k);
      }
    } else {
      var acts := OverlapIsReached(k);
      assert OverlapWithin(acts, 0, k) && |Live(Run(INIT, acts), 0)| > 1;
    }
  }

  // ---------------------------------------------------------------- waiting for the scheduler

  /** The entries ordered before `m` that no task is ending yet. */
  function Ahead(s: State, m: AuctionId): set<AuctionId> {
    set a | a in s.queue && Before(s, a, m) && !Busy(s, a)
  }

  /** The creations in flight whose entry will be ordered before `m`. */
  function Coming(s: State, m: AuctionId): set<CallId>
    requires m in s.queue
  {
    set c | c in s.creators && s.creators[c].pc != Returned
            && Earlier(Unix(s.creators[c].endTime), s.creators[c].auction, s.queue[m], m)
  }

  function Rank(s: State, m: AuctionId): nat
    requires m in s.queue
  {
    |Ahead(s, m)| + |Coming(s, m)|
  }

  /** `m` is due by a whole second and no task is ending it. */
  predicate Waiting(s: State, m: AuctionId) {
    m in s.queue && 0 <= s.queue[m] < Unix(s.now) && !Busy(s, m)
  }

  /** Ticks come when the tasks of the last one are done, and their fetches succeed. */
  predicate Orderly(s: State, act: Action) {
    act.Tick? ==> s.tasks == multiset{} && IsBatch(s, act.batch)
  }

  predicate OrderlyRun(s: State, acts: seq<Action>) {
    forall i :: 0 <= i < |acts| ==> Orderly(Run(s, acts[..i]), acts[i])
  }

  /** A task that leaves its entry behind: its removal fails, or it dies. */
  predicate LeavesEntry(s: State, act: Action) {
    match act
    case TaskRemoves(a, ok) => Task(a, Removing) in s.tasks && !ok
    case TaskDies(t) => t in s.tasks
    case _ => false
  }

  function Leftovers(s: State, acts: seq<Action>): nat {
    if acts == [] then 0
    else
      var init := acts[..|acts| - 1];
      Leftovers(s, init) + if LeavesEntry(Run(s, init), acts[|acts| - 1]) then 1 else 0
  }

  function Ticks(acts: seq<Action>): nat {
    if acts == [] then 0
    else Ticks(acts[..|acts| - 1]) + if acts[|acts| - 1].Tick? then 1 else 0
  }

  predicate Fetched(acts: seq<Action>, m: AuctionId) {
    exists i :: 0 <= i < |acts| && acts[i].Tick? && m in acts[i].batch
  }

  /** A batch without `m` is full, and every entry in it was ahead of `m`. */
  lemma TickServesTen(s: State, batch: seq<AuctionId>, m: AuctionId)
    requires Inv(s) && Waiting(s, m) && Orderly(s, Tick(batch)) && m !in batch
    ensures var t := Apply(s, Tick(batch));
            Waiting(t, m) && Rank(t, m) + 10 <= Rank(s, m)
  {
    var t := Apply(s, Tick(batch));
    TasksForBatch(batch);
    assert Expired(s, m);
    var served := Members(batch);
    DistinctBatch(s, batch);
    assert served <= Ahead(s, m);
    assert Ahead(t, m) == Ahead(s, m) - served;
    assert Coming(t, m) == Coming(s, m);
  }

  function Members(batch: seq<AuctionId>): set<AuctionId> { set a | a in batch }

  lemma {:induction false} SizeOfDistinct(batch: seq<AuctionId>)
    requires forall i, j :: 0 <= i < j < |batch| ==> batch[i] != batch[j]
    ensures |Members(batch)| == |batch|
  {
    if batch == [] {
      assert Members(batch) == {};
    } else {
      var init := batch[..|batch| - 1];
      SizeOfDistinct(init);
      assert batch == init + [batch[|batch| - 1]];
      assert batch[|batch| - 1] !in init;
      assert Members(batch) == Members(init) + {batch[|batch| - 1]};
    }
  }

  lemma DistinctBatch(s: State, batch: seq<AuctionId>)
    requires IsBatch(s, batch)
    ensures |Members(batch)| == |batch|
  {
    forall i, j | 0 <= i < j < |batch| ensures batch[i] != batch[j] { assert Before(s, batch[i], batch[j]); }
    SizeOfDistinct(batch);
  }

  lemma SchedulingKeepsRank(s: State, c: CallId, added: bool, acknowledged: bool, m: AuctionId)
    requires Inv(s) && Waiting(s, m) && CreatorAt(s, c, Schedule)
    ensures var t := Apply(s, ScheduleListing(c, added, acknowledged)); Waiting(t, m) && Rank(t, m) <= Rank(s, m)
  {
    var t := Apply(s, ScheduleListing(c, added, acknowledged));
    var r := s.creators[c];
    assert CreatorOk(s, c);
    assert Coming(t, m) == Coming(s, m) - {c};
    if added {
      if Earlier(Unix(r.endTime), r.auction, s.queue[m], m) {
        assert c in Coming(s, m);
        assert Ahead(t, m) <= Ahead(s, m) + {r.auction};
        CardinalityOfSubset(Ahead(t, m), Ahead(s, m) + {r.auction});
      } else {
        assert Ahead(t, m) <= Ahead(s, m);
        CardinalityOfSubset(Ahead(t, m), Ahead(s, m));
        CardinalityOfSubset(Coming(t, m), Coming(s, m));
      }
    } else {
      assert Ahead(t, m) == Ahead(s, m);
      CardinalityOfSubset(Coming(t, m), Coming(s, m));
    }
  }

  /** Later creations cannot overtake: they end no earlier than they start, and `m` is already due. */
  lemma CreationKeepsRank(s: State, act: Action, m: AuctionId)
    requires Inv(s) && Waiting(s, m)
    requires act.StartCreate? || act.CheckItem? || act.InsertListing? || act.CreatorStops?
    ensures var t := Apply(s, act); Waiting(t, m) && Rank(t, m) <= Rank(s, m)
  {
    var t := Apply(s, act);
    assert t.queue == s.queue && t.tasks == s.tasks;
    assert Ahead(t, m) == Ahead(s, m);
    if act.StartCreate? && t != s { assert Unix(act.endTime) >= Unix(s.now); }
    forall c <- Coming(t, m) ensures c in Coming(s, m) { assert c in s.creators; }
    CardinalityOfSubset(Coming(t, m), Coming(s, m));
  }

  /** An entry leaves the queue together with its task, and does not come back. */
  lemma RemovalKeepsRank(s: State, a: AuctionId, m: AuctionId)
    requires Waiting(s, m) && Task(a, Removing) in s.tasks
    ensures var t := Apply(s, TaskRemoves(a, true)); Waiting(t, m) && Rank(t, m) <= Rank(s, m)
  {
    var t := Apply(s, TaskRemoves(a, true));
    assert t.queue == s.queue - {a} && a != m;
    assert t.tasks == s.tasks - multiset{Task(a, Removing)};
    forall x <- Ahead(t, m) ensures x in Ahead(s, m) { assert x != a; }
    CardinalityOfSubset(Ahead(t, m), Ahead(s, m));
    assert Coming(t, m) == Coming(s, m);
  }

  /** A step that leaves queue and creations alone, and frees no entry of its task. */
  lemma SameQueueKeepsRank(s: State, t: State, m: AuctionId)
    requires Waiting(s, m)
    requires t.queue == s.queue && t.creators == s.creators && s.now <= t.now
    requires forall x :: Busy(t, x) <==> Busy(s, x)
    ensures Waiting(t, m) && Rank(t, m) == Rank(s, m)
  {
    assert Ahead(t, m) == Ahead(s, m);
    assert Coming(t, m) == Coming(s, m);
  }

  lemma EndingKeepsRank(s: State, act: Action, m: AuctionId)
    requires Waiting(s, m)
    requires act.Advance? || act.TaskEnds? || act.EndedElsewhere?
    ensures var t := Apply(s, act); Waiting(t, m) && Rank(t, m) <= Rank(s, m)
  {
    var t := Apply(s, act);
    if act.TaskEnds? && t != s {
      EndingEffect(s, act.a, act.written);
    } else {
      assert t.tasks == s.tasks;
    }
    SameQueueKeepsRank(s, t, m);
  }

  /** The entry of a task that is gone may be ahead again. */
  lemma LeftoverAddsOne(s: State, t: State, x: Task, m: AuctionId)
    requires Waiting(s, m) && x in s.tasks
    requires t.tasks == s.tasks - multiset{x}
    requires t.queue == s.queue && t.creators == s.creators && t.now == s.now
    ensures Waiting(t, m) && Rank(t, m) <= Rank(s, m) + 1
  {
    match x.pc {
      case Ending => assert x == Task(x.auction, Ending);
      case Removing => assert x == Task(x.auction, Removing);
    }
    assert Busy(s, x.auction);
    forall a <- Ahead(t, m) ensures a in Ahead(s, m) + {x.auction} { }
    CardinalityOfSubset(Ahead(t, m), Ahead(s, m) + {x.auction});
    assert Coming(t, m) == Coming(s, m);
  }

  lemma StepKeepsRank(s: State, act: Action, m: AuctionId)
    requires Inv(s) && Waiting(s, m) && !act.Tick?
    ensures var t := Apply(s, act);
            Waiting(t, m) && Rank(t, m) <= Rank(s, m) + if LeavesEntry(s, act) then 1 else 0
  {
    match act
    case ScheduleListing(c, added, acknowledged) =>
      if CreatorAt(s, c, Schedule) { SchedulingKeepsRank(s, c, added, acknowledged, m); }
    case StartCreate(_, _, _, _, _) => CreationKeepsRank(s, act, m);
    case CheckItem(_) => CreationKeepsRank(s, act, m);
    case InsertListing(_, _) => CreationKeepsRank(s, act, m);
    case CreatorStops(_) => CreationKeepsRank(s, act, m);
    case TaskRemoves(a, ok) => TaskRemovesRank(s, a, ok, m);
    case TaskDies(x) => TaskDiesRank(s, x, m);
    case _ => EndingKeepsRank(s, act, m);
  }

  lemma TaskRemovesRank(s: State, a: AuctionId, ok: bool, m: AuctionId)
    requires Waiting(s, m)
    ensures var t := Apply(s, TaskRemoves(a, ok));
            Waiting(t, m) && Rank(t, m) <= Rank(s, m) + if LeavesEntry(s, TaskRemoves(a, ok)) then 1 else 0
  {
    if Task(a, Removing) in s.tasks {
      if ok { RemovalKeepsRank(s, a, m); } else {
        LeftoverAddsOne(s, Apply(s, TaskRemoves(a, ok)), Task(a, Removing), m);
      }
    }
  }

  lemma TaskDiesRank(s: State, x: Task, m: AuctionId)
    requires Waiting(s, m)
    ensures var t := Apply(s, TaskDies(x));
            Waiting(t, m) && Rank(t, m) <= Rank(s, m) + if LeavesEntry(s, TaskDies(x)) then 1 else 0
  {
    var t := Apply(s, TaskDies(x));
    if x in s.tasks {
      LeftoverAddsOne(s, t, x, m);
    } else {
      assert t.tasks == s.tasks;
      SameQueueKeepsRank(s, t, m);
    }
  }

  /** Every tick that passes `m` by costs its rank ten, and only a task that leaves its entry behind adds one. */
  lemma {:induction false} TicksConsumeRank(s: State, acts: seq<Action>, m: AuctionId)
    requires Inv(s) && Waiting(s, m) && OrderlyRun(s, acts) && !Fetched(acts, m)
    ensures var t := Run(s, acts);
            && Inv(t) && Waiting(t, m)
            && Rank(t, m) + 10 * Ticks(acts) <= Rank(s, m) + Leftovers(s, acts)
  {
    if acts != [] {
      var init := acts[..|acts| - 1];
      var act := acts[|acts| - 1];
      forall i | 0 <= i < |init| ensures init[..i] == acts[..i] && init[i] == acts[i] { }
      assert OrderlyRun(s, init) && !Fetched(init, m);
      TicksConsumeRank(s, init, m);
      StepKeepsInv(Run(s, init), act);
      if act.Tick? {
        TickServesTen(Run(s, init), act.batch, m);
      } else {
        StepKeepsRank(Run(s, init), act, m);
      }
    }
  }

  /**
   No starvation: if `f` tasks leave their entries behind, a due entry of rank `r` is fetched within
   floor((r + f)/10) + 1 ticks.
   */
  lemma FetchedInTime(s: State, acts: seq<Action>, m: AuctionId)
    requires Inv(s) && Waiting(s, m) && OrderlyRun(s, acts)
    requires Ticks(acts) >= (Rank(s, m) + Leftovers(s, acts)) / 10 + 1
    ensures Fetched(acts, m)
  {
    if !Fetched(acts, m) {
      TicksConsumeRank(s, acts, m);
    }
  }
}
