/** `CreateAuction` and the scheduler as they are written, other calls running in between. */
module LifecycleService {
  import opened Domain
  import opened Lifecycle

  datatype CreateReply =
    | Created
    | ItemNotFound
    | UserNotFound
    | InvalidTimeFormat
    | InvalidStartTime
    | InvalidEndTime
    | InvalidStartingPrice
    | ItemAlreadyInAuction
    | DbError

  datatype Statement = SelectActive | InsertAuction | AckOfInsert | AddToSchedule | AckOfSchedule

  /** Call `c` and its id are left to `c`. */
  predicate ByOthers(acts: seq<Action>, c: CallId, id: AuctionId) {
    forall act <- acts ::
      && (act.StartCreate? ==> act.c != c && act.id != id)
      && (act.CheckItem? || act.InsertListing? || act.ScheduleListing? || act.CreatorStops? ==> act.c != c)
  }

  lemma OthersStep(s: State, act: Action, c: CallId, id: AuctionId)
    requires ByOthers([act], c, id)
    ensures c in Apply(s, act).creators <==> c in s.creators
    ensures c in s.creators ==> Apply(s, act).creators[c] == s.creators[c]
  {
    assert act in [act];
  }

  /** The entry of a listed auction is there if it was `added`, with the whole second of its end time as its score. */
  predicate Queued(s: State, id: AuctionId, added: bool) {
    && (id in s.queue <==> added)
    && (added ==>
          && id in s.listings
          && s.queue[id] * 1_000_000_000 <= s.listings[id].endTime < (s.queue[id] + 1) * 1_000_000_000)
  }

  predicate ItemIsFree(s: State, item: ItemId) {
    forall x <- s.listings :: !(s.listings[x].item == item && s.listings[x].active)
  }

  predicate IsListed(s: State, id: AuctionId, item: ItemId, endTime: Time) {
    id in s.listings && s.listings[id].item == item && s.listings[id].endTime == endTime
  }

  /** No other call runs in between and no statement fails. */
  ghost predicate Undisturbed(others: nat -> seq<Action>, broken: set<Statement>) {
    broken == {} && forall k: nat :: others(k) == []
  }

  class Backend {
    var now: Time
    var listings: map<AuctionId, Listing>
    var creators: map<CallId, Creator>
    var queue: map<AuctionId, Second>
    var tasks: multiset<Task>
    var faults: set<AuctionId>

    function View(): State
      reads this
    {
      State(now, listings, creators, queue, tasks, faults)
    }

    constructor ()
      ensures View() == INIT
    {
      now, listings, creators, queue, tasks, faults := 0, map[], map[], map[], multiset{}, {};
    }

    method Execute(act: Action)
      modifies this
      ensures View() == Apply(old(View()), act)
    {
      var s := Apply(View(), act);
      now, listings, creators, queue, tasks, faults := s.now, s.listings, s.creators, s.queue, s.tasks, s.faults;
    }

    /** Other calls run for a while. */
    method Yield(acts: seq<Action>, c: CallId, id: AuctionId)
      requires Inv(View()) && ByOthers(acts, c, id) && c in creators
      modifies this
      ensures Inv(View()) && View() == Run(old(View()), acts)
      ensures c in creators && creators[c] == old(creators[c])
    {
      for i := 0 to |acts|
        invariant View() == Run(old(View()), acts[..i])
        invariant c in creators && creators[c] == old(creators[c])
      {
        RunSnoc(old(View()), acts[..i], acts[i]);
        assert acts[..i + 1] == acts[..i] + [acts[i]];
        OthersStep(View(), acts[i], c, id);
        Execute(acts[i]);
      }
      assert acts[..|acts|] == acts;
      RunKeepsInv(old(View()), acts);
    }

    /** The row loop of `GetActiveByItemID`. */
    method GetActiveByItemID(item: ItemId) returns (active: seq<AuctionId>)
      ensures forall a :: a in active <==> a in listings && listings[a].item == item && listings[a].active
    {
      active := [];
      var rows := listings.Keys;
      while rows != {}
        invariant rows <= listings.Keys
        invariant forall a :: a in active <==>
                    a in listings && listings[a].item == item && listings[a].active && a !in rows
        decreases |rows|
      {
        var a :| a in rows;
        if listings[a].item == item && listings[a].active { active := active + [a]; }
        rows := rows - {a};
      }
    }

    method SetPc(c: CallId, pc: CreatorPc)
      requires c in creators
      modifies this`creators
      ensures creators == old(creators)[c := old(creators)[c].(pc := pc)]
    {
      creators := creators[c := creators[c].(pc := pc)];
    }

    /** Lines 118-131 of auction.go. */
    method CheckActive(c: CallId, fails: bool) returns (err: Option<CreateReply>, ghost act: Action)
      requires CreatorAt(View(), c, Check)
      modifies this`creators
      ensures View() == Apply(old(View()), act)
      ensures act == if fails then CreatorStops(c) else CheckItem(c)
      ensures CreatorAt(View(), c, if err.Some? then Returned else CreatorPc.Insert)
      ensures err == if fails then Some(DbError)
                     else if ItemIsFree(View(), old(creators[c].item)) then None else Some(ItemAlreadyInAuction)
      ensures creators[c] == old(creators[c]).(pc := creators[c].pc)
    {
      if fails {
        act, err := CreatorStops(c), Some(DbError);
        SetPc(c, Returned);
        return;
      }
      act := CheckItem(c);
      var active := GetActiveByItemID(creators[c].item);
      if |active| > 0 {
        assert active[0] in Live(View(), creators[c].item);
        err := Some(ItemAlreadyInAuction);
        SetPc(c, Returned);
      } else {
        assert Live(View(), creators[c].item) == {};
        err := None;
        SetPc(c, CreatorPc.Insert);
      }
    }

    /**
     Lines 133-160: the table refuses a starting price that it would store as 0.00; the row is there even
     if only its acknowledgement is lost.
     */
    method Save(c: CallId, startingPrice: real, fails: bool, acknowledged: bool)
      returns (err: Option<CreateReply>, ghost act: Action)
      requires CreatorAt(View(), c, CreatorPc.Insert) && startingPrice > 0.0
      modifies this
      ensures View() == Apply(old(View()), act)
      ensures act == if fails || startingPrice < 0.5 then CreatorStops(c) else InsertListing(c, acknowledged)
      ensures CreatorAt(View(), c, if err.Some? then Returned else Schedule)
      ensures err == if fails || startingPrice < 0.5 || !acknowledged then Some(DbError) else None
      ensures creators[c] == old(creators[c]).(pc := creators[c].pc)
      ensures err.None? ==> creators[c].auction in listings
    {
      var r := creators[c];
      StoredIsNearest(startingPrice);
      var refused := fails || Stored(startingPrice) <= 0;
      if refused {
        act := CreatorStops(c);
        SetPc(c, Returned);
      } else {
        act := InsertListing(c, acknowledged);
        listings := listings[r.auction := Listing(r.item, r.endTime, true)];
        if !acknowledged { faults := faults + {r.auction}; }
        SetPc(c, if acknowledged then Schedule else Returned);
      }
      err := if refused || !acknowledged then Some(DbError) else None;
    }

    /** Lines 166-177, `ScheduleAuction`: an error, be it only a lost reply, is logged and otherwise ignored. */
    method ScheduleAuction(c: CallId, added: bool, acknowledged: bool) returns (ghost act: Action)
      requires CreatorAt(View(), c, Schedule)
      modifies this
      ensures View() == Apply(old(View()), act)
      ensures act == ScheduleListing(c, added, acknowledged)
      ensures CreatorAt(View(), c, Returned) && creators[c].auction == old(creators[c].auction)
      ensures listings == old(listings)
      ensures var r := old(creators[c]);
              && (added ==> r.auction in queue && queue == old(queue)[r.auction := queue[r.auction]])
              && (added ==> queue[r.auction] * 1_000_000_000 <= r.endTime < (queue[r.auction] + 1) * 1_000_000_000)
              && (!added ==> queue == old(queue))
    {
      var r := creators[c];
      act := ScheduleListing(c, added, acknowledged);
      if added { queue := queue[r.auction := r.endTime / NANOS_PER_SECOND]; }
      if !added || !acknowledged { faults := faults + {r.auction}; }
      SetPc(c, Returned);
    }

    /** What follows the validation. */
    method CreateValidated(c: CallId, id: AuctionId, startingPrice: real,
                           others: nat -> seq<Action>, broken: set<Statement>)
      returns (r: CreateReply, ghost steps: seq<Action>)
      requires Inv(View()) && CreatorAt(View(), c, Check) && creators[c].auction == id && startingPrice > 0.0
      requires forall k: nat :: ByOthers(others(k), c, id)
      modifies this
      ensures Inv(View()) && View() == Run(old(View()), steps)
      ensures CreatorAt(View(), c, Returned) && creators[c].auction == id
      ensures r == Created ==> IsListed(View(), id, old(creators[c].item), old(creators[c].endTime))
      ensures r == Created ==> Queued(View(), id, AddToSchedule !in broken)
      ensures Undisturbed(others, broken) ==>
                r == if !old(ItemIsFree(View(), creators[c].item)) then ItemAlreadyInAuction
                     else if startingPrice >= 0.5 then Created else DbError
      ensures r != ItemAlreadyInAuction ==> r == Created || r == DbError
      ensures r == ItemAlreadyInAuction ==> !ItemIsFree(View(), old(creators[c].item))
      ensures r == DbError ==>
                SelectActive in broken || InsertAuction in broken || AckOfInsert in broken || startingPrice < 0.5
      ensures r == Created ==>
                SelectActive !in broken && InsertAuction !in broken && AckOfInsert !in broken && startingPrice >= 0.5
    {
      ghost var act;
      var err;
      Yield(others(0), c, id);
      err, act := CheckActive(c, SelectActive in broken);
      steps := Extend(old(View()), others(0), act);
      if err.Some? { return err.value, steps; }
      Yield(others(1), c, id);
      steps := Interleave(old(View()), steps, others(1));
      err, act := Save(c, startingPrice, InsertAuction in broken, AckOfInsert !in broken);
      steps := Extend(old(View()), steps, act);
      if err.Some? { return err.value, steps; }
      ghost var more;
      r, more := ScheduleCreated(c, id, others(2), broken);
      steps := Interleave(old(View()), steps, more);
    }

    method ScheduleCreated(c: CallId, id: AuctionId, meanwhile: seq<Action>, broken: set<Statement>)
      returns (r: CreateReply, ghost steps: seq<Action>)
      requires Inv(View()) && CreatorAt(View(), c, Schedule) && creators[c].auction == id
      requires ByOthers(meanwhile, c, id)
      modifies this
      ensures Inv(View()) && View() == Run(old(View()), steps)
      ensures CreatorAt(View(), c, Returned) && creators[c].auction == id
      ensures r == Created && IsListed(View(), id, old(creators[c].item), old(creators[c].endTime))
      ensures Queued(View(), id, AddToSchedule !in broken)
    {
      Yield(meanwhile, c, id);
      assert CreatorOk(View(), c);
      ghost var act := ScheduleAuction(c, AddToSchedule !in broken, AckOfSchedule !in broken);
      steps := Extend(old(View()), meanwhile, act);
      r := Created;
    }

    /**
     `CreateAuction`: a refused request changes nothing; a created auction that is still active is in the
     schedule at the whole second of its end, unless a fault was recorded for it.
     */
    method CreateAuction(c: CallId, id: AuctionId, item: ItemId, itemKnown: bool, userKnown: bool,
                         startTime: Option<Time>, endTime: Option<Time>, startingPrice: real,
                         others: nat -> seq<Action>, broken: set<Statement>)
      returns (r: CreateReply, ghost steps: seq<Action>)
      requires Inv(View()) && c !in creators && !Taken(View(), id)
      requires forall k: nat :: ByOthers(others(k), c, id)
      modifies this
      ensures Inv(View()) && View() == Run(old(View()), steps)
      ensures c !in creators ==> View() == old(View())
      ensures c in creators <==>
                && itemKnown && userKnown && startTime.Some? && endTime.Some?
                && old(now) <= startTime.value <= endTime.value && startingPrice > 0.0
      // the first defect of a request is named
      ensures r == ItemNotFound <==> !itemKnown
      ensures r == UserNotFound <==> itemKnown && !userKnown
      ensures r == InvalidTimeFormat <==> itemKnown && userKnown && (startTime.None? || endTime.None?)
      ensures r == InvalidStartTime <==>
                itemKnown && userKnown && startTime.Some? && endTime.Some? && startTime.value < old(now)
      ensures r == InvalidEndTime <==>
                && itemKnown && userKnown && startTime.Some? && endTime.Some?
                && old(now) <= startTime.value && endTime.value < startTime.value
      ensures r == InvalidStartingPrice <==>
                && itemKnown && userKnown && startTime.Some? && endTime.Some?
                && old(now) <= startTime.value <= endTime.value && startingPrice <= 0.0
      // a valid request is decided by the active auctions of its item, whatever happens in between
      ensures r == ItemAlreadyInAuction ==> exists x <- listings :: listings[x].item == item && listings[x].active
      ensures c in creators && Undisturbed(others, broken) ==>
                && (r == ItemAlreadyInAuction <==>
                      old(exists x <- listings :: listings[x].item == item && listings[x].active))
                && (r == Created || r == ItemAlreadyInAuction || (r == DbError && startingPrice < 0.5))
      ensures r == DbError ==>
                SelectActive in broken || InsertAuction in broken || AckOfInsert in broken || startingPrice < 0.5
      ensures r == Created ==>
                && SelectActive !in broken && InsertAuction !in broken && AckOfInsert !in broken
                && startingPrice >= 0.5
                && IsListed(View(), id, item, endTime.value) && Queued(View(), id, AddToSchedule !in broken)
      ensures r == Created && listings[id].active && id !in faults ==>
                id in queue && queue[id] == Unix(listings[id].endTime)
    {
      steps := [];
      if !itemKnown { return ItemNotFound, steps; }
      if !userKnown { return UserNotFound, steps; }
      if startTime.None? { return InvalidTimeFormat, steps; }
      if endTime.None? { return InvalidTimeFormat, steps; }
      if startTime.value < now { return InvalidStartTime, steps; }
      if endTime.value < startTime.value { return InvalidEndTime, steps; }
      if startingPrice <= 0.0 { return InvalidStartingPrice, steps; }
      creators := creators[c := Creator(item, id, endTime.value, Check)];
      steps := Extend(old(View()), [], StartCreate(c, id, item, startTime.value, endTime.value));
      ghost var more;
      r, more := CreateValidated(c, id, startingPrice, others, broken);
      steps := Interleave(old(View()), steps, more);
      if r == Created { CreatedIsScheduled(View(), c); }
    }

    // ---------------------------------------------------------------- the scheduler

    /** The first member of `rest` in the order of the sorted set. */
    method Earliest(rest: set<AuctionId>) returns (first: AuctionId)
      requires rest != {} && rest <= queue.Keys
      ensures first in rest
      ensures forall a <- rest | a != first :: Before(View(), first, a)
    {
      first :| first in rest;
      var todo := rest - {first};
      while todo != {}
        invariant first in rest && todo <= rest && first !in todo
        invariant forall a <- rest | a !in todo && a != first :: Before(View(), first, a)
        decreases |todo|
      {
        var a :| a in todo;
        if Before(View(), a, first) { first := a; }
        todo := todo - {a};
      }
    }

    /** ZRANGEBYSCORE auction:expirations 0 now LIMIT 0 10. */
    method ZRangeByScore() returns (batch: seq<AuctionId>)
      ensures IsBatch(View(), batch) && |batch| <= 10
      ensures forall a <- batch :: a in queue && 0 <= queue[a] && queue[a] * 1_000_000_000 <= now
      ensures forall i, j :: 0 <= i < j < |batch| ==>
                queue[batch[i]] < queue[batch[j]] || (queue[batch[i]] == queue[batch[j]] && batch[i] < batch[j])
      ensures forall a <- queue | 0 <= queue[a] && queue[a] * 1_000_000_000 <= now && a !in batch ::
                && |batch| == 10
                && forall b <- batch :: queue[b] < queue[a] || (queue[b] == queue[a] && b < a)
    {
      var rest := set a | a in queue && Expired(View(), a);
      batch := [];
      while |batch| < BATCH_SIZE && rest != {}
        invariant |batch| <= BATCH_SIZE
        invariant rest <= queue.Keys
        invariant forall a :: Expired(View(), a) <==> a in rest || a in batch
        invariant forall b <- batch, a <- rest :: Before(View(), b, a)
        invariant forall i, j :: 0 <= i < j < |batch| ==> Before(View(), batch[i], batch[j])
        decreases |rest|
      {
        var a := Earliest(rest);
        batch := batch + [a];
        rest := rest - {a};
      }
    }

    /** `checkExpiredAuctions`: one goroutine for each member of the batch. */
    method CheckExpiredAuctions() returns (batch: seq<AuctionId>)
      modifies this`tasks
      ensures IsBatch(old(View()), batch) && View() == Apply(old(View()), Tick(batch))
    {
      batch := ZRangeByScore();
      StartTasks(batch);
    }

    method StartTasks(batch: seq<AuctionId>)
      modifies this`tasks
      ensures tasks == old(tasks) + TasksFor(batch)
    {
      for i := 0 to |batch|
        invariant tasks == old(tasks) + TasksFor(batch[..i])
      {
        assert batch[..i + 1][..|batch[..i + 1]| - 1] == batch[..i];
        tasks := tasks + multiset{Task(batch[i], Ending)};
      }
      assert batch[..|batch|] == batch;
    }

    /** `EndAuctionForScheduler`, as far as the schedule is concerned. */
    method EndForScheduler(a: AuctionId, written: bool)
      requires Task(a, Ending) in tasks && a in listings
      modifies this
      ensures View() == Apply(old(View()), TaskEnds(a, written))
      ensures Task(a, Removing) in tasks
    {
      tasks := tasks - multiset{Task(a, Ending)} + multiset{Task(a, Removing)};
      if written {
        listings := listings[a := listings[a].(active := false)];
      } else if listings[a].active {
        faults := faults + {a};
      }
    }

    /** The deferred ZREM. */
    method RemoveEntry(a: AuctionId, removed: bool)
      requires Task(a, Removing) in tasks
      modifies this`tasks, this`queue
      ensures View() == Apply(old(View()), TaskRemoves(a, removed))
      ensures removed ==> a !in queue
    {
      tasks := tasks - multiset{Task(a, Removing)};
      if removed { queue := queue - {a}; }
    }

    /**
     `endAuction`, other calls running between the ending and the removal: whatever becomes of the ending,
     the entry is taken out; the auction is then over or has a recorded fault.
     */
    method EndAuction(a: AuctionId, written: bool, removed: bool, meanwhile: seq<Action>)
      requires Inv(View()) && Task(a, Ending) in tasks
      // the task is this call's own, so nobody else ends it
      requires Task(a, Removing) in Run(Apply(View(), TaskEnds(a, written)), meanwhile).tasks
      modifies this
      ensures Inv(View())
      ensures View() == Apply(Run(Apply(old(View()), TaskEnds(a, written)), meanwhile), TaskRemoves(a, removed))
      ensures removed ==> a !in queue
      ensures a in listings && (!listings[a].active || a in faults)
    {
      EndsWithoutLoss(View(), a, written, meanwhile, removed);
      EndForScheduler(a, written);
      ExecuteAll(meanwhile);
      RemoveEntry(a, removed);
    }

    method ExecuteAll(acts: seq<Action>)
      modifies this
      ensures View() == Run(old(View()), acts)
    {
      for i := 0 to |acts|
        invariant View() == Run(old(View()), acts[..i])
      {
        RunSnoc(old(View()), acts[..i], acts[i]);
        assert acts[..i + 1] == acts[..i] + [acts[i]];
        Execute(acts[i]);
      }
      assert acts[..|acts|] == acts;
    }
  }

  lemma EndsWithoutLoss(s: State, a: AuctionId, written: bool, meanwhile: seq<Action>, removed: bool)
    requires Inv(s) && Task(a, Ending) in s.tasks
    requires Task(a, Removing) in Run(Apply(s, TaskEnds(a, written)), meanwhile).tasks
    ensures a in s.listings
    ensures var t := Apply(Run(Apply(s, TaskEnds(a, written)), meanwhile), TaskRemoves(a, removed));
            Inv(t) && a in t.listings && (!t.listings[a].active || a in t.faults)
  {
    assert TaskOk(s, Task(a, Ending));
    StepKeepsInv(s, TaskEnds(a, written));
    RunKeepsInv(Apply(s, TaskEnds(a, written)), meanwhile);
    RemovesWithoutLoss(Run(Apply(s, TaskEnds(a, written)), meanwhile), a, removed);
  }

  lemma RemovesWithoutLoss(s: State, a: AuctionId, removed: bool)
    requires Inv(s) && Task(a, Removing) in s.tasks
    ensures var t := Apply(s, TaskRemoves(a, removed));
            Inv(t) && a in t.listings && (!t.listings[a].active || a in t.faults)
  {
    StepKeepsInv(s, TaskRemoves(a, removed));
    assert TaskOk(s, Task(a, Removing));
  }

  lemma Extend(s: State, acts: seq<Action>, act: Action) returns (longer: seq<Action>)
    requires Inv(s)
    ensures Run(s, longer) == Apply(Run(s, acts), act) && Inv(Run(s, longer))
  {
    longer := acts + [act];
    RunSnoc(s, acts, act);
    RunKeepsInv(s, longer);
  }

  lemma Interleave(s: State, acts: seq<Action>, more: seq<Action>) returns (longer: seq<Action>)
    ensures Run(s, longer) == Run(Run(s, acts), more)
  {
    longer := acts + more;
    RunConcat(s, acts, more);
  }

  lemma CreatedIsScheduled(s: State, c: CallId)
    requires Inv(s) && CreatorAt(s, c, Returned) && s.creators[c].auction in s.listings
    ensures var id := s.creators[c].auction;
            s.listings[id].active && id !in s.faults ==> id in s.queue && s.queue[id] == Unix(s.listings[id].endTime)
  {
    assert Accounted(s, s.creators[c].auction);
  }
}
