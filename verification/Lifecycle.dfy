/** Creating auctions, scheduling their ends in a Redis sorted set, and ending them tick by tick. */
module Lifecycle {
  import opened Domain

  type Second = int

  const NANOS_PER_SECOND: Time := 1_000_000_000
  const BATCH_SIZE: nat := 10

  /** `time.Time.Unix()`. */
  function Unix(t: Time): Second { t / NANOS_PER_SECOND }

  // ---------------------------------------------------------------- state

  /** The columns of an auction row that matter here. */
  datatype Listing = Listing(item: ItemId, endTime: Time, active: bool)

  datatype CreatorPc = Check | Insert | Schedule | Returned

  /** A `CreateAuction` call that passed its validation; its `uuid.New()` is drawn in advance. */
  datatype Creator = Creator(item: ItemId, auction: AuctionId, endTime: Time, pc: CreatorPc)

  datatype TaskPc = Ending | Removing

  /** A goroutine running `endAuction`. */
  datatype Task = Task(auction: AuctionId, pc: TaskPc)

  /** `queue` is the sorted set; `faults` are the auctions hit by a logged error or a crash. */
  datatype State = State(
    now: Time,
    listings: map<AuctionId, Listing>,
    creators: map<CallId, Creator>,
    queue: map<AuctionId, Second>,
    tasks: multiset<Task>,
    faults: set<AuctionId>)

  const INIT := State(0, map[], map[], map[], multiset{}, {})

  predicate Busy(s: State, a: AuctionId) {
    Task(a, Ending) in s.tasks || Task(a, Removing) in s.tasks
  }

  predicate Taken(s: State, a: AuctionId) {
    a in s.listings || exists c <- s.creators :: s.creators[c].auction == a
  }

  /** The order of the sorted set: by score, then by member. */
  predicate Earlier(score: Second, a: AuctionId, score': Second, a': AuctionId) {
    score < score' || (score == score' && a < a')
  }

  predicate Before(s: State, a: AuctionId, b: AuctionId) {
    a in s.queue && b in s.queue && Earlier(s.queue[a], a, s.queue[b], b)
  }

  predicate Expired(s: State, a: AuctionId) {
    a in s.queue && 0 <= s.queue[a] <= Unix(s.now)
  }

  /** What ZRANGEBYSCORE 0..now LIMIT 10 returns. */
  predicate IsBatch(s: State, batch: seq<AuctionId>) {
    && |batch| <= BATCH_SIZE
    && (forall a <- batch :: Expired(s, a))
    && (forall i, j :: 0 <= i < j < |batch| ==> Before(s, batch[i], batch[j]))
    && (forall a <- s.queue | Expired(s, a) && a !in batch ::
          |batch| == BATCH_SIZE && forall b <- batch :: Before(s, b, a))
  }

  function TasksFor(batch: seq<AuctionId>): multiset<Task> {
    if batch == [] then multiset{}
    else TasksFor(batch[..|batch| - 1]) + multiset{Task(batch[|batch| - 1], Ending)}
  }

  // ---------------------------------------------------------------- steps

  datatype Action =
    | Advance(passed: nat)
    | StartCreate(c: CallId, id: AuctionId, item: ItemId, startTime: Time, endTime: Time)
    | CheckItem(c: CallId)
    | InsertListing(c: CallId, acknowledged: bool)
    | ScheduleListing(c: CallId, added: bool, acknowledged: bool)
    | CreatorStops(c: CallId) // an error before the insert, or a crash
    | Tick(batch: seq<AuctionId>)
    | TaskEnds(a: AuctionId, written: bool)
    | TaskRemoves(a: AuctionId, ok: bool)
    | TaskDies(t: Task)
    | EndedElsewhere(a: AuctionId)

  predicate CreatorAt(s: State, c: CallId, pc: CreatorPc) {
    c in s.creators && s.creators[c].pc == pc
  }

  function Goto(s: State, c: CallId, pc: CreatorPc): State
    requires c in s.creators
  {
    s.(creators := s.creators[c := s.creators[c].(pc := pc)])
  }

  /** `GetActiveByItemID`. */
  function Live(s: State, item: ItemId): set<AuctionId> {
    set a | a in s.listings && s.listings[a].item == item && s.listings[a].active
  }

  function Close(s: State, a: AuctionId): State
    requires a in s.listings
  {
    s.(listings := s.listings[a := s.listings[a].(active := false)])
  }

  function Apply(s: State, act: Action): State {
    match act
    case Advance(passed) => s.(now := s.now + passed)
    case StartCreate(c, id, item, startTime, endTime) =>
      if c !in s.creators && !Taken(s, id) && s.now <= startTime <= endTime then
        s.(creators := s.creators[c := Creator(item, id, endTime, Check)])
      else s
    case CheckItem(c) =>
      if CreatorAt(s, c, Check) then
        Goto(s, c, if Live(s, s.creators[c].item) == {} then Insert else Returned)
      else s
    case InsertListing(c, acknowledged) =>
      if CreatorAt(s, c, Insert) then
        var r := s.creators[c];
        Goto(s, c, if acknowledged then Schedule else Returned).(
          listings := s.listings[r.auction := Listing(r.item, r.endTime, true)],
          faults := if acknowledged then s.faults else s.faults + {r.auction})
      else s
    case ScheduleListing(c, added, acknowledged) =>
      if CreatorAt(s, c, Schedule) then
        var r := s.creators[c];
        Goto(s, c, Returned).(
          queue := if added then s.queue[r.auction := Unix(r.endTime)] else s.queue,
          faults := if added && acknowledged then s.faults else s.faults + {r.auction})
      else s
    case CreatorStops(c) =>
      if c in s.creators then
        Goto(s, c, Returned).(
          faults := if s.creators[c].pc == Schedule then s.faults + {s.creators[c].auction} else s.faults)
      else s
    case Tick(batch) =>
      if IsBatch(s, batch) then s.(tasks := s.tasks + TasksFor(batch)) else s
    case TaskEnds(a, written) =>
      if Task(a, Ending) in s.tasks && a in s.listings then
        var t := s.(tasks := s.tasks - multiset{Task(a, Ending)} + multiset{Task(a, Removing)});
        if written then Close(t, a)
        else if s.listings[a].active then t.(faults := s.faults + {a})
        else t
      else s
    case TaskRemoves(a, ok) =>
      if Task(a, Removing) in s.tasks then
        s.(tasks := s.tasks - multiset{Task(a, Removing)}, queue := if ok then s.queue - {a} else s.queue)
      else s
    case TaskDies(t) => s.(tasks := s.tasks - multiset{t})
    case EndedElsewhere(a) => if a in s.listings then Close(s, a) else s
  }

  function Run(s: State, acts: seq<Action>): State {
    if acts == [] then s else Apply(Run(s, acts[..|acts| - 1]), acts[|acts| - 1])
  }

  lemma RunSnoc(s: State, acts: seq<Action>, act: Action)
    ensures Run(s, acts + [act]) == Apply(Run(s, acts), act)
  {
    assert (acts + [act])[..|acts + [act]| - 1] == acts;
  }

  lemma {:induction false} RunConcat(s: State, acts: seq<Action>, more: seq<Action>)
    ensures Run(s, acts + more) == Run(Run(s, acts), more)
  {
    if more == [] {
      assert acts + more == acts;
    } else {
      RunConcat(s, acts, more[..|more| - 1]);
      assert (acts + more)[..|acts + more| - 1] == acts + more[..|more| - 1];
    }
  }

  // ---------------------------------------------------------------- nothing is silently lost

  predicate CreatorOk(s: State, c: CallId)
    requires c in s.creators
  {
    var r := s.creators[c];
    && 0 <= r.endTime
    && (r.pc == Check || r.pc == Insert ==> r.auction !in s.listings)
    && (r.pc == Schedule ==>
          && r.auction in s.listings && r.auction !in s.queue
          && s.listings[r.auction].endTime == r.endTime && s.listings[r.auction].item == r.item)
  }

  predicate TaskOk(s: State, t: Task) {
    && t.auction in s.listings
    && (t.pc == Removing ==> !s.listings[t.auction].active || t.auction in s.faults)
  }

  predicate Scheduled(s: State, a: AuctionId)
    requires a in s.listings
  {
    a in s.queue && s.queue[a] == Unix(s.listings[a].endTime)
  }

  predicate BeingCreated(s: State, a: AuctionId) {
    exists c <- s.creators :: s.creators[c].auction == a && s.creators[c].pc == Schedule
  }

  predicate Accounted(s: State, a: AuctionId)
    requires a in s.listings
  {
    s.listings[a].active ==> Scheduled(s, a) || BeingCreated(s, a) || a in s.faults
  }

  predicate Inv(s: State) {
    && 0 <= s.now
    && (forall c <- s.creators :: CreatorOk(s, c))
    && (forall c, d | c in s.creators && d in s.creators && c != d :: s.creators[c].auction != s.creators[d].auction)
    && (forall t <- s.tasks :: TaskOk(s, t))
    && (forall a <- s.queue :: a in s.listings && Scheduled(s, a) && 0 <= s.queue[a])
    && (forall a <- s.listings :: Accounted(s, a))
  }

  lemma {:induction false} TasksForBatch(batch: seq<AuctionId>)
    ensures forall t :: t in TasksFor(batch) <==> t.pc == Ending && t.auction in batch
  {
    if batch != [] {
      TasksForBatch(batch[..|batch| - 1]);
      assert batch == batch[..|batch| - 1] + [batch[|batch| - 1]];
    }
  }

  /** A batch without repetitions starts one task for each of its members. */
  lemma {:induction false} OneTaskEach(batch: seq<AuctionId>, t: Task)
    requires forall i, j :: 0 <= i < j < |batch| ==> batch[i] != batch[j]
    ensures TasksFor(batch)[t] == if t.pc == Ending && t.auction in batch then 1 else 0
  {
    if batch != [] {
      var init := batch[..|batch| - 1];
      OneTaskEach(init, t);
      assert batch == init + [batch[|batch| - 1]];
      assert batch[|batch| - 1] !in init;
    }
  }

  lemma StartStep(s: State, act: Action)
    requires Inv(s)
    requires act.StartCreate? || act.CheckItem?
    ensures Inv(Apply(s, act))
  {
    var t := Apply(s, act);
    if t != s {
      forall c <- t.creators ensures CreatorOk(t, c) { if c in s.creators { assert CreatorOk(s, c); } }
      forall a <- t.listings ensures Accounted(t, a) { assert Accounted(s, a); BeingCreatedStays(s, t, a, act.c); }
      assert forall x <- s.tasks :: TaskOk(s, x);
    }
  }

  /** A creation that is between insert and schedule is not disturbed by what another call does. */
  lemma BeingCreatedStays(s: State, t: State, a: AuctionId, c: CallId)
    requires forall d <- s.creators | d != c :: d in t.creators && t.creators[d] == s.creators[d]
    ensures BeingCreated(s, a) && !(CreatorAt(s, c, Schedule) && s.creators[c].auction == a) ==> BeingCreated(t, a)
  {
    if BeingCreated(s, a) && !(CreatorAt(s, c, Schedule) && s.creators[c].auction == a) {
      var d :| d in s.creators && s.creators[d].auction == a && s.creators[d].pc == Schedule;
      assert t.creators[d] == s.creators[d];
    }
  }

  lemma ScheduleStep(s: State, c: CallId, added: bool, acknowledged: bool)
    requires Inv(s)
    ensures Inv(Apply(s, ScheduleListing(c, added, acknowledged)))
  {
    var t := Apply(s, ScheduleListing(c, added, acknowledged));
    if t != s {
      assert CreatorOk(s, c);
      forall d <- t.creators ensures CreatorOk(t, d) { assert CreatorOk(s, d); }
      forall a <- t.listings ensures Accounted(t, a) { assert Accounted(s, a); BeingCreatedStays(s, t, a, c); }
      assert forall x <- s.tasks :: TaskOk(s, x);
    }
  }

  lemma StopStep(s: State, c: CallId)
    requires Inv(s)
    ensures Inv(Apply(s, CreatorStops(c)))
  {
    var t := Apply(s, CreatorStops(c));
    if t != s {
      forall d <- t.creators ensures CreatorOk(t, d) { assert CreatorOk(s, d); }
      forall a <- t.listings ensures Accounted(t, a) { assert Accounted(s, a); BeingCreatedStays(s, t, a, c); }
      assert forall x <- s.tasks :: TaskOk(s, x);
    }
  }

  lemma InsertStep(s: State, c: CallId, acknowledged: bool)
    requires Inv(s)
    ensures Inv(Apply(s, InsertListing(c, acknowledged)))
  {
    var t := Apply(s, InsertListing(c, acknowledged));
    if t != s {
      assert CreatorOk(s, c);
      forall d <- t.creators ensures CreatorOk(t, d) { assert CreatorOk(s, d); }
      forall a <- t.listings ensures Accounted(t, a) {
        if a == s.creators[c].auction {
          assert t.creators[c].auction == a;
        } else {
          assert Accounted(s, a);
          BeingCreatedStays(s, t, a, c);
        }
      }
      assert forall x <- s.tasks :: TaskOk(s, x);
    }
  }

  /** What a step that leaves creators and queue alone has to show. */
  lemma OnlyTasksAndEnds(s: State, t: State)
    requires Inv(s)
    requires t.creators == s.creators && t.queue == s.queue && s.now <= t.now && s.faults <= t.faults
    requires t.listings.Keys == s.listings.Keys
    requires forall a <- s.listings ::
               && t.listings[a].endTime == s.listings[a].endTime && t.listings[a].item == s.listings[a].item
               && (t.listings[a].active ==> s.listings[a].active)
    requires forall x <- t.tasks :: TaskOk(t, x)
    ensures Inv(t)
  {
    forall c <- t.creators ensures CreatorOk(t, c) { assert CreatorOk(s, c); }
    forall a <- t.listings ensures Accounted(t, a) {
      assert Accounted(s, a);
      if BeingCreated(s, a) {
        var c :| c in s.creators && s.creators[c].auction == a && s.creators[c].pc == Schedule;
        assert c in t.creators && t.creators[c].auction == a;
      }
    }
  }

  lemma TickStep(s: State, batch: seq<AuctionId>)
    requires Inv(s)
    ensures Inv(Apply(s, Tick(batch)))
  {
    if IsBatch(s, batch) {
      var t := Apply(s, Tick(batch));
      TasksForBatch(batch);
      forall x <- t.tasks ensures TaskOk(t, x) { if x in s.tasks { assert TaskOk(s, x); } }
      OnlyTasksAndEnds(s, t);
    }
  }

  lemma AdvanceStep(s: State, passed: nat)
    requires Inv(s)
    ensures Inv(Apply(s, Advance(passed)))
  {
    forall x <- s.tasks ensures TaskOk(Apply(s, Advance(passed)), x) { assert TaskOk(s, x); }
    OnlyTasksAndEnds(s, Apply(s, Advance(passed)));
  }

  lemma DieStep(s: State, task: Task)
    requires Inv(s)
    ensures Inv(Apply(s, TaskDies(task)))
  {
    var t := Apply(s, TaskDies(task));
    forall x <- t.tasks ensures TaskOk(t, x) { assert x in s.tasks && TaskOk(s, x); }
    OnlyTasksAndEnds(s, t);
  }

  lemma ElsewhereStep(s: State, a: AuctionId)
    requires Inv(s)
    ensures Inv(Apply(s, EndedElsewhere(a)))
  {
    var t := Apply(s, EndedElsewhere(a));
    forall x <- t.tasks ensures TaskOk(t, x) { assert TaskOk(s, x); }
    OnlyTasksAndEnds(s, t);
  }

  /** What an end task leaves behind: an ended auction, or a recorded fault. */
  lemma EndingEffect(s: State, a: AuctionId, written: bool)
    requires Apply(s, TaskEnds(a, written)) != s
    ensures a in s.listings
    ensures var t := Apply(s, TaskEnds(a, written));
            && t.tasks == s.tasks - multiset{Task(a, Ending)} + multiset{Task(a, Removing)}
            && t.listings == (if written then s.listings[a := s.listings[a].(active := false)] else s.listings)
            && s.faults <= t.faults && (!t.listings[a].active || a in t.faults)
            && t.creators == s.creators && t.queue == s.queue && t.now == s.now
  {
  }

  lemma EndingStep(s: State, a: AuctionId, written: bool)
    requires Inv(s)
    ensures Inv(Apply(s, TaskEnds(a, written)))
  {
    var t := Apply(s, TaskEnds(a, written));
    if t != s {
      EndingEffect(s, a, written);
      EndingTasks(s, t, a);
      OnlyTasksAndEnds(s, t);
    }
  }

  lemma EndingTasks(s: State, t: State, a: AuctionId)
    requires (forall x <- s.tasks :: TaskOk(s, x)) && a in s.listings
    requires t.tasks == s.tasks - multiset{Task(a, Ending)} + multiset{Task(a, Removing)}
    requires t.listings == s.listings || t.listings == s.listings[a := s.listings[a].(active := false)]
    requires s.faults <= t.faults && (!t.listings[a].active || a in t.faults)
    ensures forall x <- t.tasks :: TaskOk(t, x)
  {
    forall x <- t.tasks ensures TaskOk(t, x) {
      if x != Task(a, Removing) { assert x in s.tasks && TaskOk(s, x); }
    }
  }

  lemma RemovingStep(s: State, a: AuctionId, ok: bool)
    requires Inv(s)
    ensures Inv(Apply(s, TaskRemoves(a, ok)))
  {
    var t := Apply(s, TaskRemoves(a, ok));
    if t != s {
      assert TaskOk(s, Task(a, Removing));
      forall c <- t.creators ensures CreatorOk(t, c) { assert CreatorOk(s, c); }
      forall x <- t.tasks ensures TaskOk(t, x) { assert TaskOk(s, x); }
      forall x <- t.listings ensures Accounted(t, x) { assert Accounted(s, x); }
    }
  }

  lemma StepKeepsInv(s: State, act: Action)
    requires Inv(s)
    ensures Inv(Apply(s, act))
  {
    match act
    case StartCreate(_, _, _, _, _) => StartStep(s, act);
    case CheckItem(_) => StartStep(s, act);
    case ScheduleListing(c, added, acknowledged) => ScheduleStep(s, c, added, acknowledged);
    case CreatorStops(c) => StopStep(s, c);
    case InsertListing(c, acknowledged) => InsertStep(s, c, acknowledged);
    case TaskEnds(a, written) => EndingStep(s, a, written);
    case TaskRemoves(a, ok) => RemovingStep(s, a, ok);
    case Tick(batch) => TickStep(s, batch);
    case Advance(passed) => AdvanceStep(s, passed);
    case TaskDies(t) => DieStep(s, t);
    case EndedElsewhere(a) => ElsewhereStep(s, a);
  }

  lemma {:induction false} RunKeepsInv(s: State, acts: seq<Action>)
    requires Inv(s)
    ensures Inv(Run(s, acts))
  {
    if acts != [] {
      RunKeepsInv(s, acts[..|acts| - 1]);
      StepKeepsInv(Run(s, acts[..|acts| - 1]), acts[|acts| - 1]);
    }
  }

  /** An active auction is in the schedule at its whole second, about to get there, or hit by a recorded fault. */
  lemma NeverSilentlyLost(acts: seq<Action>, a: AuctionId)
    requires var s := Run(INIT, acts); a in s.listings && s.listings[a].active && a !in s.faults
    ensures var s := Run(INIT, acts);
            || (a in s.queue && s.queue[a] == Unix(s.listings[a].endTime))
            || exists c <- s.creators :: s.creators[c].auction == a && s.creators[c].pc == Schedule
  {
    RunKeepsInv(INIT, acts);
    assert Accounted(Run(INIT, acts), a);
  }

  /** The score of an entry is the whole second of its end time, and it expires when the clock has reached that. */
  lemma ScoreIsWholeSecond(acts: seq<Action>, a: AuctionId)
    requires a in Run(INIT, acts).queue
    ensures var s := Run(INIT, acts);
            && a in s.listings
            && s.queue[a] * 1_000_000_000 <= s.listings[a].endTime < (s.queue[a] + 1) * 1_000_000_000
            && (Expired(s, a) <==> s.queue[a] * 1_000_000_000 <= s.now)
  {
    RunKeepsInv(INIT, acts);
  }

  /**
   An auction can be fetched ahead of its end time exactly within the second that contains both, so by less than
   a second; from its end time on it can always be fetched.
   */
  lemma EarlyOnlyWithinTheSecond(acts: seq<Action>, a: AuctionId)
    requires a in Run(INIT, acts).queue
    ensures var s := Run(INIT, acts);
            && a in s.listings
            && var end := s.listings[a].endTime;
               && (Expired(s, a) && s.now < end <==> s.now < end && Unix(s.now) == Unix(end))
               && (Expired(s, a) ==> end - s.now < 1_000_000_000)
               && (end <= s.now ==> Expired(s, a))
  {
    ScoreIsWholeSecond(acts, a);
    RunKeepsInv(INIT, acts);
  }

  // ---------------------------------------------------------------- what is active

  lemma LiveIsActive(s: State, item: ItemId, a: AuctionId)
    ensures a in Live(s, item) <==> a in s.listings && s.listings[a].item == item && s.listings[a].active
  {
  }

  /** Ending an auction takes it, and only it, out of the active ones of its item. */
  lemma EndingFreesItem(s: State, a: AuctionId, written: bool, item: ItemId)
    requires Inv(s) && Task(a, Ending) in s.tasks
    ensures a in s.listings
    ensures Live(Apply(s, TaskEnds(a, written)), item) == if written then Live(s, item) - {a} else Live(s, item)
  {
    assert TaskOk(s, Task(a, Ending));
  }
}
