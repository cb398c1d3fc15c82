/** Whether the scheduler can still end an auction, and runs in which it ends one early or never. */
module LifecycleEnds {
  import opened Domain
  import opened Lifecycle

  // ---------------------------------------------------------------- whether an auction can still be ended

  /** What can still bring the scheduler to end `a`: an entry, a task, or a creation about to add the entry. */
  predicate Endable(s: State, a: AuctionId) {
    a in s.queue || Task(a, Ending) in s.tasks || BeingCreated(s, a)
  }

  predicate IsOver(s: State, a: AuctionId) { a in s.listings && !s.listings[a].active }

  /** Nobody but the scheduler ends `a`. */
  predicate ByScheduler(acts: seq<Action>, a: AuctionId) { EndedElsewhere(a) !in acts }

  ghost predicate CanBeEnded(s: State, a: AuctionId) {
    exists acts :: ByScheduler(acts, a) && IsOver(Run(s, acts), a)
  }

  predicate Stranded(s: State, a: AuctionId) {
    a in s.listings && s.listings[a].active && !Endable(s, a)
  }

  lemma StrandedStep(s: State, act: Action, a: AuctionId)
    requires Inv(s) && Stranded(s, a) && act != EndedElsewhere(a)
    ensures Stranded(Apply(s, act), a)
  {
    match act
    case Tick(batch) => TasksForBatch(batch);
    case ScheduleListing(c, _, _) =>
      StrandedCreation(s, a);
    case InsertListing(c, _) =>
      if CreatorAt(s, c, Insert) { assert CreatorOk(s, c); }
      StrandedCreation(s, a);
    case StartCreate(_, _, _, _, _) => StrandedCreation(s, a);
    case CheckItem(_) => StrandedCreation(s, a);
    case CreatorStops(_) => StrandedCreation(s, a);
    case _ => StrandedTasks(s, act, a);
  }

  lemma StrandedCreation(s: State, a: AuctionId)
    requires Stranded(s, a)
    ensures forall c <- s.creators :: s.creators[c].auction == a ==> !s.creators[c].pc.Schedule?
  {
  }

  lemma StrandedTasks(s: State, act: Action, a: AuctionId)
    requires Stranded(s, a) && act != EndedElsewhere(a)
    requires act.Advance? || act.TaskEnds? || act.TaskRemoves? || act.TaskDies? || act.EndedElsewhere?
    ensures Stranded(Apply(s, act), a)
  {
    match act
    case TaskEnds(b, written) => if Apply(s, act) != s { StrandedEnding(s, b, written, a); }
    case TaskRemoves(b, ok) => StrandedRemoval(s, b, ok, a);
    case Advance(passed) => StaysStranded(s, s.(now := s.now + passed), a);
    case EndedElsewhere(b) => if b in s.listings { StaysStranded(s, Close(s, b), a); }
    case TaskDies(t) => StaysStranded(s, s.(tasks := s.tasks - multiset{t}), a);
  }

  lemma StrandedRemoval(s: State, b: AuctionId, ok: bool, a: AuctionId)
    requires Stranded(s, a)
    ensures Stranded(Apply(s, TaskRemoves(b, ok)), a)
  {
    StaysStranded(s, Apply(s, TaskRemoves(b, ok)), a);
  }

  lemma StrandedEnding(s: State, b: AuctionId, written: bool, a: AuctionId)
    requires Stranded(s, a) && Apply(s, TaskEnds(b, written)) != s
    ensures Stranded(Apply(s, TaskEnds(b, written)), a)
  {
    var t := Apply(s, TaskEnds(b, written));
    EndingEffect(s, b, written);
    assert Task(b, Ending) in s.tasks;
    StaysStranded(s, t, a);
  }

  lemma StaysStranded(s: State, t: State, a: AuctionId)
    requires Stranded(s, a)
    requires t.creators == s.creators && t.queue.Keys <= s.queue.Keys
    requires a in t.listings && t.listings[a].active
    requires Task(a, Ending) in t.tasks ==> Task(a, Ending) in s.tasks
    ensures Stranded(t, a)
  {
    assert BeingCreated(t, a) ==> BeingCreated(s, a);
  }

  lemma {:induction false} StrandedForGood(s: State, acts: seq<Action>, a: AuctionId)
    requires Inv(s) && Stranded(s, a) && ByScheduler(acts, a)
    ensures Stranded(Run(s, acts), a)
  {
    if acts != [] {
      StrandedForGood(s, acts[..|acts| - 1], a);
      RunKeepsInv(s, acts[..|acts| - 1]);
      StrandedStep(Run(s, acts[..|acts| - 1]), acts[|acts| - 1], a);
    }
  }

  // There is always a batch to fetch.

  lemma {:induction false} FirstInOrder(s: State, rest: set<AuctionId>) returns (first: AuctionId)
    requires rest != {} && rest <= s.queue.Keys
    ensures first in rest && forall a <- rest | a != first :: Before(s, first, a)
  {
    first :| first in rest;
    if rest != {first} {
      var other := FirstInOrder(s, rest - {first});
      var chosen := if Before(s, other, first) then other else first;
      forall a <- rest | a != chosen ensures Before(s, chosen, a) {
        if a != first { assert a == other || Before(s, other, a); }
      }
      first := chosen;
    }
  }

  lemma {:induction false} BatchOf(s: State, rest: set<AuctionId>, room: nat) returns (batch: seq<AuctionId>)
    requires rest <= s.queue.Keys
    ensures |batch| <= room && forall a <- batch :: a in rest
    ensures forall i, j :: 0 <= i < j < |batch| ==> Before(s, batch[i], batch[j])
    ensures forall a <- rest | a !in batch :: |batch| == room && forall b <- batch :: Before(s, b, a)
    decreases room
  {
    if rest == {} || room == 0 {
      batch := [];
    } else {
      var first := FirstInOrder(s, rest);
      var others := BatchOf(s, rest - {first}, room - 1);
      batch := [first] + others;
    }
  }

  lemma BatchExists(s: State) returns (batch: seq<AuctionId>)
    ensures IsBatch(s, batch)
  {
    var due := set a | a in s.queue && Expired(s, a);
    batch := BatchOf(s, due, BATCH_SIZE);
  }

  lemma RunOne(s: State, x: Action)
    ensures Run(s, [x]) == Apply(s, x)
  {
    assert [x][..0] == [];
  }

  lemma RunTwo(s: State, x: Action, y: Action)
    ensures Run(s, [x, y]) == Apply(Apply(s, x), y)
  {
    RunOne(s, x);
    assert [x, y][..1] == [x];
  }

  lemma RunThree(s: State, x: Action, y: Action, z: Action)
    ensures Run(s, [x, y, z]) == Apply(Apply(Apply(s, x), y), z)
  {
    RunTwo(s, x, y);
    assert [x, y, z][..2] == [x, y];
  }

  /** Task and entry of `b` are seen through. */
  lemma TaskIsDone(s: State, b: AuctionId, written: bool)
    requires Task(b, Ending) in s.tasks && b in s.listings && s.listings[b].active
    ensures var t := Apply(Apply(s, TaskEnds(b, written)), TaskRemoves(b, true));
            && t.queue == s.queue - {b} && t.now == s.now && t.creators == s.creators
            && t.tasks == s.tasks - multiset{Task(b, Ending)}
            && t.listings == s.listings[b := s.listings[b].(active := !written)]
            && t.faults == if written then s.faults else s.faults + {b}
  {
    var m := Apply(s, TaskEnds(b, written));
    assert m.tasks == s.tasks - multiset{Task(b, Ending)} + multiset{Task(b, Removing)};
    assert Task(b, Removing) in m.tasks;
    assert m.tasks - multiset{Task(b, Removing)} == s.tasks - multiset{Task(b, Ending)};
    assert !written ==> s.listings == s.listings[b := s.listings[b].(active := true)];
  }

  lemma TaskIsSeenThrough(s: State, b: AuctionId)
    requires Task(b, Ending) in s.tasks && b in s.listings
    ensures var t := Apply(Apply(s, TaskEnds(b, true)), TaskRemoves(b, true));
            t.queue == s.queue - {b} && t.now == s.now && IsOver(t, b)
  {
    var m := Apply(s, TaskEnds(b, true));
    assert Task(b, Removing) in m.tasks;
  }

  lemma TickStarts(s: State, batch: seq<AuctionId>, b: AuctionId)
    requires IsBatch(s, batch) && b in batch
    ensures var t := Apply(s, Tick(batch));
            Task(b, Ending) in t.tasks && t.queue == s.queue && t.listings == s.listings && t.now == s.now
  {
    TasksForBatch(batch);
  }

  /** A fetched entry is ended and removed. */
  lemma ServeOne(s: State, batch: seq<AuctionId>, b: AuctionId)
    requires Inv(s) && IsBatch(s, batch) && b in batch
    ensures var t := Run(s, [Tick(batch), TaskEnds(b, true), TaskRemoves(b, true)]);
            Inv(t) && t.queue == s.queue - {b} && t.now == s.now && IsOver(t, b)
  {
    RunThree(s, Tick(batch), TaskEnds(b, true), TaskRemoves(b, true));
    TickStarts(s, batch, b);
    assert Expired(s, b);
    TaskIsSeenThrough(Apply(s, Tick(batch)), b);
    RunKeepsInv(s, [Tick(batch), TaskEnds(b, true), TaskRemoves(b, true)]);
  }

  /** Batch after batch the entries ahead are served, and then `a`. */
  lemma {:induction false} ExpiredIsEnded(s: State, a: AuctionId) returns (acts: seq<Action>)
    requires Inv(s) && Expired(s, a)
    ensures ByScheduler(acts, a) && IsOver(Run(s, acts), a)
    decreases |s.queue|
  {
    var batch := BatchExists(s);
    var b := if a in batch then a else batch[0];
    acts := [Tick(batch), TaskEnds(b, true), TaskRemoves(b, true)];
    ServeOne(s, batch, b);
    if b != a {
      var t := Run(s, acts);
      assert b in s.queue && |t.queue| < |s.queue| by { assert t.queue.Keys == s.queue.Keys - {b}; }
      var more := ExpiredIsEnded(t, a);
      RunConcat(s, acts, more);
      acts := acts + more;
    }
  }

  lemma QueuedIsEnded(s: State, a: AuctionId) returns (acts: seq<Action>)
    requires Inv(s) && a in s.queue
    ensures ByScheduler(acts, a) && IsOver(Run(s, acts), a)
  {
    var due := s.queue[a] * NANOS_PER_SECOND;
    var passed := if s.now < due then due - s.now else 0;
    var t := Apply(s, Advance(passed));
    RunOne(s, Advance(passed));
    AdvanceStep(s, passed);
    var more := ExpiredIsEnded(t, a);
    RunConcat(s, [Advance(passed)], more);
    acts := [Advance(passed)] + more;
  }

  lemma EndableIsEnded(s: State, a: AuctionId) returns (acts: seq<Action>)
    requires Inv(s) && Endable(s, a)
    ensures ByScheduler(acts, a) && IsOver(Run(s, acts), a)
  {
    if Task(a, Ending) in s.tasks {
      assert TaskOk(s, Task(a, Ending));
      RunOne(s, TaskEnds(a, true));
      acts := [TaskEnds(a, true)];
    } else if a in s.queue {
      acts := QueuedIsEnded(s, a);
    } else {
      var c :| c in s.creators && s.creators[c].auction == a && s.creators[c].pc == Schedule;
      var t := Apply(s, ScheduleListing(c, true, true));
      RunOne(s, ScheduleListing(c, true, true));
      ScheduleStep(s, c, true, true);
      var more := QueuedIsEnded(t, a);
      RunConcat(s, [ScheduleListing(c, true, true)], more);
      acts := [ScheduleListing(c, true, true)] + more;
    }
  }

  /**
   The scheduler can still end an active auction if and only if the auction has an entry or a task that is
   ending it, or its creation is about to schedule it. Once it has none of these it never gets one.
   */
  lemma SchedulerCanEndIff(s: State, a: AuctionId)
    requires Inv(s) && a in s.listings && s.listings[a].active
    ensures CanBeEnded(s, a) <==> Endable(s, a)
  {
    if Endable(s, a) {
      var acts := EndableIsEnded(s, a);
    } else {
      forall acts | ByScheduler(acts, a) ensures !IsOver(Run(s, acts), a) { StrandedForGood(s, acts, a); }
    }
  }

  // ---------------------------------------------------------------- runs

  /** Call 0 creates auction 0, which ends at `endTime`. */
  function Creation(endTime: Time): seq<Action> {
    [StartCreate(0, 0, 0, 0, endTime), CheckItem(0)] + [InsertListing(0, true), ScheduleListing(0, true, true)]
  }

  /** Call 0 has found item 0 free. */
  function Checked(endTime: Time): State {
    State(0, map[], map[0 := Creator(0, 0, endTime, Insert)], map[], multiset{}, {})
  }

  lemma RunStart(endTime: Time)
    requires 0 <= endTime
    ensures Run(INIT, [StartCreate(0, 0, 0, 0, endTime), CheckItem(0)]) == Checked(endTime)
  {
    RunTwo(INIT, StartCreate(0, 0, 0, 0, endTime), CheckItem(0));
    assert !Taken(INIT, 0);
    var m := INIT.(creators := map[0 := Creator(0, 0, endTime, Check)]);
    assert Apply(INIT, StartCreate(0, 0, 0, 0, endTime)) == m;
    assert Live(m, 0) == {};
  }

  /** Auction 0 is active and scheduled. */
  function Created(endTime: Time): State {
    State(0, map[0 := Listing(0, endTime, true)], map[0 := Creator(0, 0, endTime, Returned)],
          map[0 := Unix(endTime)], multiset{}, {})
  }

  lemma RunFinish(endTime: Time)
    ensures Run(Checked(endTime), [InsertListing(0, true), ScheduleListing(0, true, true)]) == Created(endTime)
  {
    RunTwo(Checked(endTime), InsertListing(0, true), ScheduleListing(0, true, true));
    assert Apply(Checked(endTime), InsertListing(0, true))
        == State(0, map[0 := Listing(0, endTime, true)], map[0 := Creator(0, 0, endTime, Schedule)],
                 map[], multiset{}, {});
  }

  lemma RunCreation(endTime: Time)
    requires 0 <= endTime
    ensures Run(INIT, Creation(endTime)) == Created(endTime)
  {
    RunStart(endTime);
    RunFinish(endTime);
    RunConcat(INIT, [StartCreate(0, 0, 0, 0, endTime), CheckItem(0)],
              [InsertListing(0, true), ScheduleListing(0, true, true)]);
  }

  function Fetch(written: bool): seq<Action> { [Tick([0]), TaskEnds(0, written), TaskRemoves(0, true)] }

  /** Auction 0 was fetched, and its entry is gone. */
  function Served(endTime: Time, written: bool): State {
    State(0, map[0 := Listing(0, endTime, !written)], map[0 := Creator(0, 0, endTime, Returned)],
          map[], multiset{}, if written then {} else {0})
  }

  lemma OneIsFetched(endTime: Time)
    requires Unix(endTime) == 0
    ensures IsBatch(Created(endTime), [0])
    ensures Apply(Created(endTime), Tick([0])) == Created(endTime).(tasks := multiset{Task(0, Ending)})
  {
    assert [0][..0] == [];
    assert TasksFor([0]) == multiset{Task(0, Ending)};
  }

  lemma RunFetch(endTime: Time, written: bool)
    requires 0 <= endTime && Unix(endTime) == 0
    ensures Run(INIT, Creation(endTime) + Fetch(written)) == Served(endTime, written)
  {
    RunCreation(endTime);
    RunConcat(INIT, Creation(endTime), Fetch(written));
    RunThree(Created(endTime), Tick([0]), TaskEnds(0, written), TaskRemoves(0, true));
    OneIsFetched(endTime);
    TaskIsDone(Created(endTime).(tasks := multiset{Task(0, Ending)}), 0, written);
    assert map[0 := Unix(endTime)] - {0} == map[];
  }

  /** An auction that ends at half a second past 0 is ended at 0. */
  lemma AuctionEndsEarly() returns (acts: seq<Action>)
    ensures var s := Run(INIT, acts);
            && ByScheduler(acts, 0)
            && IsOver(s, 0) && s.now < s.listings[0].endTime == 500_000_000
  {
    acts := Creation(500_000_000) + Fetch(true);
    RunFetch(500_000_000, true);
  }

  /** One failed ending, and the auction stays active for good: the entry is removed all the same. */
  lemma FailedEndingStrands() returns (acts: seq<Action>)
    ensures var s := Run(INIT, acts);
            && Stranded(s, 0) && s.faults == {0} && s.tasks == multiset{}
            && forall more | ByScheduler(more, 0) :: Stranded(Run(s, more), 0)
  {
    acts := Creation(0) + Fetch(false);
    RunFetch(0, false);
    RunKeepsInv(INIT, acts);
    var s := Served(0, false);
    assert !BeingCreated(s, 0);
    forall more | ByScheduler(more, 0) ensures Stranded(Run(s, more), 0) { StrandedForGood(s, more, 0); }
  }

  function Again(endTime: Time): seq<Action> {
    [StartCreate(1, 1, 0, 0, endTime), CheckItem(1), InsertListing(1, true)]
  }

  lemma SecondCheck(endTime: Time)
    requires 0 <= endTime
    ensures var s := Served(endTime, true);
            Apply(Apply(s, StartCreate(1, 1, 0, 0, endTime)), CheckItem(1)) ==
            s.(creators := s.creators[1 := Creator(0, 1, endTime, Insert)])
  {
    var s := Served(endTime, true);
    var m := s.(creators := s.creators[1 := Creator(0, 1, endTime, Check)]);
    assert !Taken(s, 1);
    assert Apply(s, StartCreate(1, 1, 0, 0, endTime)) == m;
    assert Live(m, 0) == {};
    assert m.creators[1 := Creator(0, 1, endTime, Insert)] == s.creators[1 := Creator(0, 1, endTime, Insert)];
  }

  lemma RunAgain(endTime: Time)
    requires 0 <= endTime
    ensures Run(Served(endTime, true), Again(endTime)).listings
         == map[0 := Listing(0, endTime, false), 1 := Listing(0, endTime, true)]
  {
    RunThree(Served(endTime, true), StartCreate(1, 1, 0, 0, endTime), CheckItem(1), InsertListing(1, true));
    SecondCheck(endTime);
  }

  /** The item of an ended auction can be auctioned again. */
  lemma ItemIsAuctionedAgain(endTime: Time) returns (acts: seq<Action>)
    requires 0 <= endTime && Unix(endTime) == 0
    ensures Run(INIT, acts).listings == map[0 := Listing(0, endTime, false), 1 := Listing(0, endTime, true)]
  {
    RunFetch(endTime, true);
    RunAgain(endTime);
    RunConcat(INIT, Creation(endTime) + Fetch(true), Again(endTime));
    acts := Creation(endTime) + Fetch(true) + Again(endTime);
  }
}
