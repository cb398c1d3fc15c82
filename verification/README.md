# Verified model of the real-time auction service

The service lets users bid on auctions over a PostgreSQL database, ends auctions from a Redis sorted set,
and broadcasts events over Redis pub/sub. This project models its four concurrent mechanisms and proves what
they guarantee, over every interleaving of every number of calls, and where the promises made for them stop.

Each mechanism has two layers. A **machine** (`State`, a total `Apply`, `Run` as the fold of any sequence of
steps) carries the theorems about all runs. A **class** with the program's own fields performs the same
operations by updating those fields in place, one statement after the other. Its methods take the steps of
other calls that run in between (`others`), the statements that fail (`broken`) and how long a statement
waits for a row lock (`patience`) as parameters, and are proved to do exactly a run of the machine, so every
theorem about runs applies to them; with nothing in between and nothing failing, their answers are pinned
down completely.

| files | content |
|---|---|
| `Domain.dfy`, `Collections.dfy` | rows, identifiers, DECIMAL(10,2) money; cardinalities |
| `BidProtocol.dfy`, `BidInvariant.dfy` | `PlaceBid` and `endAuctionWithResult` statement by statement at Read Committed, with a clock; the inductive invariant |
| `BidSerial.dfy` | the tables as serial commits, refinement of the English auction, the chain of prices |
| `BidPrices.dfy`, `BidAnswers.dfy`, `BidEnds.dfy` | the cached price, the truth of answers to callers, what an ender carries to its write |
| `BidLate.dfy`, `BidReach.dfy`, `BidFinal.dfy` | everything that can still happen after an end, and who can still commit; what is final then |
| `BidHistory.dfy`, `BidPeriod.dfy` | what an end had read; bids and the time they are checked |
| `BidAlone.dfy`, `BidSolo.dfy`, `BidWitnesses.dfy` | a bid nobody disturbs; runs that show what is not promised |
| `BidService.dfy` | the Go functions on shared tables |
| `Lifecycle.dfy`, `LifecycleBounds.dfy`, `LifecycleEnds.dfy`, `LifecycleService.dfy` | creation, schedule, end tasks |
| `Broadcast.dfy`, `BroadcastDelivery.dfy`, `BroadcastWitnesses.dfy`, `BroadcastService.dfy` | the registry of subscriptions and delivery |

What can still happen to an ended auction is described by **plans** (`BidLate.Plan`): sequences of commits of
transactions past their status check and of writes of enders that have read, in which every transaction finds
the price it expects and the holder of the row lock, if it commits, comes first. `PlansAreExact` shows that
runs reach what plans reach, no more and no less; the conditions below are stated with it. `MayLandIff` computes
from the state which transactions some plan has commit.

What the database and Redis are taken to do: a transaction's writes are invisible until its commit; an update
locks its row until commit or rollback; a blocked update evaluates its WHERE clause again when the lock is
released (PostgreSQL 14, section 13.2.1); a sorted set is ordered by (score, member); pub/sub delivers in order
to current subscribers; the client library never repeats by itself a SUBSCRIBE or UNSUBSCRIBE that failed, not
even when it reconnects. Amounts are offered as exact reals in cents and stored rounded to a whole cent.

## Where the code and its documentation disagree

The model follows the code. For each of these promises there is a run that breaks it and the exact condition
under which it holds.

- "Bids are only accepted during auction active periods" (README.md:23). No bid is accepted whose start check
  came before the start time: `NoBidBeforeTheStart`. But nothing looks at the end time, only at the status: a bid
  checked after the end time is accepted as long as nobody has ended the auction. `OverdueBidIff`,
  `BidIsAcceptedAfterTheEndTime`. And the conditional update does not look at the status, so a transaction
  past its check may commit after the end: `LateBidIff` says when there can be one, `LateBidderComputed` which,
  `LateBidsAreBounded` how many at most, `BidCommitsAfterTheEnd` shows one.
- "Bids must exceed the current highest bid amount" (README.md:24). They do while the auction is active:
  `ActiveCommitExceedsHighest`. After an end that restored an older price they need not: `UndercutIff`,
  `BidUndercutsHighest`.
- "Only one active auction per item" (README.md:26): check and insert are separate statements, and two
  overlapping creations both pass the check. `OneActivePerItemIff` says which overlap guarantees it,
  `ActiveReachableIff` what the creations of one state can lead to, `OverlapIsReached` breaks it.
- "Auctions automatically end at their scheduled time" (README.md:27). An end time is cut to its whole second,
  so an auction may be fetched up to a second early: `EarlyOnlyWithinTheSecond`, `AuctionEndsEarly`. The entry
  is removed even if the ending failed, and nothing schedules it again, so that auction stays active for good:
  `SchedulerCanEndIff`, `FailedEndingStrands`.
- An ender writes back the price it read first, so an end can lower the price, and another ender, or a late
  bid, can move it again. `PriceFallsIff`, `PriceIsFinalIff`, `CleanEnd`, `PriceFallsAcrossAnEnd`.
- An announced winner is the highest bidder at the read, not always at the write or later; an error of that
  read is logged and then taken for "no bids". `AnnouncementIsTrueIff`, `WinnerIsFinalIff`, `BidCommitsAfterTheEnd`,
  `UnreadBidEndsWithoutWinner`.
- `GetSubscribers` ignores the auction it is asked for. `GetSubscribersIff`, `GetSubscribersNamesStrangers`.
- A subscription that Redis refuses stays registered and cannot be repaired by asking again.
  `FailedSubscribeIsStuck`, `SubscriberHearsNothing`.
- An unsubscription that Redis refuses is reported as done: the client goes on receiving events of an auction it
  is no longer subscribed to. `HearsIff` says, for every run, what a client is sent; `FormerSubscriberStillHears`.

## Model

| member | source | states |
|---|---|---|
| Domain.StoredIsNearest | scripts/schema.sql:31-43 | an amount is stored as the nearest cent, halves upwards, so a starting price is stored above zero if and only if it is at least half a cent |
| Domain.StoredKeepsUp | scripts/schema.sql:31-43 | an amount above a stored price is stored no lower, and strictly higher if it is in whole cents |
| BidInvariant.HighestNotBelowSnapshot | internal/app/auction.go:225-238 | the highest bid an ender reads second is not below the price it read first, and with no bids that price is the starting price |
| BidInvariant.CommitEffect | internal/adapters/db/bid_repository.go:239-266 | when a bid commits, the committed price is still the expected one, the amount exceeds it, and one row and one price change become visible together |
| BidInvariant.LockTaken | internal/adapters/db/bid_repository.go:239-250 | an update that matches locks exactly its row, which nobody had locked |
| BidInvariant.RollbackEffect | internal/adapters/db/connection.go:69-74 | a rollback gives up only its own writes and locks |
| BidInvariant.WriteEffect | internal/adapters/db/auction_repository.go:185-203 | an end replaces the row by the snapshot, touches no bid, waits for row locks, and its announcement is not below what it writes |
| BidInvariant.StepKeepsInv | internal/app/bid.go:45-137 | every step of every call, failing or not, keeps the invariant |
| BidInvariant.StepGrows | internal/adapters/db/auction_repository.go:185-203 | no step deletes a bid, revives an ended auction, changes a listing, or moves a price without a commit |
| BidInvariant.RunKeepsInv | internal/app/bid.go:45-137 | so does every run |
| BidInvariant.Reachable | internal/app/auction.go:222-273 | every reachable state satisfies the invariant |
| BidSerial.StepIsAtomic | internal/adapters/db/connection.go:56-81 | each step leaves both tables alone or is one enabled compare-and-set, opening or closing on them |
| BidSerial.TablesAreSerial | internal/adapters/db/connection.go:56-81 | after any run the tables are those of the commits executed one after the other, each enabled in turn: a bid one compare-and-set, an end one write of the row in its entry |
| BidSerial.RowsAreAcceptedBids | internal/adapters/db/bid_repository.go:219-266 | all or nothing: the visible bid rows are, in order, the price updates that took effect |
| BidSerial.StepRefinesEnglish | internal/adapters/db/bid_repository.go:207-217 | while active, only a commit shows, and it is an accepted offer of the English auction; all else stutters |
| BidSerial.RunRefinesEnglish | internal/adapters/db/bid_repository.go:187-268 | price and leader of an active auction are those of a serial auction that accepts an offer if and only if it exceeds the highest |
| BidSerial.ActiveChain | internal/adapters/db/bid_repository.go:211-264 | while active, each bid expected the price its predecessor left, the first one the starting price, the last one left the current price |
| BidSerial.RaisesTelescope | internal/adapters/db/bid_repository.go:211-250 | the raises of a chain sum to what it gained |
| BidSerial.RaisesSumUp | internal/app/auction.go:140-142 | while active the raises sum to current less starting price, and none is negative |
| BidSerial.WholeCentsClimb | scripts/schema.sql:31-43 | offers in whole cents raise the stored price strictly |
| BidSerial.StoredNeverFalls | scripts/schema.sql:31-43 | offers in finer units never lower it |
| BidSerial.ExpectationsAreDistinct | internal/adapters/db/bid_repository.go:211-213 | while active no two whole-cent bids were accepted against one price |
| BidPrices.HighestIsMax | internal/adapters/db/bid_repository.go:117-123 | the reference maximum of starting price and own amounts |
| BidPrices.ActivePriceIsHighest | internal/adapters/db/bid_repository.go:207-243 | while active the cached price is that maximum and equals what the highest-bid query returns |
| BidPrices.PriceIsBounded | internal/adapters/db/auction_repository.go:185-203 | in every state the price is the starting price or an own bid's amount, between starting price and maximum |
| BidPrices.PriceFallsIff | internal/adapters/db/auction_repository.go:186-203 | a step lowers a price if and only if it is an ender's write of a lower snapshot to an unlocked row |
| BidPrices.EndedStaysEnded | internal/domain/auction/auction.go:61-64 | an end is final in every run |
| BidPrices.NobodyPassesAfterTheEnd | internal/adapters/db/bid_repository.go:207-209 | no transaction that reads the row after the end passes its status check |
| BidPrices.LateStep | internal/adapters/db/bid_repository.go:239-243 | after the end, a new row is the commit of a transaction that had passed the check, and uses it up |
| BidPrices.LateBidsAreBounded | internal/adapters/db/bid_repository.go:239-243 | bids that commit after an end are at most, and only, those of transactions past their check then |
| BidPrices.AnnouncedNotBelowWritten | internal/app/auction.go:250-266 | over all runs the announced price is not below the one written; with no bids it is the starting price |
| BidPrices.WinnerIsNamedIff | internal/app/auction.go:250-263 | winner and price announced after a read are those of the highest bid it found; none is announced where there are bids if and only if the read failed |
| BidPrices.MismatchMeansProgress | internal/adapters/db/bid_repository.go:211-264 | a bidder whose expected price is gone was overtaken: since its first read somebody else's bid on the auction, or an end of it, took effect |
| BidAnswers.RefusalMeansProgress | internal/adapters/db/bid_repository.go:211-264 | in every run, whoever its transaction turns away for the price was overtaken so, be it at the read or at the update |
| BidAnswers.PastHighest | internal/app/bid.go:96-120 | whoever passes the check against the highest bid offers more than the price it will expect |
| BidAnswers.HonestStep | internal/app/bid.go:65-141 | no step makes an answer, given or about to be given, untrue |
| BidAnswers.AnswersAreTrue | internal/app/bid.go:65-141 | in every run an answer is true of the tables and stays so: TooLow means overtaken or not above some bid, BelowStarting not above the starting price, NotAccepting not active, NotStarted checked before the start, InvalidAmount not positive |
| BidAnswers.LockedUpdateWaits | internal/adapters/db/bid_repository.go:239-250 | an update at its expected price changes nothing while another transaction has the row |
| BidAnswers.LockedWriteWaits | internal/adapters/db/auction_repository.go:186-203 | nor does the write of an end |
| BidAnswers.EndTakesEffect | internal/app/auction.go:265-272 | a call succeeds in ending by the one step that puts its row into the table and its end into the log |
| BidAnswers.HighestReadNeverStops | internal/app/auction.go:238-245 | an ender with its snapshot goes on to its write, whatever becomes of the read of the highest bid |
| BidPrices.PrechecksAreRedundant | internal/app/bid.go:96-120 | an amount the pre-checks refuse would be refused by the transaction in every continuation, whatever price it expected |
| BidPrices.RowsOfCall | internal/adapters/db/bid_repository.go:219-236 | in any state that satisfies the invariant a call owns one row if it committed and none otherwise |
| BidPrices.ExactlyOnce | internal/adapters/db/connection.go:56-81 | the same in every reachable state |
| BidPrices.WaitersProceed | internal/adapters/db/connection.go:69-78 | no deadlock: after the next step of a lock holder every waiting update decides by the price it finds, and every waiting end is written |
| BidEnds.SnapshotStays | internal/app/auction.go:225-266 | an ender's snapshot never changes until the call is over |
| BidEnds.EnderCarriesMaximum | internal/app/auction.go:225-266 | the row an ender carries to its write has the maximum of the bids there were when it read the active auction |
| BidEnds.HighestBidIsLast | internal/adapters/db/bid_repository.go:121-123 | with whole cents, a highest bid on an active auction is the last one to have committed |
| BidEnds.CleanEndNamesLastBidder | internal/app/auction.go:250-252 | with whole cents, the winner read by an ender undisturbed by bids is the last bidder to have committed |
| BidLate.RunFollowsPlan | internal/adapters/db/bid_repository.go:239-243 | whatever a run does to an ended auction, it does by a plan |
| BidLate.PlanIsCarriedOut | internal/adapters/db/bid_repository.go:239-266 | every plan is what some run does, whoever holds the row lock |
| BidLate.PlansAreExact | internal/adapters/db/bid_repository.go:239-243 | prices and bids that runs reach on an ended auction are exactly those of its plans |
| BidLate.LateBidderIff | internal/adapters/db/bid_repository.go:207-243 | a transaction past its check can commit after the end if and only if some plan has it commit |
| BidReach.PlanStaysWithin | internal/adapters/db/bid_repository.go:239-243 | the price after a plan is at most as many steps from a source as transactions commit in it |
| BidReach.PlanTo | internal/adapters/db/bid_repository.go:239-243 | every price within any number of such steps is the price after some plan |
| BidReach.MayLandIff | internal/adapters/db/bid_repository.go:239-243 | some plan has a transaction commit if and only if its expected price is in the closure of the row price and the pending snapshots under the steps from expected to stored price |
| BidReach.LateBidderComputed | internal/adapters/db/bid_repository.go:207-243 | a transaction past its check can commit after the end if and only if its expected price is in that closure |
| BidLate.LateBidIff | internal/adapters/db/bid_repository.go:207-243 | an ended auction can still get a bid if and only if a transaction past its check expects the present price or one an ender is about to write |
| BidFinal.PriceIsFinalIff | internal/adapters/db/auction_repository.go:185-203 | the price of an ended auction is final in all runs if and only if all calls still ending it carry that price and no transaction past its check that expects it would store another |
| BidFinal.AgreementIsFinalIff | internal/adapters/db/auction_repository.go:185-203 | the same condition decides whether price and maximum bid, once they agree, agree in all later states |
| BidFinal.MaximumStaysIff | internal/adapters/db/bid_repository.go:117-123 | a maximum of bids stays one if and only if nothing larger is added |
| BidFinal.CleanEnd | internal/app/auction.go:222-273 | an end writes the row the ender read, marked as ended; its price agrees with the maximum bid if and only if no bid above it committed since the read, then the announced price agrees too, and all stay so if and only if the auction is steady |
| BidFinal.WinnerIsFinalIff | internal/app/auction.go:250-252 | a bid on an ended auction is the highest for good if and only if it is now and no transaction that a plan has commit beats it |
| BidFinal.ActiveCommitExceedsHighest | internal/adapters/db/bid_repository.go:207-217 | every bid that commits on an active auction exceeds the highest bid |
| BidFinal.UndercutIff | internal/adapters/db/bid_repository.go:211-243 | a bid that does not exceed the highest can commit on an ended auction if and only if some plan leaves its expected price below a higher bid |
| BidHistory.EndsReadThePast | internal/app/auction.go:225-266 | in all runs an end writes a row that was there after an earlier commit, and announces what was the highest bid no earlier than that and no later than its write |
| BidHistory.EndIsSerialIff | internal/adapters/db/auction_repository.go:185-203 | an end amounts to one atomic read and write of its row if and only if it carries the price it finds there |
| BidHistory.AnnouncementIsTrueIff | internal/app/auction.go:238-263 | for every end in every run: the announcement is true at the write if and only if no bid it would have to name was accepted since the read, and the read did not fail on an auction with bids |
| BidPeriod.TimelyStep | internal/app/bid.go:71-78 | every step keeps calls past their first checks checked after the start time and by the clock |
| BidPeriod.NoBidBeforeTheStart | internal/app/bid.go:75-78 | in all runs an accepted bid was checked against the start, and created, after the start of its auction |
| BidPeriod.OverdueBidIff | internal/app/bid.go:71-78 | a bid checked at or after the end time can still be accepted if and only if the auction is active, or such a bid is past its check and some plan has it commit |
| BidAlone.VerdictMeans | internal/app/bid.go:65-120 | when each verdict is given, in terms of the row, the bids, the clock and the request; a bid is placed if and only if it is valid and exceeds the starting price and every bid |
| BidAlone.PriceDecides | internal/app/bid.go:95-120 | on an active auction pre-checks and transaction together refuse exactly what does not exceed the highest bid |
| BidAlone.AloneBidIsDecidedByHighest | internal/app/bid.go:45-137 | a bid nobody disturbs ends with the verdict of one comparison with the highest bid, and the right error otherwise |
| BidWitnesses.PriceFallsAcrossAnEnd | internal/app/auction.go:225-266 | a run in which an end lowers the price below what it announces |
| BidWitnesses.BidIsAcceptedAfterTheEndTime | internal/app/bid.go:71-78 | a run in which a bid is accepted long after the end time, with nobody past a check |
| BidWitnesses.BidUndercutsHighest | internal/adapters/db/bid_repository.go:239-243 | a run in which a bid of 15.00 is accepted after one of 20.00 |
| BidWitnesses.CleanEndHappens | internal/app/auction.go:222-273 | a run that ends cleanly with a winner, so that the conditions of `CleanEnd` are met |
| BidWitnesses.BidCommitsAfterTheEnd | internal/adapters/db/bid_repository.go:239-243 | a run in which a bid commits on an auction announced to have had none |
| BidWitnesses.UnreadBidEndsWithoutWinner | internal/app/auction.go:238-242 | a run in which a sold auction ends without a winner |
| BidWitnesses.SubCentBidsTie | scripts/schema.sql:43 | a run in which two accepted bids are stored alike and the earlier one is the highest |
| BidService.Backend.GetByID | internal/adapters/db/auction_repository.go:52-81 | the committed row, or none |
| BidService.Backend.GetHighestBid | internal/adapters/db/bid_repository.go:117-145 | a bid of the auction with the largest amount, earliest among equals, if and only if there is one |
| BidService.Backend.ReadAuctionForBid | internal/app/bid.go:65-93 | the checks on the row read first |
| BidService.Backend.ReadHighestForBid | internal/app/bid.go:95-131 | the checks on the highest bid |
| BidService.Backend.BeginTransaction | internal/adapters/db/connection.go:47-53 | an empty transaction, or an error |
| BidService.Backend.CheckPrice | internal/adapters/db/bid_repository.go:189-217 | the checks inside the transaction |
| BidService.Backend.InsertRow | internal/adapters/db/bid_repository.go:219-236 | the row becomes a pending write |
| BidService.Backend.RaisePrice | internal/adapters/db/bid_repository.go:238-266 | the conditional update: TooLow exactly if the row does not have the expected price, a timeout exactly if it has and is locked, else it takes the lock |
| BidService.Backend.AwaitUpdate | internal/adapters/db/bid_repository.go:239-250 | the update lets other calls run, round after round, until it need not wait any more or its patience is used up |
| BidService.Backend.CommitWrites | internal/adapters/db/connection.go:76-80 | both pending writes become visible at once |
| BidService.Backend.DiscardWrites | internal/adapters/db/connection.go:69-74 | neither does |
| BidService.Backend.FailRollback | internal/adapters/db/connection.go:70-72 | a failing rollback changes the error, not the outcome |
| BidService.Backend.PlaceBidInTx | internal/adapters/db/bid_repository.go:187-268 | the function run inside the transaction, preempted anywhere, is a run of the protocol that ends before commit or rollback |
| BidService.Backend.FinishTransaction | internal/adapters/db/connection.go:69-81 | commit if the function succeeded, rollback if it or the commit failed |
| BidService.Backend.ExecuteTransaction | internal/adapters/db/connection.go:56-81 | the whole transaction, preempted anywhere, is a run of the protocol |
| BidService.Backend.PlaceBid | internal/app/bid.go:45-187 | the whole call, preempted anywhere and with any statement failing, is a run; the answer tells exactly whether one row was inserted, with the requested content and the nearest cent; every refusal is true of the tables, and an error or success of the database means that statements failed or did not; undisturbed, it accepts if and only if the amount exceeds the highest bid |
| BidService.BidIsRecorded | internal/app/bid.go:122-141 | what the answer says about the row |
| BidService.Backend.ReadForEnd | internal/app/auction.go:225-236 | the snapshot, marked as ended, or a refusal |
| BidService.Backend.HighestForEnd | internal/app/auction.go:238-263 | the announcement of what was read, an error read as no bids |
| BidService.Backend.Store | internal/adapters/db/auction_repository.go:185-219 | the unconditional write of the snapshot |
| BidService.Backend.AwaitStore | internal/adapters/db/auction_repository.go:185-203 | the write does so until its row is free or its patience is used up |
| BidService.Backend.EndAuctionWithResult | internal/app/auction.go:222-273 | preempted anywhere it is a run; it is refused if and only if the call ended in failure, and only if there was nothing to end, the read, the write or its acknowledgement failed, or the row stayed locked; otherwise the latest commit is its end, announced as read, not below the written price, and without a winner if the highest bid could not be read; undisturbed, it keeps the price and names the highest bid |
| Lifecycle.TasksForBatch | internal/adapters/scheduler/auction_scheduler.go:127-136 | end tasks for the members of the batch and for nothing else |
| Lifecycle.OneTaskEach | internal/adapters/scheduler/auction_scheduler.go:127-136 | one for each of them |
| Lifecycle.StepKeepsInv | internal/adapters/scheduler/auction_scheduler.go:52-150 | every step of creations, ticks and tasks keeps the invariant |
| Lifecycle.RunKeepsInv | internal/adapters/scheduler/auction_scheduler.go:52-150 | so does every run |
| Lifecycle.NeverSilentlyLost | internal/app/auction.go:157-177 | in every reachable state an active auction is in the schedule at the whole second of its end, or its creation is between insert and schedule, or a fault was recorded for it |
| Lifecycle.ScoreIsWholeSecond | internal/adapters/scheduler/auction_scheduler.go:53-116 | in all runs a score is the number of whole seconds in the end time, and the entry expires when the clock has reached that many seconds |
| Lifecycle.EarlyOnlyWithinTheSecond | internal/adapters/scheduler/auction_scheduler.go:53-116 | an entry is fetched before its end time if and only if both lie in one whole second, so less than a second early; from its end time on it can be fetched |
| Lifecycle.LiveIsActive | internal/adapters/db/auction_repository.go:142-148 | the active auctions of an item are its rows with that status |
| Lifecycle.EndingFreesItem | internal/adapters/scheduler/auction_scheduler.go:143-150 | ending an auction takes it, and only it, out of the active ones of its item |
| LifecycleEnds.StrandedForGood | internal/adapters/scheduler/auction_scheduler.go:140-150 | an active auction without entry, ending task and pending creation stays so in every run of the scheduler |
| LifecycleEnds.ExpiredIsEnded | internal/adapters/scheduler/auction_scheduler.go:108-150 | an expired entry can be reached batch after batch, however many are ahead of it |
| LifecycleEnds.SchedulerCanEndIff | internal/adapters/scheduler/auction_scheduler.go:140-150 | the scheduler can still end an active auction if and only if it has an entry or an ending task, or its creation is about to schedule it |
| LifecycleEnds.AuctionEndsEarly | internal/adapters/scheduler/auction_scheduler.go:53-116 | a run that ends an auction half a second early |
| LifecycleEnds.FailedEndingStrands | internal/adapters/scheduler/auction_scheduler.go:143-150 | a run in which one failed ending leaves an auction active for good |
| LifecycleEnds.ItemIsAuctionedAgain | internal/app/auction.go:118-157 | a run that creates, ends and creates again for one item |
| LifecycleBounds.InsertionMovesOne | internal/app/auction.go:157 | an insert turns one creation past its check into one active auction |
| LifecycleBounds.CountStep | internal/app/auction.go:118-131 | only a passed check adds to active auctions plus creations past the check, and it starts from none |
| LifecycleBounds.ActiveWithinOverlap | internal/app/auction.go:118-157 | with at most k overlapping creations an item has at most k active auctions and creations past the check |
| LifecycleBounds.OverlapIsReached | internal/app/auction.go:118-157 | for every n, n overlapping creations can leave n active auctions |
| LifecycleBounds.OneActivePerItemIff | README.md:26 | an overlap of at most k creations guarantees one active auction per item if and only if k is at most one |
| LifecycleBounds.NoNewcomers | internal/app/auction.go:118-157 | without another passed check, active auctions plus creations past theirs never grow |
| LifecycleBounds.ActiveReachableIff | internal/app/auction.go:118-157 | without another passed check an item can get n active auctions if and only if those it has and the creations past their check make up n |
| LifecycleBounds.TickServesTen | internal/adapters/scheduler/auction_scheduler.go:112-116 | a tick that passes an entry by takes ten entries ahead of it |
| LifecycleBounds.SchedulingKeepsRank | internal/adapters/scheduler/auction_scheduler.go:52-58 | an entry added now was already counted among those to come |
| LifecycleBounds.CreationKeepsRank | internal/app/auction.go:95-111 | a later creation cannot overtake an entry that is due |
| LifecycleBounds.StepKeepsRank | internal/adapters/scheduler/auction_scheduler.go:108-150 | no step but a tick changes a due entry's place for the worse, except by one for a task that leaves its entry behind |
| LifecycleBounds.TicksConsumeRank | internal/adapters/scheduler/auction_scheduler.go:108-137 | ten times the ticks and the rank add up to no more than the rank at the start and the entries left behind |
| LifecycleBounds.FetchedInTime | internal/adapters/scheduler/auction_scheduler.go:108-137 | if f tasks die or fail to remove their entry, a due entry of rank r is fetched within floor((r+f)/10)+1 ticks; floor(r/10)+1 if none does |
| LifecycleService.Backend.GetActiveByItemID | internal/adapters/db/auction_repository.go:142-182 | exactly the rows of the item that are active |
| LifecycleService.Backend.CheckActive | internal/app/auction.go:118-131 | goes on if and only if there are none |
| LifecycleService.Backend.Save | internal/app/auction.go:133-160 | the row is there even if only its acknowledgement is lost, and not if the starting price is below half a cent |
| LifecycleService.Backend.ScheduleAuction | internal/adapters/scheduler/auction_scheduler.go:52-71 | an entry whose score is the number of whole seconds in the end time, a recorded fault, or both if only the reply is lost |
| LifecycleService.Backend.CreateAuction | internal/app/auction.go:48-180 | preempted anywhere it is a run; a refused request changes nothing and names its first defect; an item is refused only if it has an active auction, and undisturbed exactly then; a created auction is listed as requested and queued unless that failed; errors mean that a statement failed or the price is below half a cent |
| LifecycleService.Backend.Earliest | internal/adapters/scheduler/auction_scheduler.go:112-116 | the first member by score, then by name |
| LifecycleService.Backend.ZRangeByScore | internal/adapters/scheduler/auction_scheduler.go:112-116 | at most ten entries whose second has come, ordered by second and then by name; any other such entry comes after ten |
| LifecycleService.Backend.CheckExpiredAuctions | internal/adapters/scheduler/auction_scheduler.go:108-137 | fetches a batch and starts one task for each of its members |
| LifecycleService.Backend.EndAuction | internal/adapters/scheduler/auction_scheduler.go:140-186 | whatever becomes of the ending and whoever runs before the removal, the entry is removed, and the auction is over or has a recorded fault |
| LifecycleService.EndsWithoutLoss | internal/adapters/scheduler/auction_scheduler.go:143-150 | ending and removal, with any steps in between, keep the invariant |
| LifecycleService.CreatedIsScheduled | internal/app/auction.go:166-177 | after a creation has returned, its active auction is scheduled or faulty |
| Broadcast.RunKeepsInv | internal/adapters/broadcaster/redis_broadcaster.go:50-142 | in all runs the three maps have the same keys, no inner map is empty or holds false, each client has its own open channel, and no buffer exceeds its capacity |
| Broadcast.PairsStep | internal/adapters/broadcaster/redis_broadcaster.go:258-268 | each operation adds or removes exactly its own pair |
| Broadcast.RegistryIsASetOfPairs | internal/adapters/broadcaster/redis_broadcaster.go:50-142 | a client is subscribed if and only if its last operation on the auction was a subscribe, registered if and only if subscribed to anything, and its listener's target is its registered channel |
| Broadcast.LastUnsubscribeMaps | internal/adapters/broadcaster/redis_broadcaster.go:110-125 | a client that leaves disappears from all three maps, and its own channel is closed and no other |
| Broadcast.HearsIff | internal/adapters/broadcaster/redis_broadcaster.go:87-133 | in all runs, whatever errors anybody met, Redis sends a client what its own operations since it registered say: a new subscription that Redis accepts begins it, an unsubscription that Redis accepts or leaving altogether ends it |
| Broadcast.SyncedStep | internal/adapters/broadcaster/redis_broadcaster.go:87-133 | a step in which Redis refuses no operation of the client keeps what it is sent and what it is subscribed to the same |
| Broadcast.RunSynced | internal/adapters/broadcaster/redis_broadcaster.go:87-133 | in a session in which Redis refused none of the client's own operations, whatever others met, it hears of exactly the auctions it is subscribed to |
| Broadcast.FailedSubscribeIsStuck | internal/adapters/broadcaster/redis_broadcaster.go:55-92 | from any state, a new subscription is heard, then and in all later states until it is cancelled, if and only if Redis accepted it or was sending already |
| Broadcast.GetSubscribersIff | internal/ports/outbound/broadcaster.go:39-40 | the answer is the auction's subscribers if and only if everybody subscribed to anything is one |
| BroadcastWitnesses.GetSubscribersNamesStrangers | internal/adapters/broadcaster/redis_broadcaster.go:176-186 | a run after which a client of another auction is among the subscribers |
| BroadcastWitnesses.SubscriberHearsNothing | internal/adapters/broadcaster/redis_broadcaster.go:55-92 | a run in which Redis refuses a subscription once and its events never arrive |
| BroadcastWitnesses.FormerSubscriberStillHears | internal/adapters/broadcaster/redis_broadcaster.go:126-135 | a run in which Redis refuses an unsubscription and the client receives an event of that auction |
| BroadcastDelivery.OwnListen | internal/adapters/broadcaster/redis_broadcaster.go:217-227 | the listener drops an event if and only if the channel is full |
| BroadcastDelivery.RunDelivers | internal/adapters/broadcaster/redis_broadcaster.go:145-234 | over all runs, with or without Redis errors, what Redis sent in a session is what the listener handled plus what is on its way, and what was put on the channel is what was received plus the buffer |
| BroadcastDelivery.DeliveryKeepsOrder | internal/adapters/broadcaster/redis_broadcaster.go:200-234 | over all runs, what reaches the channel in a session is an order-preserving subsequence of what Redis sent, and received in that order, within the capacity |
| BroadcastDelivery.OwedIsPublished | internal/adapters/broadcaster/redis_broadcaster.go:145-174 | in a session in which Redis refused none of the client's own operations, Redis sent exactly what was published to the auctions it was subscribed to at that moment |
| BroadcastDelivery.SubscriberSeesSubsequence | internal/adapters/broadcaster/redis_broadcaster.go:145-234 | in such a session the client sees an order-preserving subsequence of what was published to its auctions, whatever errors others met |
| BroadcastDelivery.DropsOnlyWhenFull | internal/adapters/broadcaster/redis_broadcaster.go:223-227 | in every reachable state the event taken is put on the channel if and only if it is not full |
| BroadcastService.RedisBroadcaster.Subscribe | internal/adapters/broadcaster/redis_broadcaster.go:50-99 | adds exactly its pair, keeps the registry, registers even if Redis refuses |
| BroadcastService.RedisBroadcaster.Unsubscribe | internal/adapters/broadcaster/redis_broadcaster.go:102-142 | removes exactly its pair; the last one closes channel and connection |
| BroadcastService.RedisBroadcaster.IsSubscribed | internal/adapters/broadcaster/redis_broadcaster.go:258-268 | membership in the set of pairs |
| BroadcastService.RedisBroadcaster.GetSubscribersOf | internal/adapters/broadcaster/redis_broadcaster.go:176-186 | every registered client once, whatever the auction |
| BroadcastService.RedisBroadcaster.Publish | internal/adapters/broadcaster/redis_broadcaster.go:145-174 | the event arrives at the connections subscribed to its auction |
| BroadcastService.RedisBroadcaster.TrySend | internal/adapters/broadcaster/redis_broadcaster.go:223-227 | appends to the channel unless it is full |
| BroadcastService.RedisBroadcaster.ListenOnce | internal/adapters/broadcaster/redis_broadcaster.go:209-233 | one round of the listener |
| BroadcastService.ListenerTargetIsOpen | internal/adapters/broadcaster/redis_broadcaster.go:200-234 | the listener never sends on a closed channel while its client is registered |

## Left out

- WebSocket server, handlers, worker pool, message parsing and validation: services are called with arbitrary arguments.
- User and item lookups are booleans, RFC 3339 parsing yields an optional time, UUIDs are fresh numbers. Schedule members are auction ids by type, so the branch of `checkExpiredAuctions` for an unparsable member is not modelled.
- `CreateAuction`'s `uuid.New()` is drawn when the call starts instead of just before the insert.
- `updated_at`, `created_at` of auctions and the `status` column of bids, which the service only ever writes as accepted.
- Float64 representation and DECIMAL(10,2) overflow: an amount is an exact real, and an overflow is one of the ways in which a statement fails.
- All instances of the service read one clock, which never goes back; skew between machines is not modelled. A bidder's read of the auction row and its check of the start time are one step.
- BidService.Backend.AwaitUpdate: a statement waits for a row lock any finite number of rounds, then times out; a statement that waits for ever is left to the machine. The same holds for `AwaitStore`.
- BidService.Backend.PlaceBid: the subscription check is a parameter; the subscribe and publish after a successful bid (bid.go lines 142-184) are not tied to the broadcaster model.
- BidService.Backend.ExecuteTransaction: a panic inside the transaction function is not modelled.
- LifecycleService.Backend.EndAuction: the steps of other calls leave it its own task; the end event it publishes is not tied to the broadcaster model.
- LifecycleBounds.FetchedInTime: for ticks that come when no task is left and whose fetches succeed; an entry whose second is still the current one can be overtaken.
- Lifecycle assumes the scheduler is set; between the start of the scheduler and `SetScheduler` no request is served (cmd/auction-service/main.go lines 97-121).
- Broadcaster `Close`, after which the registry is no longer consistent, and a channel that is closed by a handler: the first subscription of a client is required to bring an open channel that serves nobody else.
- Publishing is atomic with its arrival at the connections; a message that cannot be decoded is not modelled.
- Repository methods the services never call (`Delete`, `UpdateCurrentPrice`, bid `Create` and `Update`), listings with pagination, plain getters: easy members only.
- Internals of PostgreSQL, Redis and their client libraries beyond the rules stated above.
