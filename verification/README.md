# Inventory reservation: model and proofs

A Dafny model of the reservation engine: `ReservationService` working on an
`InMemoryRepository`, its critical sections serialised per product by `LockManager`. Three
structures have to tell the same story: the product counters, the reservation records and
the event log. Every operation touches all three in separate repository calls, so agreement
is broken and restored inside each critical section, and only the product lock hides this.

## How it is built

- **Values.** `Domain` (products, reservations, events), `Ids` (`res-n`, `evt-n`), `Stores`
  (the repository's contents as a value, the effect of each repository call, and `Restrict`,
  the slice that concerns one product). `Accounts` says what holds of a slice when nobody is
  inside the product's section, in two parts: `Kept` holds however the product is swept
  (records under their keys, a log that replays to records and counters, events that name
  them, stock and sales not negative); `Exact` besides, as long as no reservation is ended
  twice (counters equal to record counts, one ending per reservation, times that match).
- **One critical section.** `Section` has the code run under a product lock as a program
  counter `Cs` and a function `Step` that makes one repository call, clock read or id draw at a
  time. `SectionInvariant` states what holds between any two calls: the slice with the pending
  calls carried out is `Kept`, or `Exact`. `Locality` shows that a section reads and writes its
  own slice only.
- **All threads.** `Interleaving` is the transition system: any number of threads, one operation
  each, split at every lock-map call, lock, unlock, clock read, id draw and repository call,
  with unlocked lookups and snapshots as steps of their own. `Next` takes one scheduled step,
  `Exec` a whole schedule. `Params.guarded` adds to the sweep's loop a check, under the lock,
  that the reservation is still Active; the code has no such check, so `Params(false, holdFor)`
  is the code as written. `Safety` proves the invariant of both.
- **Sound schedules.** A schedule is sound (`SoundRun`) if every step that ends a reservation
  loaded, under the lock, an Active one: what the comment on `expireReservationLocked` asks of
  its callers. With the check every schedule is sound; without it, every schedule nobody sweeps
  in, and every schedule in which nobody else ends what a sweep has collected (`SweepRuns`).
  Soundness is exactly what the counters need: `Endings.CountersFollowIffSound`.
- **What an observer can rely on.** `Settling` sees a schedule as a sequence of whole transitions
  of each slice. `Guarantees` says what holds of every schedule of the code as written, races
  included, and then what holds of every sound one. `Endings` counts how often a schedule ends
  what has ended and says exactly what comes of it: how far each counter is out, which ended
  states change, when the log has one ending per reservation. `Replies` says that every call
  is answered, whatever else goes on, with what it asked for.
- **Atomicity.** `Refinement` simulates each schedule, sound or not, by a machine that runs whole
  sections at once; `Meaning` proves that complete sections are the whole operations
  (`ReserveMeans`, `ConfirmEffect`, `CancelEffect`, `SweepMeans`); `Linearization` puts the two
  together. `Laws` says what whole operations do without reference to the order of their calls,
  record by record, counter by counter and event by event,
  `Isolation` that different products do not see each other, `Transparency` what sweeping
  changes for callers.
- **What goes wrong.** `SweepRace` has a run of the code as written from one unit of stock to two
  live holds, `SaleRace` one in which a sale already reported is turned into an expiry. `Solo`
  composes undisturbed runs.
- **Contention and progress.** `Contention` counts the winners of a crowd of ReserveItem calls,
  `ContentionDemo` is the demo's driver, `Progress` shows that no schedule deadlocks or runs for
  ever. All three hold with and without the re-check.
- **Objects.** `Repository` and `Service` are the classes, with the source's methods and loops
  over maps in no particular order, each tied to the operations above (`ServiceSpec`).

## Where code and documents differ

- `internal/application/reservation_service.go:254-257` says callers of
  `expireReservationLocked` have verified under the lock that the reservation is Active, and
  `specs/05-expiry.md` (EX-R4, EX-R5) promises that each hold is expired once and counters stay
  consistent under concurrency. `ExpireReservations` collects before it locks and does not look
  again (lines 227-238), so both fail under interleaving: `SweepRace.SweepRaceOversells`,
  `SaleRace.SweepUndoesASale`. The second of these runs also breaks the promises that terminal
  states are final (`specs/02-reservation-lifecycle.md` RL-R5) and that counters are not negative
  (`specs/01-stock-formula.md` SF-R3). The model keeps the code as it is and has the exact
  conditions, for every schedule:
  - the counters agree with the records if and only if no step ends what has ended
    (`Endings.CountersFollowIffSound`); otherwise the active counter is short by one unit for each
    such step and the confirmed one ahead by one for each sale expired (`Endings.CountersDrift`);
  - SF-R3: the active counter is negative exactly where those steps outnumber the holds
    (`Endings.NegativeHolds`); the confirmed counter never is;
  - RL-R5: ended states are final if and only if no step ends a Confirmed or a Cancelled
    reservation (`Endings.StatesFinalIffHarmless`);
  - EX-R4: a product's log has one ending per ended reservation if and only if no step ends what
    has ended there (`Endings.LogIsExactIffEndedOnce`);
  - available stock is never negative (SF-R2), and sales and holds on record exceed the stock by
    no more than the Cancelled and Expired reservations expired again
    (`Guarantees.NoOverselling`, `Endings.OversellBound`).

  That the log replays, ids are unique, dropped errors never occur, operations are atomic and
  products are isolated survives the race.
- `specs/06-concurrency.md` CO-R4 and the check in `cmd/contention-demo/main.go:72` say that of
  K > N concurrent calls exactly N succeed. That is so if and only if no hold is expired before
  the last call comes (`Contention.DemoOutcome`, `ContentionDemo.Run`); a call two minutes late
  succeeds as well (`ContentionDemo.SlowDemoFails`).
- `specs/03-reserve-item.md` RI-R2 says a refusal for lack of stock mutates nothing. The code
  appends a ReserveRejected event. `Laws.RefusalOnlyLogs` proves that this event is the only
  change, after any race too: a refusal never finds a stale hold to expire.

## Assumptions about the environment

Clock readings never decrease and a sweep's `now` is at most any later reading; products are
added before the run, with non-negative total stock and zero counters, as `cmd/server/main.go`
lines 121-123 do; fewer than 2^64 ids are drawn; one process. `holdFor` is arbitrary unless a
statement says it is positive.

## Model

| member | source | states |
|---|---|---|
| Ids.DecimalReads | internal/application/reservation_service.go:55-57 | the rendering of a counter value is digits without a leading zero that, read back, give the value |
| Ids.NumeralIsDecimal | internal/application/reservation_service.go:55-57 | and no other string is |
| Ids.MakeIdReads | internal/application/reservation_service.go:55-57 | an id is its prefix, a dash and the numeral of the counter value, and only that string is |
| Ids.IdText | internal/application/reservation_service.go:61-108 | the two kinds of id read "res-n" and "evt-n" |
| Ids.MakeIdInjective | internal/application/reservation_service.go:55-57 | two draws give the same id only if prefix and counter value agree |
| Ids.CounterIsNew | internal/application/reservation_service.go:55-57 | the next draw, with either prefix, differs from every id drawn before |
| Stores.SlicesDetermine | internal/infrastructure/in_memory_repository.go:13-18 | two repositories that agree on every product's slice hold the same products and reservations and the same log of each product |
| Accounts.EndKeepsKept | internal/application/reservation_service.go:258-276 | ending a reservation in time, even one that has ended already, keeps the books: keyed rows, a log that replays to records and counters, events that name records, a log of Reserved, at most one ending and then expiries only, sales and stock not negative |
| Accounts.EndKeepsQuiet | internal/application/reservation_service.go:161-178 | ending an Active hold also keeps counters equal to record counts, no count negative, one ending per reservation and event times equal to the stamps |
| Accounts.AddHoldKeepsKept | internal/application/reservation_service.go:107-126 | creating a hold under a fresh id while stock is available keeps the books |
| Accounts.AddHoldKeepsQuiet | internal/application/reservation_service.go:107-126 | and the exact accounts |
| Accounts.RejectKeepsQuiet | internal/application/reservation_service.go:96-106 | logging a refusal keeps both: ReserveRejected is neutral |
| Accounts.ReplayCounts | internal/domain/event.go:8-14 | folding any log gives active = Reserved - Confirmed - Cancelled - Expired and confirmed = Confirmed |
| Accounts.ReplayLast | internal/domain/event.go:8-14 | the state a replay gives a reservation is the one its last event names |
| SectionInvariant.MidStep | internal/application/reservation_service.go:86-129 | every call made under the lock, by any sweep, in all branches and in mid-iteration of the loops, keeps the section invariant; the exact one too if a record about to be ended is Active |
| SectionInvariant.PromiseKept | internal/application/reservation_service.go:254-258 | everybody who ends a reservation, but a sweep that does not look again, has loaded an Active one |
| SectionInvariant.MidOffsets | internal/application/reservation_service.go:115-119 | mid-section each counter differs from the number of records it caches by exactly the offset the program counter fixes, and stock is not negative |
| SectionInvariant.SettledMoves | internal/application/reservation_service.go:86-129 | with the pending calls carried out, every call made under the lock is one whole transition (an ending, a new hold, a refusal) or changes no more than an event id |
| Locality.StepLocal | internal/application/reservation_service.go:86-129 | a call made under p's lock acts on the whole repository as on p's slice, and no other slice changes |
| Interleaving.ExecConcat | internal/application/reservation_service.go:83-242 | schedules compose: running one and then another is running both |
| Safety.NextKeepsInv | internal/application/reservation_service.go:83-242 | every step of every thread keeps the global invariant, of the code as written and with the re-check; the exact one if the step is sound |
| Safety.ExecKeepsInv | internal/application/reservation_service.go:83-242 | so does every schedule of any number of threads; the exact one every sound schedule |
| Safety.OnlySweepsEndTwice | internal/application/reservation_service.go:234-239 | a step that ends what has ended is a sweep's expiry, without the re-check |
| Safety.GuardedRunsAreSound | internal/application/reservation_service.go:234-239 | with an Active re-check under the lock every schedule is sound |
| Safety.ExecEvolves | internal/application/reservation_service.go:83-242 | over every schedule records are never deleted and keep what identifies them, all that can change in one that has ended is that it is expired at another time, total stock is fixed and the log grows |
| Safety.MutualExclusion | internal/infrastructure/lock_manager.go:30-35 | at most one thread is inside the section of a product |
| Safety.NextKeepsLocks | internal/infrastructure/lock_manager.go:18-35 | lock discipline (own mutex per key, holder inside) is kept by every step |
| Refinement.RunLocal | internal/application/reservation_service.go:83-242 | a whole section run on a slice is the section run on the repository, whatever other products contain |
| Refinement.StoreIsGlimpse | internal/application/reservation_service.go:226-231 | what a lock-free snapshot or stock reading finds of each product is the atomic store, or that after some of the calls of one section of a thread whose atomic action is still to come |
| Refinement.StepSimulates | internal/application/reservation_service.go:83-288 | each interleaved step is matched by nothing or by one whole-section action of the same thread, which changes no product somebody is inside |
| Meaning.ReserveRun | internal/application/reservation_service.go:86-129 | every complete run of ReserveItem's section expires exactly p's stale holds in some order and then refuses or adds one hold |
| Meaning.ConfirmRun | internal/application/reservation_service.go:141-180 | every complete run of ConfirmReservation's section is `ConfirmEffect` at one clock reading |
| Meaning.CancelRun | internal/application/reservation_service.go:192-219 | every complete run of CancelReservation's section is `CancelEffect` at one clock reading |
| Meaning.SweepRun | internal/application/reservation_service.go:234-239 | every complete run of a sweep's section expires the ids it was given, or those still Active if it re-checks, and counts them |
| Laws.ReserveDecision | internal/application/reservation_service.go:87-115 | ReserveItem succeeds iff the product exists and total stock exceeds sales plus live holds, whatever stale holds nobody swept; the two errors otherwise |
| Laws.ReserveByCounter | internal/application/reservation_service.go:87-115 | of any store, one a race has left included: ReserveItem succeeds iff the product exists and available stock and what its stale holds give back come to more than nothing |
| Laws.TidyStock | internal/application/reservation_service.go:96-96 | of any store at rest, one a race has left included: sales and available stock are not negative |
| Laws.RefusalOnlyLogs | internal/application/reservation_service.go:96-106 | where available stock is not negative, as it never is after any schedule, a refusal for lack of stock finds no stale hold, changes no record or counter, and logs one event: ReserveRejected of this product for this user at this time, "out of stock", naming no reservation |
| Laws.ReserveRecords | internal/application/reservation_service.go:87-115 | afterwards p's stale holds are Expired with the stamp `now`, a success has added exactly one hold under a new id, of this product for this user, Active, created now and ending `holdFor` later, without end stamps; nothing else changed, and no stale hold of p is left |
| Laws.ReserveLogs | internal/application/reservation_service.go:98-126 | the log grows by one Expired event for each stale hold of p, then by the Reserved event of the new hold or the refusal, each with its fields; by nothing else |
| Laws.ReserveCounts | internal/application/reservation_service.go:116-119 | p's active counter loses one for each stale hold and gains one for a success, and nothing else in p's record changes |
| Laws.HoldIsTimely | internal/application/reservation_service.go:107-114 | a hold made at t can be confirmed at any time before t + holdFor, and the sale bears that time; from then on it is refused as expired |
| Laws.ReserveKeepsOrder | internal/application/reservation_service.go:83-131 | ReserveItem keeps every product's books, and its exact accounts, in order as far as they were, and leaves other products' counters alone |
| Laws.ConfirmLaws | internal/application/reservation_service.go:134-182 | of any store at rest, one a race has left included: confirmation succeeds iff the hold is Active and in time; in every case the error or the sold record with its stamp, both counters, the one event logged, field by field, and nothing else; keeps books and exact accounts as far as they were |
| Laws.CancelLaws | internal/application/reservation_service.go:185-221 | of any store at rest: cancellation succeeds iff the hold is Active, lapsed or not; in every case the error or the cancelled record with its stamp, the counter, the one event logged, field by field, and nothing else; keeps books and exact accounts as far as they were |
| Laws.SweepEffect | internal/application/reservation_service.go:225-242 | of any store: records, counters and total of a sweep alone are functions of store and time, not of map order; each stale hold is expired once and none is left |
| Laws.SweepLogs | internal/application/reservation_service.go:225-242 | it logs one Expired event for each stale hold, with its product, reservation and user, at the time of the sweep |
| Laws.SweepKeepsOrder | internal/application/reservation_service.go:225-242 | and it keeps books and exact accounts as far as they were |
| Laws.SweepTwice | internal/application/reservation_service.go:225-242 | a second sweep at the same time expires nothing and changes nothing |
| Laws.SweepsCompose | internal/application/reservation_service.go:225-242 | sweeping at t1 and then at t2 >= t1 gives the counters, the summed count and, but for expiry times, the records of sweeping at t2 |
| Linearization.AStepIsOperation | internal/application/reservation_service.go:83-288 | each atomic action is one whole operation with the meaning above, at a clock reading in order; a sweep collects exactly what is stale in a glimpse of the store, a stock reading is the available stock of one |
| Linearization.Linearizable | internal/application/reservation_service.go:83-288 | every schedule of the code as written has a run of whole operations, each by its own thread between call and return, with the same results and the same slice of every product nobody is inside; exact accounts throughout if it is sound |
| Linearization.LinearizableAtRest | internal/application/reservation_service.go:83-288 | once all calls have returned, the very same products, reservations and per-product logs |
| Guarantees.LogReplays | internal/application/reservation_service.go:60-64 | of every schedule: whenever nobody is inside p's section, replaying p's log gives every reservation's state and both counters |
| Guarantees.LastEventIsState | internal/application/reservation_service.go:270-276 | of every schedule: and the last event naming a reservation names its state |
| Guarantees.EventsNameRecords | internal/application/reservation_service.go:270-276 | of every schedule, at every instant: each logged event has the user and product of the record it names; a refusal names none and gives its reason |
| Guarantees.RowsAreKept | internal/infrastructure/postgres/migrations/0001_shadow_persistence.sql:10-25 | of every schedule, at every instant: rows sit under their ids, products exist, each row bears the stamp of its state, confirmedAt < expiresAt <= expiredAt |
| Guarantees.IdsAreUnique | internal/application/reservation_service.go:55-64 | of every schedule, at every instant: event ids are distinct, none is a reservation id, drawn and unstored ids of either kind are new to the store and to other threads, every stored id is `res-n` or `evt-n` with n at most the counter |
| Guarantees.DiscardedErrorsNeverHappen | internal/application/reservation_service.go:258-269 | of every schedule: every update whose error is dropped and every re-fetch under the lock finds its record, in the product of the lock held |
| Guarantees.RecordsStay | internal/application/reservation_service.go:258-269 | of every schedule: nothing is deleted or changes id, product, user or window, an ended record stays as it was but for being Expired at another time, its other stamps untouched, total stock is fixed, the log only grows |
| Guarantees.LocksSerialise | internal/infrastructure/lock_manager.go:18-35 | of every schedule: distinct keys have distinct mutexes and no two threads are inside the same product |
| Guarantees.BindingsAreStable | internal/infrastructure/lock_manager.go:18-27 | a key once bound keeps its mutex for the rest of any schedule |
| Guarantees.NoOverselling | internal/application/reservation_service.go:282-288 | of every schedule, at every instant: sales and available stock are not negative, and no stock reading ever returned is |
| Guarantees.LogLanguageAsWritten | internal/application/reservation_service.go:120-126 | of every schedule: when nobody is inside, the events naming a reservation are Reserved, at most one ending and any number of expiries, the last naming its state; at other instants at most one event is missing |
| Guarantees.EventsTellTheTime | internal/application/reservation_service.go:270-276 | of every schedule, at every instant: the time of a Reserved, Confirmed or Cancelled event is the stamp its reservation bears for it; after a sound schedule that of an Expired event, too |
| Guarantees.GuardedReachesSoundly | internal/application/reservation_service.go:234-239 | what is reached with an Active re-check under the lock is reached soundly, so the statements about sound schedules hold of it |
| Guarantees.HoldsAreNonNegative | internal/application/reservation_service.go:282-288 | of every sound schedule, at every instant: the number of holds is not negative |
| Guarantees.LogLanguage | internal/application/reservation_service.go:120-126 | of every sound schedule: the events naming a reservation are a prefix of Reserved then its one ending, and the whole word of its state when nobody is inside |
| Guarantees.RowsAreValid | internal/infrastructure/postgres/migrations/0001_shadow_persistence.sql:10-25 | of every sound schedule, at every instant: stored rows satisfy the schema's checks |
| Endings.SoundIffNoneTwice | internal/application/reservation_service.go:254-258 | a schedule is sound iff it makes no second ending in any product |
| Endings.CountersDrift | internal/application/reservation_service.go:258-269 | of every schedule, at every instant: besides the offset of the thread inside, the active counter is short of the Active records by exactly the number of steps that ended what had ended, the confirmed one ahead by exactly the number of sales expired |
| Endings.CountersFollowIffSound | internal/application/reservation_service.go:225-258 | for every schedule of the code as written: the counters equal the record counts plus the offset of the thread inside, where it leads and then at every instant on the way, if and only if every step that ended a reservation had loaded an Active one under the lock |
| Endings.CountersFollowRecords | internal/application/reservation_service.go:115-119 | of every sound schedule, at every instant: counters are record counts plus the offset of the thread inside, and exactly record counts where nobody is |
| Endings.NegativeHolds | internal/application/reservation_service.go:258-269 | of every schedule, at every instant: the active counter is negative iff second endings outnumber the Active records, the offset of the thread inside apart |
| Endings.OversellBound | internal/application/reservation_service.go:107-119 | of every schedule, at every instant: sales and holds on record exceed total stock by at most the number of Cancelled and Expired reservations that were expired again |
| Endings.StatesFinalIffHarmless | internal/application/reservation_service.go:146-166 | for every schedule: what has ended never changes its state if and only if no step ends a Confirmed or a Cancelled reservation |
| Endings.NextFinalIff | internal/application/reservation_service.go:258-265 | and so of each single step |
| Endings.EndingsAreFinal | internal/application/reservation_service.go:146-166 | after every sound continuation a record that had ended is the same as it was, its times included |
| Endings.LogIsExactIffEndedOnce | internal/application/reservation_service.go:270-276 | for every schedule and every product nobody is inside: the log has for each reservation of it exactly Reserved and the one ending its state names, if and only if no step ended a reservation of it that had ended |
| Replies.EveryReplyAnswers | internal/application/reservation_service.go:83-288 | of every schedule: a hold returned by ReserveItem is for the product and user asked for, made between call and return and good for the hold time; a sale or cancellation is of the reservation asked for, made between call and return, a sale in time; each is on record; an unknown product or reservation was unknown, a hold refused as expired is Expired, one refused as finalized has ended |
| Replies.IdsAreNumbered | internal/application/reservation_service.go:55-64 | of every schedule, at every instant: reservation ids read "res-n" and event ids "evt-n" with n a decimal numeral between 1 and the counter |
| SweepRuns.SweepEndsWhatItSaw | internal/application/reservation_service.go:225-242 | of every schedule: when a sweep has returned, every hold that was stale when it took its snapshot has ended |
| SweepRuns.SweepCountsItsMoves | internal/application/reservation_service.go:232-241 | of every schedule: a sweep returns how many reservations it expired; if the schedule is sound, how many it moved from Active to Expired |
| SweepRuns.UndisturbedRunsAreSound | internal/application/reservation_service.go:225-242 | if nobody else ends a collected reservation before the sweep reaches it, the schedule of the code as written is sound |
| SweepRuns.UndisturbedRunsAreGuarded | internal/application/reservation_service.go:225-242 | and takes the very steps of the re-checking system |
| SweepRuns.WithoutSweepsAsWritten | internal/application/reservation_service.go:83-221 | with no sweep among the threads every schedule is sound: reserve, confirm and cancel need no re-check |
| SweepRace.UnguardedSectionExact | internal/application/reservation_service.go:234-239 | a sweep's section as written, run by itself, leaves counters equal to record counts if and only if every id it was handed is still Active |
| SweepRace.StepsCoincide | internal/application/reservation_service.go:254-258 | a step as written is the re-checking step iff the caller's promise (still Active) holds at that step |
| SweepRace.SweepRaceOversells | internal/application/reservation_service.go:225-242 | a schedule of the code as written that takes one unit of stock to two live holds, both reported as successes |
| SaleRace.SweepUndoesASale | internal/application/reservation_service.go:225-242 | a schedule of the code as written in which a confirmed sale later becomes Expired and the active counter is -1 |
| Solo.SoloReserve | internal/application/reservation_service.go:83-131 | undisturbed from call to return, the interleaved ReserveItem reaches exactly what the sequential operation computes |
| Solo.SoloSweep | internal/application/reservation_service.go:225-242 | undisturbed from call to return, the interleaved sweep over all its products is the sequential sweep, with or without the re-check |
| Contention.WinnersAreTheFirst | cmd/contention-demo/main.go:45-72 | K calls, A available, no hold expired on the way: every schedule gives min(K, A) successes, the first to take the lock, the rest out of stock, A - min(K, A) left |
| Contention.PromptCrowd | cmd/contention-demo/main.go:45-63 | no hold is expired on the way if the clock stays below the end of every hold |
| Contention.DemoOutcome | cmd/contention-demo/main.go:45-72 | on a freshly seeded product with more calls than stock: exactly `stock` successes, all others out of stock and nothing left, if and only if no hold was expired on the way |
| ContentionDemo.Tally | cmd/contention-demo/main.go:41-60 | the three counters are the numbers of successes, refusals and other errors |
| ContentionDemo.EverybodyWantsOne | cmd/contention-demo/main.go:34-48 | the demo starts with "sku-hot" alone in stock and every goroutine about to reserve it under a name "user-" and its number |
| ContentionDemo.UserNameReads | cmd/contention-demo/main.go:48-48 | such a name spells its number with three digits or more |
| ContentionDemo.Run | cmd/contention-demo/main.go:30-76 | bad arguments are refused; otherwise, whatever the interleaving and however long it takes, the demo's own check passes if and only if no hold was expired |
| ContentionDemo.FastDemoPasses | cmd/contention-demo/main.go:37-63 | none is, if every call comes within the two minutes of the hold |
| ContentionDemo.SlowDemoFails | cmd/contention-demo/main.go:72-74 | a schedule over in two minutes with one unit of stock and two successes, the second at the end |
| Progress.WaiterEnabled | internal/infrastructure/lock_manager.go:30-35 | a thread waiting for p's mutex can go on iff nobody is inside p's section |
| Progress.NoDeadlock | internal/infrastructure/lock_manager.go:18-35 | while an operation has not returned, some thread can move |
| Progress.NextShrinks | internal/application/reservation_service.go:83-288 | every step lowers a measure in which snapshots are bounded by the reservations there are or may yet be |
| Progress.SchedulesAreFinite | internal/application/reservation_service.go:83-288 | no schedule is longer than the measure of where it starts |
| Progress.EverybodyReturns | internal/application/reservation_service.go:83-288 | every schedule can be continued until all operations have returned |
| Isolation.OthersUnaffected | internal/application/reservation_service.go:86-129 | a section leaves every other product's slice, and what can be started on it, as it was |
| Isolation.SectionsCommute | internal/application/reservation_service.go:232-241 | sections of different products, a sweep's shares included, fit in either order with the same results, counters, records and per-product logs |
| Transparency.ReserveVerdict | internal/application/reservation_service.go:87-106 | ReserveItem gives the same success and the same hold but for its id, or the same error, in two histories that differ by sweeps |
| Transparency.FinishVerdict | internal/application/reservation_service.go:146-159 | so do confirm and cancel, except that cancelling a lapsed hold may come too late; the other error of a confirm then needs a hold that was cancelled after it lapsed |
| Transparency.SweepsAreInvisible | internal/application/reservation_service.go:225-242 | over whole histories from related stores, inserting sweeps anywhere changes no other result beyond that |
| Transparency.SweepTransparency | internal/application/reservation_service.go:225-242 | the same from one and the same store |
| Repository.InMemoryRepository.constructor | internal/infrastructure/in_memory_repository.go:21-27 | no product, no reservation, no event |
| Repository.InMemoryRepository.AppendEvent | internal/infrastructure/in_memory_repository.go:30-34 | appends to the log and changes nothing else |
| Repository.InMemoryRepository.AllEvents | internal/infrastructure/in_memory_repository.go:37-43 | the log in insertion order |
| Repository.InMemoryRepository.AddProduct | internal/infrastructure/in_memory_repository.go:46-51 | inserts or replaces a product under its own id |
| Repository.InMemoryRepository.GetProduct | internal/infrastructure/in_memory_repository.go:54-62 | the product, or the zero record and false |
| Repository.InMemoryRepository.UpdateProduct | internal/infrastructure/in_memory_repository.go:67-75 | applies the closure to a known product and returns its error; an unknown one is an error and changes nothing |
| Repository.InMemoryRepository.SaveReservation | internal/infrastructure/in_memory_repository.go:78-83 | inserts or replaces a reservation under its own id |
| Repository.InMemoryRepository.GetReservation | internal/infrastructure/in_memory_repository.go:86-94 | the reservation, or the zero record and false |
| Repository.InMemoryRepository.UpdateReservation | internal/infrastructure/in_memory_repository.go:97-105 | applies the closure to a known reservation and returns its error; an unknown one is an error and changes nothing |
| Repository.InMemoryRepository.ActiveReservationsByProduct | internal/infrastructure/in_memory_repository.go:108-118 | copies of exactly the product's Active reservations, each once, in some order |
| Repository.InMemoryRepository.AllActiveReservations | internal/infrastructure/in_memory_repository.go:121-131 | copies of exactly the Active reservations, each once, in some order |
| Repository.LockManager.LockFor | internal/infrastructure/lock_manager.go:18-27 | a bound key keeps its mutex, a new key gets one no other key has, no other binding appears |
| Repository.LockManager.Lock | internal/infrastructure/lock_manager.go:32-32 | takes a mutex nobody holds |
| Repository.LockManager.Unlock | internal/infrastructure/lock_manager.go:33-33 | gives back a held mutex |
| Repository.FakeClock.Advance | internal/infrastructure/clock.go:36-40 | moves the clock by the given amount |
| Service.DefaultIsTwoMinutes | internal/application/reservation_service.go:14-48 | with hold time zero a hold made at t is sold at any time before t + 120 seconds and refused as expired from then on |
| Service.ReservationService.constructor | internal/application/reservation_service.go:29-53 | on a freshly seeded repository the service starts in order; a zero hold time becomes 2 * 60 * 10^9 nanoseconds |
| Service.ReservationService.NextID | internal/application/reservation_service.go:55-57 | draws the next counter value; the id reads as the prefix, a dash and its decimal numeral |
| Service.ReservationService.AppendEvent | internal/application/reservation_service.go:60-64 | logs the event under the next event id, "evt-" and the counter value |
| Service.ReservationService.ExpireReservationLocked | internal/application/reservation_service.go:258-279 | expires the reservation whatever its state and gives one unit back |
| Service.ReservationService.ExpireForProductLocked | internal/application/reservation_service.go:246-252 | expires exactly the product's stale holds, each once, in some order |
| Service.DecideText | internal/application/reservation_service.go:107-114 | the hold ReserveItem makes: its fields, and "res-" with the counter value as its id |
| Service.ReservationService.DecideLocked | internal/application/reservation_service.go:91-128 | unknown product, refusal with a logged event, or a new hold with counter and event; the hold field by field, an empty record beside an error |
| Service.ReservationService.ReserveLocked | internal/application/reservation_service.go:86-129 | lazy expiry followed by the decision |
| Service.ReservationService.ReserveItem | internal/application/reservation_service.go:83-131 | keeps the service in order; succeeds iff stock exceeds sales plus live holds; the hold is for this product and user, made now and ending `holdFor` later, its id "res-" and the counter value; an empty record beside an error; no stale hold of the product is left |
| Service.ReservationService.ConfirmLocked | internal/application/reservation_service.go:141-180 | the closure under the lock is `ConfirmEffect` at the clock's time; the record stamped with that time, an empty one beside an error |
| Service.ReservationService.ConfirmReservation | internal/application/reservation_service.go:134-182 | unknown id changes nothing; otherwise `ConfirmEffect`; the sold record, an empty one beside an error; keeps the service in order |
| Service.ReservationService.CancelLocked | internal/application/reservation_service.go:192-219 | the closure under the lock is `CancelEffect` at the clock's time; the record stamped with that time, an empty one beside an error |
| Service.ReservationService.CancelReservation | internal/application/reservation_service.go:185-221 | unknown id changes nothing; otherwise `CancelEffect`; the cancelled record, an empty one beside an error; keeps the service in order |
| Service.ReservationService.CollectStale | internal/application/reservation_service.go:226-231 | groups exactly the stale holds of the snapshot by product, each once |
| Service.ReservationService.ExpireGroup | internal/application/reservation_service.go:234-239 | expires the given ids one after the other and counts them |
| Service.ReservationService.ExpireGroups | internal/application/reservation_service.go:232-241 | visits all groups in no particular order; all stale holds are expired once |
| Service.ReservationService.ExpireReservations | internal/application/reservation_service.go:225-242 | expires exactly the stale holds, returns how many, keeps the service in order |
| Service.ReservationService.GetAvailableStock | internal/application/reservation_service.go:282-288 | total stock minus sold minus held records, never negative; error for an unknown product |
| Service.ReservationService.GetReservation | internal/application/reservation_service.go:291-293 | the stored record, or the zero record and false |
| Service.ReservationService.Events | internal/application/reservation_service.go:296-298 | the log |
| Service.ReserveSpecLaws | internal/application/reservation_service.go:83-131 | the sequential ReserveItem keeps accounts and ids in order and decides by sales and live holds |
| Service.ReserveSpecFacts | internal/application/reservation_service.go:83-131 | the sequential ReserveItem has the meaning proved of the interleaved one, and uses each id once |
| ServiceSpec.EndAllConcat | internal/application/reservation_service.go:233-240 | expiring one list and then another is expiring both, ids drawn in order |

## Left out

- Guarantees.HoldsAreNonNegative: about sound schedules, as are `Guarantees.LogLanguage`, `Guarantees.RowsAreValid`, `Endings.CountersFollowRecords`, `Endings.EndingsAreFinal` and the times of Expired events in `Guarantees.EventsTellTheTime`; `SweepRace.SweepRaceOversells` and `SaleRace.SweepUndoesASale` show that the code as written has others, and `Endings` says what happens then.
- Service.ReservationService.ReserveItem: the class is for a caller who is alone; its clock stands still during a call. Concurrent callers are the subject of the transition system, where the clock moves between calls.
- Repository.LockManager.Lock: `With` takes a callback that changes the heap, which a Dafny method cannot, so callers write lock, closure, unlock; mutexes are numbers in the order they were made.
- ContentionDemo.Run: goroutines, channel and wait group are the schedule it is given; it starts from what they left behind.
- `*domain.Reservation` and `*domain.ProductInventory` map entries are values in the maps: every read hands out a copy and every update goes through the repository, so aliasing is not visible.
- The repository's and the lock map's own mutexes: each call is one atomic step. Mutex fairness, blocking time and the Go memory model.
- `time.Time` and `time.Duration` as machine types: times are integers. Timers and the ticker that calls the sweep.
- Wrap-around of the id counter and of the stock counters; the latter are bounded by total stock in sound schedules (`Endings.CountersDrift` says how far they are out in others).
- `ShadowRecorder`: an observer whose only effect on the engine is one more read.
- The Postgres repository and migrations, except for the row checks of the schema.
- HTTP handlers, metrics, Redis, flags, seed parsing, health checks; `context.Context`, which no decision uses.
- Restart, several replicas, and adding products during a run.
