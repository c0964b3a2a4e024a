# opto-sync: a verified model of its coordination and consistency core

opto-sync is an offline-first synchronisation toolkit. This project models, in Dafny, the parts of it
that decide *who may act, in what order, and what counts as done*, and proves what they promise over
whole runs. `dafny verify dfyconfig.toml` checks the whole project.

## What is modelled

**The desktop coordination table** (`LeaseTable`, `SqliteDesktop`, `LeaseRuns`, `LeaseHistory`,
`WakeAndRun`, `SqliteDrain`, `LeaseStores`). Processes share one row per lease key: owner token, fence, expiry, wake generation and
handled generation. `LeaseTable` says what each immediate transaction does to the table.
`SqliteDesktop.SqliteDesktopCoordinator` is the coordinator object, its methods proved against those
transactions. `LeaseRuns` is the whole system: any number of Rust and TypeScript runners, foreign users of
the coordinator, crashes, and a store clock that may read anything at any step, backwards included.
`LeaseHistory` derives every row, every committed write and every runner's place from the steps of the run.
`WakeAndRun` is the synchronous runner itself with its two loops, `SqliteDrain` the drain coroutine of the
TypeScript one. `LeaseStores` puts the in-memory and the
SQLite store behind one interface and refines both to one register.

**The hybrid logical clock** (`Text`, `Decimal`, `Hlc`, `Clock`, `Causality`, `Json`, `ObserveTree`). The
fixed-width text format and its parser, the clock object with its persistence, many devices exchanging
timestamps with crashes and rollback of the wall clock, and the client that walks an incoming document.

**The protocol scheduler** (`Scheduler`, `SchedulerHistory`). Nineteen events, unbounded generations, a guard per
event and a defensive check on every successor; then every field, and which events are accepted, from the accepted
events alone.

**The mutation queue** (`PushQueue`, `QueueRuns`, `PushClient`, `ExactlyOnce`, `ServerLedger`). The queue of the PHP client
as a value, over runs from the empty and from a restored queue, as the client object that changes it row by
row, and composed with a deduplicating server and a network that loses, repeats and reorders everything.
`ServerLedger` says exactly which pushes that server takes, and what each step does to a client.

**Read reconciliation** (`ReadModel`, `ReadDelivery`, `ReadOverlay`, `ReadReconciliation`). Authoritative rows by revision,
delivered in any number of batches, then pending intent replayed on top, and what each record then shows.

**Runners around the lifecycle machine** (`Lifecycle`, `DesktopRunner`, `DesktopHistory`). The Rust `run_once` with its drop
guard, over a store lock that others can poison, and the TypeScript runner as one coroutine interleaved,
microtask by microtask, with wakes, close and timeouts, and with a clock, a token factory, a lease store and a
lifecycle observer that call back into the runner. `DesktopHistory` follows its drain from step to step. `Positions`
states conditions on the positions of a run: a property that holds since some step, a value that a step set last.

## How the model stands for the code

- Fences and generations are natural numbers. The code stores them as canonical decimal text;
  `Decimal.ParseDecimalExact` shows the two are in bijection up to the limit.
- Every 64-bit limit that the code tests is written out (`I64_MAX`, `U64_MAX`, `PHP_INT_MAX`, 13 decimal
  and 4 hexadecimal digits). Other integers are unbounded.
- Strings are sequences of characters; the length of an identifier or payload stands for its length in
  bytes, and character order for the byte order of the encoded text (they agree for UTF-8).
- Clock readings, tokens, callback results, what other processes do between two transactions, and what the
  network delivers are inputs, chosen freely at every step. A transaction that fails leaves the table as it was.
- A store-clock reading is an `int`. A Rust process refuses a negative one. A TypeScript process takes it, but
  the schema's check on the update time refuses every write of a coordination row then; what is left, a busy
  answer and a fenced write, is modelled as such (`LeaseRuns.WaitsAtNegative`, `LeaseTable.FencedWrite`).
- A panic of the timestamp formatter is `None` in `Clock`. In `Causality` it is a crash of that device,
  which comes back from its persistence.
- The history variables of `LeaseRuns` (`time`, `issued`, `writes`, `successes`, `begin`, `seen`) only
  record; no guard reads them, and `HistoryHolds` ties them to the run.
- The server of `ExactlyOnce` is the one that `docs/SYNC_PROTOCOL_V1.md` and `formal/README.md` describe;
  its decision to accept or reject a new mutation, the checkpoint and revision that it attaches to each result, its
  own checkpoint and its watermark field are free.
- A host exports a mutation before it sends it (`ExactlyOnce.Saved`), as `clients/php/README.md` asks; between
  an enqueue and its export a crash may lose the mutation.
- A run of the TypeScript runner is followed up to the first undefined lifecycle event that it throws, or the
  first moment at which two of its drains run beside each other. A timer callback never runs before a queued
  microtask.

## Where the code falls short of a general statement

Each of these is a proved result with a concrete run or input. Where it says "exactly", the condition is
necessary and sufficient.

- Two live clocks over one persistence slot: a device can reload a value below one it has issued, and issue
  a smaller timestamp later (`Causality.SharedStoreGoesBack`, for every pair of clocks that shares a slot).
  With one slot per clock it never happens (`Causality.HappenedBeforeIsTextOrder`).
- A `next` that panics, when the panic is caught, leaves the clock panicking for good (`Clock.PanicSticks`);
  `Clock.NextPanicsExactly` says exactly when it panics.
- Records of two tables share a key exactly if one table name begins with the other and a NUL
  (`ReadModel.RecordKeyCollidesExactly`).
- How remote rows are split into batches can matter; it does not exactly if, for each record, the local row
  is at the highest revision already or the remote rows at the highest revision look alike
  (`ReadDelivery.DeliveryInsensitiveExactly`; a concrete pair is `ReadReconciliation.SplitMattersOnTies`).
- A snapshot from elsewhere can pass every restore check and later hit the contiguity error;
  `QueueRuns.GapReachableExactly` says exactly when some run gets there. Pushing row by row still works
  (`QueueRuns.RestoreAdmitsGap`).
- A lease of the Rust runner stays held until it expires exactly if the store's lock was poisoned while the
  callback of that call ran (`Lifecycle.LeftHeldExactly`, with the run `Lifecycle.CallbackPoisons`).
- After the TypeScript runner was closed one more sync callback can start: exactly the one whose lease was
  granted before and whose call was still queued. Its signal is aborted exactly if the runner was closed from
  outside the observer of that grant (`DesktopRunner.CyclesAfterClose`, with the runs
  `DesktopRunner.CloseOvertaken` and `DesktopRunner.ClosedAtGrant`).
- A TypeScript wake accepted after the drain loop ended, but before the drain is forgotten, waits for the
  next wake (`DesktopRunner.LateWakeStrands`, `SqliteDrain.LateWakeStrands`); the two lemmas `StrandedExactly` give
  the conditions over the run.
- Callbacks that call the TypeScript runner can make it throw an undefined lifecycle event, or run two drains;
  `DesktopRunner.UndefinedExactly` and `DesktopRunner.ForkedExactly` say exactly when, for the callbacks modelled.
  Without calls from the clock, the token factory or before a drain is registered it never happens
  (`DesktopRunner.NeverUndefined`).

## Model

| member | source | states |
|---|---|---|
| `LeaseRuns.NoLostWake` | clients/desktop-rust/src/sqlite.rs:342-390 | in every run, each generation counted as handled was durable before the start of some cycle on that key, and that cycle returned success |
| `LeaseRuns.OnlySuccessHandles` | clients/desktop-rust/src/sqlite.rs:672-727 | a step that moves a handled generation is a runner completing a cycle that succeeded, that still owns the row under its fence and reads the clock below the expiry; it never counts more than was durable when the cycle began; crashes, failures, takeovers and foreign calls never do |
| `LeaseRuns.SuccessCoversOwnWake` | clients/desktop-rust/src/sqlite.rs:620-727 | once a runner reports success its own wake is handled, then and at every later moment of the run |
| `LeaseRuns.CyclesBounded` | clients/reactive-ts/src/sqlite-desktop.ts:720-906 | one ownership runs at least one cycle and at most one more than the wakes that arrived while it was held |
| `LeaseRuns.QuietRunHandlesEverything` | clients/desktop-rust/src/sqlite.rs:620-727 | progress: a runner that finds the lease free or expired, and whose cycle succeeds before its lease runs out, handles every wake so far and gives the lease back |
| `LeaseRuns.QuietTrailingCycle` | clients/desktop-rust/src/sqlite.rs:672-727 | progress of a trailing cycle: with something newer signalled meanwhile a completed cycle keeps the lease, and the renewal goes on under the same owner and fence with all the wakes so far |
| `LeaseRuns.HistoryHolds` | clients/desktop-rust/src/sqlite.rs:620-727 | the recorded starts and successes of cycles are positions of the run where they happened, and cover every handled generation |
| `LeaseRuns.AlwaysFenced` | clients/desktop-rust/src/sqlite.rs:242-431 | in every run fences strictly increase per key, an owned row belongs to an issued grant with the latest fence, and writes are ordered |
| `LeaseRuns.OneLiveGrant` | clients/desktop-rust/src/sqlite.rs:242-295 | of two grants of one key the later has the higher fence and the earlier is dead, so at most one can ever be used |
| `LeaseRuns.DeadForever` | clients/desktop-rust/src/sqlite.rs:848-862 | a grant dead at one moment can never again renew, complete or commit a fenced write, whatever the clock reads |
| `LeaseRuns.LeaseIsExclusive` | clients/desktop-rust/src/sqlite.rs:242-295 | as long as every attempt on the key reads the clock below the row's expiry and nothing releases the lease, owner and fence stay the same; completions that keep the lease are allowed |
| `LeaseRuns.GivingBackKills` | clients/desktop-rust/src/sqlite.rs:342-409 | releasing an issued grant, or a completion of it with nothing newer signalled, makes it dead, whatever was observed and however often it was renewed |
| `LeaseRuns.WritesFollowFences` | clients/desktop-rust/src/sqlite.rs:411-431 | application writes that commit under the fences of a key commit in fence order |
| `LeaseRuns.TableEvolves` | clients/desktop-rust/src/sqlite.rs:210-431 | between any two moments of a run every fence, wake and handled generation has only grown, and no fence gained a new owner |
| `LeaseRuns.EffectFences` | clients/desktop-rust/src/sqlite.rs:242-295 | a step that issues a grant makes it the owner under the next fence of its key; no other step moves a fence or gives a row an owner |
| `LeaseRuns.EffectHandled` | clients/desktop-rust/src/sqlite.rs:342-390 | only completing after a successful cycle changes a handled generation, and then to the generation the grant observed, by the owner of the row before its expiry |
| `LeaseHistory.RowExactly` | clients/desktop-rust/src/sqlite.rs:210-409 | in every run each row is what was done to its key: the wake generation counts the signals, the fence the grants; it has an owner since a grant until that is given back, expiry alone taking nothing away; the expiry is the one that the last grant or renewal set; the handled generation is the highest that a completed cycle had observed |
| `LeaseHistory.WritesExactly` | clients/desktop-rust/src/sqlite.rs:411-431 | the committed writes of a run are, in order, exactly those whose grant held the lease unexpired before and after the application's part |
| `LeaseHistory.PlacesExactly` | clients/desktop-rust/src/sqlite.rs:620-727 | each place of a runner - called, waiting, prepared, cycling, succeeded, failed, between cycles, done - is entered and left exactly by the steps named for it: a busy lease keeps it waiting, a wake rouses it only from rest, a refused transaction ends its run |
| `LeaseHistory.MemoryExactly` | clients/desktop-rust/src/sqlite.rs:672-727 | a runner that holds a lease has the fence of its last grant and aims at the generation durable when it was granted or when its last cycle was counted; its own wake is the last it signalled |
| `LeaseTable.DeadIsPowerless` | clients/desktop-rust/src/sqlite.rs:297-431 | a released or superseded grant changes nothing through any operation and gets no fenced write through |
| `LeaseTable.DeadStaysDead` | clients/desktop-rust/src/sqlite.rs:848-862 | deadness survives every evolution of the table |
| `LeaseTable.SignalWakeEvolves` | clients/desktop-rust/src/sqlite.rs:210-240 | signalling keeps the table valid and only moves counters up |
| `LeaseTable.AcquireEvolves` | clients/desktop-rust/src/sqlite.rs:242-295 | acquiring keeps the table valid; a new owner always comes with a new fence |
| `LeaseTable.RenewEvolves` | clients/desktop-rust/src/sqlite.rs:297-340 | renewing keeps the table valid and moves no counter down |
| `LeaseTable.CompleteEvolves` | clients/desktop-rust/src/sqlite.rs:342-390 | completing keeps handled at most wake and never lowers it |
| `LeaseTable.ReleaseEvolves` | clients/desktop-rust/src/sqlite.rs:392-409 | releasing only takes the owner away |
| `SqliteDesktop.SqliteDesktopCoordinator.SignalWake` | clients/desktop-rust/src/sqlite.rs:210-240 | signals exactly a valid key at a clock reading of at least zero, below the generation limit: one more wake is durable, the receipt names it and says whether something is unhandled and when to retry; otherwise the table is untouched |
| `SqliteDesktop.SqliteDesktopCoordinator.Acquire` | clients/desktop-rust/src/sqlite.rs:242-295 | a grant comes back exactly for valid names, lifetime and reading when the row has no unexpired owner and nothing is at its limit; it owns the row under the next fence with the current generations; an unexpired owner makes it busy with the time left; only that row changes |
| `SqliteDesktop.SqliteDesktopCoordinator.Renew` | clients/desktop-rust/src/sqlite.rs:297-340 | a grant comes back exactly for an unexpired owner with valid arguments: same owner and fence, expiry now plus lifetime, current generations; otherwise, and in every other row, nothing changes |
| `SqliteDesktop.SqliteDesktopCoordinator.Complete` | clients/desktop-rust/src/sqlite.rs:342-390 | succeeds exactly for a readable grant that owns the row, read below its expiry, with an observed generation no higher than the durable one; handled becomes the higher of the two, and the lease is given up exactly when nothing newer was signalled; an expired or superseded owner gets the stale-fence error and changes nothing |
| `SqliteDesktop.SqliteDesktopCoordinator.ReleaseLease` | clients/desktop-rust/src/sqlite.rs:392-409 | succeeds exactly for a readable grant at a reading of at least zero; the owner's row loses its owner and keeps fence and generations; a stale grant changes nothing and is no error |
| `SqliteDesktop.SqliteDesktopCoordinator.WithFencedWrite` | clients/desktop-rust/src/sqlite.rs:411-431 | a write commits exactly if the grant is readable and owned the row unexpired before and after it, and the write itself succeeded |
| `WakeAndRun.SqliteCoordinatedDesktopSyncRunner.New` | clients/desktop-rust/src/sqlite.rs:564-610 | a runner exists exactly for configurations within the documented bounds |
| `WakeAndRun.SqliteCoordinatedDesktopSyncRunner.AcquireWithin` | clients/desktop-rust/src/sqlite.rs:637-670 | waiting ends within the budget with at most one attempt per millisecond slept plus one; a grant has seen the caller's own wake; a free or expired lease is granted at the first attempt; giving up means that the budget is spent and reports the owner's row |
| `WakeAndRun.BusyDelay` | clients/desktop-rust/src/sqlite.rs:652-667 | each busy delay is at least one and at most the cap, the remaining budget and a positive hint of the store; it is that hint, or one, unless cap or budget is shorter |
| `WakeAndRun.SqliteCoordinatedDesktopSyncRunner.CycleOnce` | clients/desktop-rust/src/sqlite.rs:673-717 | a failed cycle gives the lease back and reports failure, with an error of the release only for an unreadable grant or clock; a completed one is handled, and is released exactly with nothing newer waiting; it completes whenever its grant still holds the lease unexpired |
| `WakeAndRun.SqliteCoordinatedDesktopSyncRunner.RenewFor` | clients/desktop-rust/src/sqlite.rs:718-726 | the trailing cycle goes on under the same grant with the generations the completion reported, whenever that grant still holds the lease unexpired and only wakes arrived |
| `WakeAndRun.SqliteCoordinatedDesktopSyncRunner.Turn` | clients/desktop-rust/src/sqlite.rs:672-726 | one cycle and its settlement ends with everything handled and the lease free, or leads to a strictly newer generation under the same grant; in time and with nothing but wakes arriving it never fails |
| `WakeAndRun.SqliteCoordinatedDesktopSyncRunner.RunCycles` | clients/desktop-rust/src/sqlite.rs:672-727 | cycles of one ownership observe strictly climbing generations under one fence, and success ends with everything handled and the lease free; progress: it succeeds, however many wakes arrive, if nothing but wakes arrives and every cycle succeeds before the lease runs out; a failed cycle whose release was taken leaves the grant without the lease |
| `WakeAndRun.SqliteCoordinatedDesktopSyncRunner.WakeAndRun` | clients/desktop-rust/src/sqlite.rs:620-727 | success means the call's own wake is handled, nothing newer waits, the lease is free, and the cycles number at most one plus the wakes in between, whatever other users do meanwhile; progress: with a lease to be had and cycles that succeed in time it succeeds, left alone after one cycle, and also however many wakes arrive meanwhile |
| `WakeAndRun.CyclesBound` | clients/desktop-rust/src/sqlite.rs:672-727 | a list of cycles of one ownership is no longer than one plus the difference of its last and first generation |
| `LeaseStores.InMemoryDesktopLeaseStore.TryAcquire` | clients/desktop-rust/src/lib.rs:704-726 | the in-memory store grants and refuses as the register does, below the fence limit |
| `LeaseStores.InMemoryDesktopLeaseStore.Release` | clients/desktop-rust/src/lib.rs:728-737 | the in-memory store releases as the register does and touches no other key |
| `LeaseStores.SqliteTryAcquire` | clients/desktop-rust/src/sqlite.rs:478-499 | the SQLite adapter grants and refuses as the register does for requests in range, and otherwise gives nothing |
| `LeaseStores.SqliteRelease` | clients/desktop-rust/src/sqlite.rs:501-504 | the SQLite adapter releases as the register does and touches no other key |
| `LeaseStores.CallBoth` | clients/desktop-rust/src/sqlite.rs:475-504 | one call on both stores, from agreeing states, gives the same answer and agreeing states |
| `LeaseStores.SideBySide` | clients/desktop-rust/src/lib.rs:701-738 | every sequence of calls on fresh stores with equal clocks gives the same refusals and grants in both, those of the register |
| `Text.LessExactly` | clients/rust/src/clock.rs:136-138 | one text is before another exactly if it is a proper prefix of it or smaller at the first difference |
| `Text.LessTotal` | clients/rust/src/clock.rs:136-138 | text order is total |
| `Text.LessTransitive` | clients/rust/src/clock.rs:136-138 | text order is transitive |
| `Decimal.ParseDecimalExact` | clients/desktop-rust/src/sqlite.rs:766-780 | decimal parsing accepts exactly what integer-to-text conversion produces within the limit, and undoes it |
| `Decimal.CompareDecimalIsNumeric` | clients/rust/src/consistency.rs:292-307 | comparing revision texts is comparing the numbers they stand for, at any length; equal canonical texts are equal numbers |
| `Hlc.ParseOfFormat` | clients/rust/src/clock.rs:86-133 | parsing inverts formatting |
| `Hlc.FormatOfParse` | clients/rust/src/clock.rs:110-133 | every accepted text is re-formatted to itself |
| `Hlc.ParseExact` | clients/rust/src/clock.rs:110-133 | a text parses to some parts exactly when the parts are valid and format to that text |
| `Hlc.FormatShape` | clients/rust/src/clock.rs:86-106 | a formatted timestamp is 13 decimal digits, 4 lower-case hexadecimal digits and the node id, separated by dashes |
| `Hlc.TextOrderIsLogicalOrder` | clients/rust/src/clock.rs:86-138 | text order of formatted timestamps is the lexicographic order of milliseconds, counter and node id, and equality of texts is equality of parts |
| `Hlc.PackedOrder` | clients/rust/src/clock.rs:136-138 | a smaller packed value is a smaller text, whatever the node ids |
| `Clock.HybridLogicalClock.WithMaxDrift` | clients/rust/src/clock.rs:257-283 | a clock exists exactly for delimiter-free node ids and starts from what persistence holds, at zero if that is nothing or unreadable |
| `Clock.HybridLogicalClock.Next` | clients/rust/src/clock.rs:307-323 | the clock moves to the later of one tick on and the start of this millisecond, saves what it returns, and panics only when unprintable |
| `Clock.HybridLogicalClock.Observe` | clients/rust/src/clock.rs:341-366 | the clock moves to the later of the two timestamps; it refuses exactly those beyond the drift bound, and then nothing changes |
| `Clock.AdvanceIsMax` | clients/rust/src/clock.rs:307-323 | one `next` in packed values: the maximum of the old value plus one and the wall clock |
| `Clock.AdoptIsMax` | clients/rust/src/clock.rs:341-366 | one accepted `observe` in packed values: the maximum of both |
| `Clock.BoundedPoisoning` | clients/rust/src/clock.rs:307-366 | after n issues and any remote timestamps the clock is at most its start, or the highest wall reading plus drift, plus n; and at least its start plus n |
| `Clock.NextPanicsExactly` | clients/rust/src/clock.rs:86-106 | from a printable state `next` panics exactly for a wall clock beyond 13 digits or when the last stamp is used up |
| `Clock.PanicSticks` | clients/rust/src/clock.rs:307-366 | past the last printable millisecond neither `next` nor `observe` brings the clock back |
| `Causality.StepKeeps` | clients/rust/src/clock.rs:257-366 | with private persistence each step, crash and reload included, leaves every clock equal to its saved value, no clock lower, and every other device as it was |
| `Causality.RestartKeeps` | clients/rust/src/clock.rs:257-283 | a crash loses nothing: the device comes back exactly where it was, under the node id it is given if that is usable |
| `Causality.IssuesExactly` | clients/rust/src/clock.rs:307-323 | a device issues a timestamp exactly unless the wall clock is beyond 13 digits or the last stamp is used up |
| `Causality.AcceptsExactly` | clients/rust/src/clock.rs:341-366 | a device accepts a timestamp exactly if it is readable and not beyond the wall clock by more than the drift bound |
| `Causality.NeverFallsBack` | clients/rust/src/clock.rs:257-366 | no device is ever below a value it held earlier in the run |
| `Causality.IssueRaises` | clients/rust/src/clock.rs:307-323 | an issued timestamp is the device's new state as text and strictly above its old state |
| `Causality.ReceiveCatchesUp` | clients/rust/src/clock.rs:341-366 | after accepting a timestamp the device is at or past it |
| `Causality.HappenedBeforeIsTextOrder` | clients/rust/src/clock.rs:257-366 | in any run of many clocks, if one issued timestamp happened before another the first is smaller as plain text |
| `Causality.IssuesNeverTie` | clients/rust/src/clock.rs:152-168 | with node ids handed to one device each, two issues never produce the same text |
| `Causality.SharedStoreGoesBack` | clients/rust/src/clock.rs:152-175 | two clocks over one persistence slot have a run in which a later timestamp of one device is smaller than an earlier one of its own |
| `Json.UnescapeOfEscape` | clients/rust/src/lib.rs:329-334 | pointer unescaping gives back every member name, those containing `~` and `/` included |
| `Json.PointerFollowsTokens` | clients/rust/src/lib.rs:329-334 | the JSON Pointer written for a path (section 3 of RFC 6901) evaluates to the value reached by following that path |
| `Json.SelectFollows` | clients/rust/src/lib.rs:329-334 | a selector that is `#` and the pointer written for a path yields what following the path yields; a selector without `#` yields the member of that name |
| `Json.ChildExactly` | clients/rust/src/lib.rs:329-334 | one step into an object yields the member of that name, into an array the item whose decimal index it is, and anything else nothing |
| `Json.MalformedSelectsNothing` | clients/rust/src/lib.rs:329-334 | a pointer that is neither empty nor starts with a slash yields nothing |
| `ObserveTree.VisitedExactly` | clients/rust/src/lib.rs:317-346 | the walk offers the clock exactly the texts that some selector yields at some object of the document, at any depth |
| `ObserveTree.FoundIsOffered` | clients/rust/src/lib.rs:317-346 | if at the object that some member names lead to the path of a selector leads to a text, that text is offered to the clock |
| `ObserveTree.ObserveAllCatchesUp` | clients/rust/src/lib.rs:317-346 | the clock never goes back and, without a refusal, has caught up with every offered text |
| `ObserveTree.ObserveAllExactly` | clients/rust/src/lib.rs:325-340 | texts are observed up to the first one beyond the drift bound, which is the one refused, with its distance; without one all are; and the clock is where it was or at one of the texts |
| `ObserveTree.RefusalIsFinal` | clients/rust/src/lib.rs:325-340 | after the first refusal the rest of the document is not looked at |
| `ObserveTree.ObserveNode` | clients/rust/src/lib.rs:317-346 | the recursive walk has the effect of observing its texts in order |
| `ObserveTree.OptoSyncClient.ObserveIncoming` | clients/rust/src/lib.rs:576-590 | success of a client with a clock means the clock covers every text that following the path of a selector from an object at any depth yields; a refusal names an offered text beyond the drift bound; the clock never goes back and moves only to an offered timestamp; text that is not JSON changes nothing, and a client without a clock observes nothing |
| `ObserveTree.OptoSyncClient.QueueMutationValue` | clients/rust/src/lib.rs:545-559 | an object is queued with all its members and the clock's next stamp unless it carries its own or there is no clock, and then as it is; anything else is refused and changes nothing |
| `ObserveTree.NextStampOutranks` | clients/rust/src/lib.rs:537-559 | the next stamp is greater, as text, than any timestamp the clock covers, and is what the queued object shows |
| `ObserveTree.PullThenQueue` | clients/rust/src/lib.rs:537-590 | pull then write: the queued stamp is greater than every timestamp that the path of a selector leads to from an object anywhere in the pulled document |
| `Scheduler.ProtocolSyncScheduler.Apply` | clients/rust/src/protocol_scheduler.rs:134-363 | an event is accepted exactly when its guard passes, takes its transition, and otherwise leaves the state alone |
| `Scheduler.GuardsSuffice` | clients/rust/src/protocol_scheduler.rs:355-410 | from an inductive state a passing guard leads to an inductive, safe state |
| `Scheduler.OnlyGuardsReject` | clients/rust/src/protocol_scheduler.rs:355-363 | over every event sequence from the default state the defensive check never rejects anything |
| `Scheduler.GenerationsMeanHistory` | clients/rust/src/protocol_scheduler.rs:366-383 | a pending cycle was started by the latest accepted timer fire, and is current exactly while no stop or offline came since |
| `Scheduler.CutCycleIsInert` | clients/rust/src/protocol_scheduler.rs:289-352 | a cycle cut off since its start can only settle as stale, and that changes neither phase, generation nor failure count; an uncut one cannot settle as stale |
| `Scheduler.FailuresCountRetries` | clients/rust/src/protocol_scheduler.rs:134-395 | in every reachable state the failure count is the number of accepted retryable failures since the last start or successful cycle, capped at 31 |
| `Scheduler.HintsAreNotLost` | clients/rust/src/protocol_scheduler.rs:179-288 | after an accepted hint a timer or wake stays pending until a timer fire, stop, offline, permanent failure or malformed response |
| `Scheduler.HostStepDecreases` | clients/rust/src/protocol_scheduler.rs:240-352 | every host-owned step that discharges nothing lowers the remaining work |
| `Scheduler.OwedIsNeverStuck` | clients/rust/src/protocol_scheduler.rs:366-395 | while a wake is owed some host-owned event is enabled |
| `Scheduler.HostReachesNextCycle` | clients/rust/src/protocol_scheduler.rs:179-395 | host-owned steps alone discharge an owed wake: at most sixteen come before a timer fire or a cancelling failure |
| `SchedulerHistory.CreatedIsOwed` | clients/rust/src/protocol_scheduler.rs:146-352 | in every run an accepted start while online arms a current timer; an accepted hint, return online, success with more pages, retryable failure or, while idle, stale settlement leaves a wake owed |
| `SchedulerHistory.CreatedReachesNextCycle` | clients/rust/src/protocol_scheduler.rs:146-395 | from any of these events host-owned steps alone reach the next cycle or a cancelling failure, within sixteen steps |
| `SchedulerHistory.OwedExactly` | clients/rust/src/protocol_scheduler.rs:146-352 | a wake is owed exactly since an event that creates one, until a timer fire, stop, loss of the connection, permanent failure or malformed response |
| `SchedulerHistory.TimersExactly` | clients/rust/src/protocol_scheduler.rs:146-352 | a timer is pending, and then current, exactly since an event that arms one until one that uses or cancels it; a wake is remembered exactly since a hint or return during a cycle until that cycle ends or is interrupted |
| `SchedulerHistory.StaleTimersExactly` | clients/rust/src/protocol_scheduler.rs:146-352 | a stale timer is out exactly since an event that superseded a pending one until it fires |
| `SchedulerHistory.CyclesExactly` | clients/rust/src/protocol_scheduler.rs:240-352 | a cycle is in flight from its timer fire to its settlement; the scheduler is syncing, with network active, exactly while that cycle is uninterrupted |
| `SchedulerHistory.RunningExactly` | clients/rust/src/protocol_scheduler.rs:146-238 | the scheduler runs exactly from a start to the next stop and is offline exactly from a loss to the next return |
| `SchedulerHistory.FailedPhasesExactly` | clients/rust/src/protocol_scheduler.rs:289-352 | backoff and error last from the failure to the event that moves on; offline is running without a connection |
| `SchedulerHistory.ResetsExactly` | clients/rust/src/protocol_scheduler.rs:240-352 | a reset is requested, then installed, within one uninterrupted cycle |
| `SchedulerHistory.PagesExactly` | clients/rust/src/protocol_scheduler.rs:240-352 | the pages seen are those of the current cycle |
| `SchedulerHistory.GenerationExactly` | clients/rust/src/protocol_scheduler.rs:146-238 | the generation counts accepted starts, stops and losses of the connection |
| `SchedulerHistory.AcceptedExactly` | clients/rust/src/protocol_scheduler.rs:134-363 | which of the nineteen events is accepted next follows from the accepted events so far |
| `QueueRuns.ShapeAlways` | clients/php/src/Client.php:106-295 | over every run of enqueue, acknowledge and restore of own exports, from the empty queue or any queue of the shape, ids are 1 to n, pending rows are a suffix, and a batch can always be built |
| `PushQueue.BuildSucceeds` | clients/php/src/Client.php:115-159 | such a queue never hits the contiguity error and sends its next unsettled rows with their ids and contents |
| `PushQueue.EnqueueKeeps` | clients/php/src/Client.php:278-295 | an accepted mutation gets the next id, is appended as pending, and keeps the shape |
| `PushQueue.EnqueuedExactly` | clients/php/src/Client.php:58-104 | a mutation is accepted exactly with a client id, table, record, a canonical base revision if any, an object payload within the limit for an upsert, room among the pending ones and an id left; and then adds just that row |
| `ExactlyOnce.RetryIsIdentical` | clients/php/src/Client.php:115-159 | over any run in which the client neither accepts an acknowledgement nor restarts, retrying the first k pending mutations gives the identical request, however many are enqueued in between |
| `PushQueue.AcceptedBatch` | clients/php/src/Client.php:177-200 | an accepted acknowledgement named exactly the batch that would be sent now, with one result per row in order |
| `PushQueue.AcknowledgedExactly` | clients/php/src/Client.php:325-365 | field by field: an acknowledgement is accepted exactly for the request that would be sent now, with matching version, client, last id and count, a canonical checkpoint, and per row its id, one of three statuses, an absent or canonical checkpoint, an absent or positive canonical revision, and an original verdict exactly for a duplicate |
| `PushQueue.AcknowledgedRows` | clients/php/src/Client.php:177-200 | each row keeps id and content, takes the status of the result for its id, and keeps its own if there is none |
| `PushQueue.AcknowledgeSettlesBatch` | clients/php/src/Client.php:177-200 | it writes the server's words into exactly those rows, each once, and settles exactly that many |
| `PushQueue.AcknowledgeKeeps` | clients/php/src/Client.php:177-200 | it keeps the shape, and the pending rows lose exactly that prefix |
| `PushQueue.RestoreOfExport` | clients/php/src/Client.php:203-275 | restoring one's own export is the identity, for every queue that a restore would accept |
| `PushQueue.RestoreAdmits` | clients/php/src/Client.php:215-275 | an accepted foreign snapshot has the shape exactly when its pending rows are a suffix |
| `QueueRuns.BatchProblem` | clients/php/src/Client.php:115-159 | a batch of an accepted queue cannot be built exactly when the ids of that batch have a gap |
| `QueueRuns.AcknowledgeDrops` | clients/php/src/Client.php:177-200 | also in a queue that has lost the shape, an accepted acknowledgement takes exactly the first pending rows off the retry set |
| `QueueRuns.GapReachableExactly` | clients/php/src/Client.php:115-275 | after an accepted restore some run of calls hits the contiguity error with some batch size if and only if a settled row follows a pending one, and the pending ids have a gap already or a new row can be put behind them |
| `QueueRuns.RestoreAdmitsGap` | clients/php/src/Client.php:215-275 | a snapshot with a settled row between pending ones passes restore, can be pushed one row at a time, and fails for every larger batch |
| `PushClient.Client.Pending` | clients/php/src/Client.php:106-112 | the pending rows in order |
| `PushClient.Client.EnqueueMutation` | clients/php/src/Client.php:278-295 | accepted exactly for a well-formed mutation with room and an id left; the pending rows grow by it at the end under the next id, or nothing changes and the error is named |
| `PushClient.Client.BuildPushRequest` | clients/php/src/Client.php:115-159 | the ids and contents of the first pending rows under the client's id; from a queue of the shape exactly for limits from 1 to 100; otherwise the first error on the way |
| `PushClient.Client.EncodeBatch` | clients/php/src/Client.php:123-152 | the wire form of a batch, or its first gap or unsendable payload |
| `PushClient.Client.AcknowledgePush` | clients/php/src/Client.php:177-200 | accepted exactly for the request that would be sent now and a response with, field by field, the required form for each row; on success the rows named take their results' statuses and exactly that prefix leaves the pending rows; otherwise nothing changes |
| `PushClient.Client.ValidatePushResponse` | clients/php/src/Client.php:325-365 | a response is accepted exactly when versions, client, last id and count agree, the checkpoint is canonical, and each result has its row's id, an allowed status, absent or well-formed checkpoint and revision, and an original verdict exactly for a duplicate |
| `PushClient.Client.RestoreQueue` | clients/php/src/Client.php:215-275 | accepted exactly for the client's own snapshot with rows numbered from 1, known statuses, well-formed mutations, room for the pending ones, the next id after the last and a canonical checkpoint; the queue then becomes the snapshot's, and is unchanged otherwise |
| `PushClient.ProblemGrows` | clients/php/src/Client.php:123-152 | the first error found in a batch is the error of the batch |
| `ExactlyOnce.ServeSound` | docs/SYNC_PROTOCOL_V1.md:71-112 | a request in client form is always served: the ledger grows, the results are truthful, and each newly applied entry has one effect |
| `ServerLedger.ServeExactly` | docs/SYNC_PROTOCOL_V1.md:71-112 | a push is taken, whole, if and only if no mutation of it leaves a gap or reuses an id for other content; the ledger then grows by exactly the new ones, with the server's decision on each; each result names its mutation, duplicates the recorded verdict; each accepted new one has one effect, in order |
| `ServerLedger.DeliveredExactly` | docs/SYNC_PROTOCOL_V1.md:71-112 | delivering a request commits all of that and a response, or changes nothing |
| `ServerLedger.ClientExactly` | clients/php/README.md:1-40 | in every run only its own accepted enqueue, its own accepted acknowledgement of a response that the server gave, and a crash touch a client's queue; the crash brings back the last export, whole |
| `ServerLedger.SentExactly` | clients/php/src/Client.php:115-159 | a request goes out exactly if it is the current batch and its last mutation has been exported |
| `ExactlyOnce.InvAlways` | formal/README.md:32-59 | in every reachable state ledgers are prefixes of what clients exported, and requests, responses, settled rows and effects agree with them, also when a crash falls between an enqueue and its export |
| `ExactlyOnce.AppliedAtMostOnce` | formal/README.md:32-59 | each mutation takes effect at most once, exactly once if the ledger says applied, and with the content enqueued under its id |
| `ExactlyOnce.SettledIsRecorded` | docs/SYNC_PROTOCOL_V1.md:226-240 | no client settles a mutation absent from the ledger, nor with another verdict |
| `ExactlyOnce.EveryRequestIsServed` | docs/SYNC_PROTOCOL_V1.md:111-112 | whatever the network delivers, however late, the server never sees a gap or a reused id |
| `ExactlyOnce.RoundTripSettles` | clients/php/src/Client.php:177-200 | progress: from every reachable state one export, one request, one delivery and one honest answer that gets through settle the whole batch, whatever was delivered before and whatever canonical checkpoint and revision the server attaches to each result |
| `ExactlyOnce.ValidIsAccepted` | clients/php/src/Client.php:177-200 | every valid response to the request that would be sent now is accepted |
| `ExactlyOnce.ContentNeverChanges` | docs/SYNC_PROTOCOL_V1.md:105-112 | once exported, a client and mutation id name one content for ever, across crashes and restores |
| `ReadModel.RecordKeyInjective` | clients/rust/src/consistency.rs:309-311 | with NUL-free table names a key names one record |
| `ReadModel.RecordKeyCollidesExactly` | clients/rust/src/consistency.rs:309-311 | records of two tables can share a key if and only if one table name begins with the other followed by NUL |
| `ReadModel.WinnerIsHighest` | clients/rust/src/consistency.rs:324-350 | the selected remote row is one of the group and has its numerically highest revision |
| `ReadOverlay.WinnerIsPreferred` | clients/rust/src/consistency.rs:324-350 | of the remote rows of a record the one selected is the first with the least mutation id among those at the highest revision |
| `ReadOverlay.AuthoritativeShows` | clients/rust/src/consistency.rs:313-386 | an authoritative row shows table, record, revision, operation and payload of an input row at the highest revision of its record, marked authoritative |
| `ReadModel.AuthoritativeIsView` | clients/rust/src/consistency.rs:352-386 | the merged rows are each record exactly once at its highest revision |
| `ReadModel.CanonicalContentIsDetermined` | clients/rust/src/consistency.rs:292-311 | canonical revisions, NUL-free names and content fixed by table, record and revision determine what is shown |
| `ReadModel.ViewIsUnique` | clients/rust/src/consistency.rs:352-386 | two views of the same set of rows are equal |
| `ReadModel.ViewsCompose` | clients/rust/src/consistency.rs:352-386 | merging a second batch into the view of a first is the view of both |
| `ReadDelivery.DeliveryIsView` | clients/rust/src/consistency.rs:352-386 | after any number of batches, each merged into a listing of what was shown before, each record is shown once at the highest revision of all its rows |
| `ReadDelivery.DeliveryInsensitive` | clients/rust/src/consistency.rs:324-386 | permuting, repeating or splitting the remote rows into any number of successive batches gives the rows of one single batch |
| `ReadDelivery.DeliveryInsensitiveExactly` | clients/rust/src/consistency.rs:324-386 | every delivery of the remote rows shows the same if and only if, for each record, the local row is at the highest revision already or all remote rows there look alike |
| `ReadDelivery.ContentIsSettled` | clients/rust/src/consistency.rs:352-386 | content determined by record and revision meets that condition |
| `ReadReconciliation.SplitMattersOnTies` | clients/rust/src/consistency.rs:324-386 | with equal revisions and different content, one batch and two batches differ |
| `ReadReconciliation.AcknowledgedAreInert` | clients/rust/src/consistency.rs:388-395 | dropping every acknowledged overlay entry changes neither result nor error |
| `ReadOverlay.ReplayFailsExactly` | clients/rust/src/consistency.rs:60-79 | replay fails exactly when an unacknowledged entry names an unknown policy, with the policy of the first such entry |
| `ReadOverlay.PolicyNames` | clients/rust/src/consistency.rs:60-79 | which names mean which policy, and that all others are unknown |
| `ReadOverlay.ReplayedExactly` | clients/rust/src/consistency.rs:388-426 | each record shows its last effective entry: operation and status of that entry, the transformed payload if it is transformed and has one, else its own; the revision is that of the last effective entry that carries one, else that of the row before, else zero; a record without an effective entry is as before |
| `ReadReconciliation.ReplayIsPerRecord` | clients/rust/src/consistency.rs:388-426 | a successful replay is, record by record, a fold of that record's own effective entries |
| `ReadReconciliation.InterleavingIsIrrelevant` | clients/rust/src/consistency.rs:388-426 | overlays with the same effective entries per record give the same rows |
| `ReadReconciliation.SortedIsUnique` | clients/rust/src/consistency.rs:428-434 | the sorted output is determined by its set of rows |
| `ReadReconciliation.SortRows` | clients/rust/src/consistency.rs:428-434 | the output is strictly ordered by table and record and holds every shown row |
| `ReadReconciliation.SelectRemoteWinner` | clients/rust/src/consistency.rs:324-350 | the loop finds a row of the highest revision |
| `ReadReconciliation.MergeAuthoritative` | clients/rust/src/consistency.rs:352-386 | grouping and merging in any order computes the authoritative rows |
| `ReadReconciliation.ViewIsShown` | clients/rust/src/consistency.rs:388-435 | the rows of a replayed view are sorted, show each record as its last effective entry or authoritative row says, and hold a record exactly if it has one of these |
| `ReadReconciliation.ReplayOverlay` | clients/rust/src/consistency.rs:388-426 | the overlay loop computes the replay of `ReadOverlay.ReplayedExactly`, or its first error |
| `ReadReconciliation.ReconcileReadModel` | clients/rust/src/consistency.rs:352-435 | fails exactly at the first unacknowledged unknown policy; otherwise the rows are strictly ordered by table and record, each shows the last effective entry of its record - transformed payload, operation, status and revision - or else its authoritative row, and a record is there exactly if it has one of these |
| `Lifecycle.SyncLifecycleMachine.Apply` | clients/desktop-rust/src/lib.rs:313-330 | a defined event takes the transition that `Lifecycle.EventsMean` describes, and an undefined one changes nothing |
| `Lifecycle.EventsDefined` | clients/desktop-rust/src/lib.rs:332-455 | in a valid state each event is defined in exactly the phases named, and the check on the successor never rejects anything |
| `Lifecycle.EventsMean` | clients/desktop-rust/src/lib.rs:332-455 | what each defined event does to phase, pending wake, requests and permit |
| `Lifecycle.DesktopSyncRunner.DropGuard` | clients/desktop-rust/src/lib.rs:673-688 | whatever ended the call, the flag is cleared and no ownership is active; an aborted ownership leaves nothing pending and keeps a requested close |
| `Lifecycle.DesktopSyncRunner.RunGuarded` | clients/desktop-rust/src/lib.rs:595-664 | each store, callback and release outcome has its own result; a panic of the store leaves the ownership acquiring or releasing and poisons the lock; a lock poisoned while the callback ran means no release is asked for and the outcome says so; all but a store panic end in the initial lifecycle state |
| `Lifecycle.DesktopSyncRunner.RunOnce` | clients/desktop-rust/src/lib.rs:561-689 | every path, panics of callback, acquisition and release included, ends quiet without an undefined event; each kind of token, store, callback and release outcome has its own result; the release of a grant is asked for, once, if and only if the lock was not poisoned while the callback ran, and otherwise the outcome keeps the cycle's result and the store is poisoned; a second concurrent call changes nothing |
| `Lifecycle.LeftHeldExactly` | clients/desktop-rust/src/lib.rs:638-644 | over any number of calls the leases whose release was never asked for are exactly those of the calls during whose callback the lock was poisoned |
| `Lifecycle.AtMostOneLeftHeld` | clients/desktop-rust/src/lib.rs:610-622 | unless a host clears the poison that is at most one lease, and none is granted after it |
| `Lifecycle.CallbackPoisons` | clients/desktop-rust/src/lib.rs:638-649 | such a run: the callback takes the shared lock and panics, and its lease stays held |
| `DesktopRunner.GrantsGivenBack` | clients/reactive-ts/src/desktop.ts:310-447 | under every interleaving each grant has been given back exactly once unless its cycle is queued or running, and the suspended coroutine agrees with the lifecycle |
| `DesktopHistory.DrainExactly` | clients/reactive-ts/src/desktop.ts:268-447 | each place of the drain - asking, callback queued, running, giving back, looking again, leaving - is entered and left exactly by the steps named for it; a cycle is cancelled exactly from a timeout or a close while it held the lease until it ends |
| `DesktopRunner.UndefinedExactly` | clients/reactive-ts/src/desktop.ts:268-316 | an undefined lifecycle event is thrown in a run if and only if, in some attempt that gets past its clock and token factory, a callback closed the runner before the acquisition began, or woke it before its drain was registered and that second drain got to an acquisition, or the reasons at hand came only from callbacks at the head of the attempt before |
| `DesktopRunner.ForkedExactly` | clients/reactive-ts/src/desktop.ts:276-282 | two drains run beside each other if and only if a wake from inside started a second one that got to its acquisition and the first then failed on its clock or token |
| `DesktopRunner.NeverUndefined` | clients/reactive-ts/src/desktop.ts:268-447 | if the clock and the token factory do not call the runner at the head of an attempt, and nothing else does before a drain is registered, no interleaving of wakes, close, timeouts, other callback calls and awaits throws an undefined event or runs two drains |
| `DesktopRunner.CyclesAfterClose` | clients/reactive-ts/src/desktop.ts:289-405 | a cycle starts after the step that closed the runner if and only if its lease was granted by then and its callback was still queued: at most that one, with an aborted signal exactly if the close did not come from the observer told of that grant |
| `DesktopRunner.GrantAfterClose` | clients/reactive-ts/src/desktop.ts:348-367 | a grant that arrives after close is released without a cycle |
| `DesktopRunner.CloseOvertaken` | clients/reactive-ts/src/desktop.ts:369-385 | such a run: grant, close, and then the queued callback starts with an aborted signal |
| `DesktopRunner.ClosedAtGrant` | clients/reactive-ts/src/desktop.ts:348-379 | and another: the observer told of the grant closes, and the callback starts with a live signal |
| `DesktopRunner.StrandedExactly` | clients/reactive-ts/src/desktop.ts:268-308 | a runner without a drain holds an unserved wake if and only if, with no close and no wake from rest since, a wake was accepted by a drain that had left its loop, the outcome callback or the clock read for the outcome threw past pending reasons, or callbacks added reasons at the head of an attempt that then failed |
| `DesktopRunner.StrandedStays` | clients/reactive-ts/src/desktop.ts:268-283 | only another wake, or close, moves such a runner |
| `DesktopRunner.LateWakeStrands` | clients/reactive-ts/src/desktop.ts:268-308 | one refused acquisition and a wake one microtask too early reach that state |
| `SqliteDrain.StrandedExactly` | clients/reactive-ts/src/sqlite-desktop.ts:662-720 | an open runner at rest has reasons left over if and only if, with no close and no wake from rest since, a wake was accepted by a drain that had left its loop or a throw ended it past pending reasons; its own last durable wake is unhandled only then, or if its last run failed and said so |
| `SqliteDrain.PlacesExactly` | clients/reactive-ts/src/sqlite-desktop.ts:662-906 | each place of that drain, whether reasons wait, and whether it is closed follow from the steps of the run: a new run, a grant and a trailing cycle take in all reasons that wait |
| `SqliteDrain.WakesExactly` | clients/reactive-ts/src/sqlite-desktop.ts:662-720 | the durable wake generation counts every signal, and the own one is that of the last wake signalled here |
| `SqliteDrain.HandledExactly` | clients/reactive-ts/src/sqlite-desktop.ts:720-906 | the handled generation is the highest that a successful cycle had observed or another process handled |
| `SqliteDrain.ObservedExactly` | clients/reactive-ts/src/sqlite-desktop.ts:720-906 | a cycle observes the generation that was durable when its lease was granted or it began as a trailing one |
| `SqliteDrain.LateWakeStrands` | clients/reactive-ts/src/sqlite-desktop.ts:662-718 | after a perfect run a wake signalled one microtask too early is durable, unhandled and attempted by nobody |

## Left out

- SQLite itself: schema creation, pragmas, busy timeouts and SQL text. A transaction is an atomic step on a map from key to row, rolled back on error.
- `updated_at`, `read_state` and `assert_current_fence`: they decide nothing, or repeat the ownership check that is modelled.
- Application writes inside `with_fenced_write` that touch the coordination table, and foreign callers of `complete`: in `LeaseRuns` only runners complete, and other users reach the table through signals, acquisitions, renewals and releases of issued grants. `WakeAndRun` does allow foreign completions.
- The TypeScript coordinator's JavaScript number limits: both kinds of process use the one table relation.
- Threads, sleeps and timers: they appear only as steps, delays and answers. A poisoned lifecycle mutex is not modelled; a poisoned store lock is, also one poisoned by the callback or by another user of the store.
- Fairness: progress is stated by measures and by moves that are enabled, not by assuming that anything is scheduled.
- DesktopRunner.UndefinedExactly: covers any calls from the clock and the token factory at the head of an attempt, from the observer and the lease store before a drain is registered, and from the observer told of a grant; calls at other points are steps of the run. When the observer is told of the wake that starts a drain, a wake from inside is the one that starts it, and a close from inside leads where a failed attempt followed by a close does. Not modelled: callbacks of a second drain that call again.
- SqliteDrain.StrandedExactly: does not model callbacks of the SQLite runner that call back into it.
- The wake-reason lists, outcome objects and start and finish times of both lifecycle runners.
- Parsing and printing of payload text (an unparsable text is an input), the splitting and trimming of the selector list, and the id counter's width. The order of fields stands for the iteration order of the object map.
- Clock.PanicSticks: does not model the wrap-around of a 64-bit millisecond value after repeated caught panics.
- LeaseStores.SideBySide: covers valid identifiers, lifetimes within range and fences below the signed 64-bit limit; outside of that the stores differ by design, the SQLite one refusing.
- Pull, checkpoints, reset and snapshot installation of protocol v1, and the server's permanent-rejection reasons: the accept decision is free.
- Payload text, JSON encoding, byte limits beyond length, and the comparison of requests as encoded text, which is equality of requests here.
- The C merge engine and what rests on it (`reconcile`, `rebase_pending`, `local_view`); its source is not part of this model.
- `outcome_for_network` and the frozen-intent check of the consistency module, capability resolution, connectivity, sessions, HTTP, TCP and WebSocket code.
