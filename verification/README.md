# Camera adapter: verified core

A Dafny model of four parts of the camera adapter, with proofs of what they promise.

1. **The durable job catalog** (`src/catalog.rs`, state graph in `src/model.rs`). The tables are a record of maps, and
   every transaction is one atomic step on it (`CatalogModel`). `CatalogStore` runs the same transactions statement by
   statement on mutable tables, with loops and rollback, and is proved equal to the steps. On top of the steps:
   one invariant that all of them keep (`CatalogInvariant`, `CatalogSteps`, `CatalogPrunes`); what each transaction
   answers and writes, as conditions on columns that share no check with it (`CatalogAnswers`, `CatalogOutcomes`,
   `RetentionAnswers`), with a way from every acceptance to a won success (`CatalogSuccess`); and statements over whole
   runs: arbitration between installation, cancellation and recovery (`CatalogRuns`), idempotent acceptance and the life
   of a command ledger (`CatalogLedgers`, `CatalogStale`), group atomicity (`CatalogGroups`), retention (`Selection`,
   `Retention`) and keyset paging (`Paging`).
2. **The canonical request encoding** (`src/idempotency.rs`): JSON printing (`Json`), a reader over literal bytes that
   reads it back (`JsonReader`), the encoding as a function with its faithfulness theorem (`Canonical`), and the
   buffer-appending loops (`Encoder`).
   String escaping is that of section 7 of RFC 8259. Numbers are opaque tokens.
3. **Bounded admission** (`src/admission.rs`, `src/dispatch.rs`, `src/actor.rs`): the aging queue over a vector with
   swap-remove (`Queue`), reservable slots (`FleetSlots`, `ActorSlots`), execution permits (`Permits`), wake-ups
   (`Notify`, `Wakeup`, `StopWatch`), byte and disk budgets (`Budgets`, `BudgetWaits`), leases (`Leases`) and the control
   lanes (`ControlLanes`). What threads share is modelled one atomic access at a time, and the theorems hold for every
   interleaving.
4. **The bounded output writer** (`src/encoding.rs`): `BoundedWriter`, and the chunked copy that goes through it
   (`StreamCopy`).

Clocks, random ids, cancellation tokens, disk probes, the bytes a sink accepts and the number of rows a caller asks for
are parameters. Integer widths are written out where they matter (64-bit tickets, budgets and outstanding bytes, 128-bit
percentages).

Where the code does less than one might expect, the model follows the code:

- A zero-byte write beyond the end of the sink raises the writer's high-water mark (`src/encoding.rs:421-446`).
  `HollowWriteMiscounts` shows the wrong count; `CountIsExact` says exactly when the count is right.
- The scheduler's commit does not compare the descriptor's camera with the reserved one (`src/dispatch.rs:381-406`).
  The global bound holds all the same (`BoundsHold`). `RefusalIsExact` says exactly when a holder is refused, and
  `CommitNeverFull` that it is not while nobody commits under its camera's name from another camera's slot.
  `ForeignCommitFills` is a run in which somebody does.
- The pop clock is read before the queue lock is taken (`src/admission.rs:358`). `ClockConditionIsExact`: the aging bound
  on enqueue times holds for entries of a time `t` if and only if the clock has reached `t`.
- A retry under another verb opens a ledger in progress even after the capture has ended (`src/catalog.rs:2505-2521`).
  `StaleExactly`: that is the only way in which a ledger in progress leads to an ended capture.
- The comment in `src/admission.rs:344-354` takes an unpolled waiter to be unregistered. `Wakeup` assumes no more than
  that, and `RegisteringLateLosesIt` shows why the waiters are enabled before the look. The byte budget builds its
  waiter before the load and does not enable it (`src/admission.rs:701-722`). `ReleaseIsLostOnlyUnpolled`: if a waiter
  counts from its creation no release is lost; if it counts from its first poll, one can be, and only in that gap.
- An execution permit handed over after its capture's terminal hook has run is returned only if the dispatch that
  follows fails (`src/dispatch.rs:283-307`, `src/runtime/supervision.rs:349-352`). `OutlivesExactly` says that this is the only way for
  a permit to outlive its capture, and `LostPermitsNarrow` what it costs.
- Once cancelled, the writer reports every write as interrupted, and `write_all` tries an interrupted write again
  (`src/encoding.rs:327-337`, `src/encoding.rs:421-429`). `CopyEndsExactly`: the copy ends if and only if the token is
  never found cancelled in the middle of a chunk.

## Model

| member | source | states |
|---|---|---|
| Texts.LessIsByteOrder | src/idempotency.rs:133-136 | The order of names and instances is byte order: at the first difference the smaller byte, or the end, comes first |
| JsonReader.CharReadBack | src/idempotency.rs:117-168 | One character, escaped, reads back under section 7 of RFC 8259 as that character and where it ends |
| JsonReader.EscapesAreShortest | src/idempotency.rs:117-168 | Of the spellings of a character the shortest is printed, with lower case digits |
| JsonReader.ReadsBack | src/idempotency.rs:117-180 | A reader over literal bytes that shares nothing with the printer reads every printed value back, whatever delimited rest follows |
| JsonReader.PrintUnique | src/idempotency.rs:117-180 | Unique parseability: two values printed in front of delimited rests agree only if both the values and the rests agree |
| Canonical.SpecialNames | src/idempotency.rs:117-168 | The members that are special at the root are requestId and instances |
| Canonical.Refusals | src/idempotency.rs:95-213 | Each rejection, told apart: not an object, instances not an array, an instance not a string, and otherwise a duplicate |
| Canonical.BytesReadBack | src/idempotency.rs:95-213 | The bytes of an accepted request are JSON text: read back, an object that is the same request without requestId, names in byte order at every depth, instances of a group in byte order |
| Canonical.NormalFaithful | src/idempotency.rs:117-180 | Nested values have the same normal form exactly when they are equal up to object member order at every depth |
| Canonical.TreeFaithful | src/idempotency.rs:95-168 | Two root objects have the same canonical tree exactly when they are the same request |
| Canonical.CanonicalBytesFaithful | src/idempotency.rs:95-213 | Two accepted requests get equal bytes if and only if they agree on every root member but requestId, up to member order at every depth and, for group requests, up to the order of instances |
| Encoder.EncodeValue | src/idempotency.rs:117-168 | The recursive printer appends exactly the canonical text, or reports exactly the problem of the root instances |
| Encoder.EncodeArray | src/idempotency.rs:170-180 | The array loop appends the printed normal form |
| Encoder.EncodeMembers | src/idempotency.rs:134-166 | The member loop with its first flag appends the kept members in key order and stops at the first rejected one |
| Encoder.EncodeSortedInstances | src/idempotency.rs:182-213 | Sorting, duplicate detection and printing of instances: rejected exactly when not an array of distinct strings, otherwise printed in order |
| Encoder.HasEqualNeighbours | src/idempotency.rs:196-202 | Finds equal neighbours exactly when there are some |
| Texts.DuplicatesAreAdjacent | src/idempotency.rs:196-202 | In sorted text, duplicates exist exactly when two neighbours are equal |
| Encoder.EncodeRequest | src/idempotency.rs:95-115 | The stateful encoder computes the reference bytes, accepts exactly the acceptable requests, and what it appends is JSON text of the request |
| JobStates.TransitionsAre | src/model.rs:307-347 | The stage graph edge by edge; the states with no way out are the terminal ones |
| JobStates.PathsMoveForward | src/model.rs:307-347 | Every path through the stage graph moves strictly forward, never leaves a terminal state and reaches success only through PERSISTING |
| CatalogModel.BoundedErrorIsLongest | src/catalog.rs:2466-2477 | Stored error text is the longest prefix of at most 1024 bytes that ends on a character boundary |
| CatalogModel.RebuildIsExact | src/catalog.rs:3266-3282 | Rebuilding a staged success from its two columns loses nothing exactly for error-free successes, hence for every write that is staged |
| CatalogAnswers.AcceptAnswers | src/catalog.rs:2479-2545 | For every state with the invariant, each answer to a capture request as a condition on the rows: Inserted, Existing, Conflict, and every error |
| CatalogAnswers.InsertedWrites | src/catalog.rs:1915-2045 | The inserted row carries every column of the request, its ledger is new and in progress, and nothing else changes |
| CatalogAnswers.RetryWrites | src/catalog.rs:2505-2521 | Only a retry under a key of its own writes anything: a ledger for the capture it hears of |
| CatalogAnswers.ScheduledAnswers | src/catalog.rs:2547-2585 | Each answer to a scheduled request, and the row and occurrence it writes |
| CatalogAnswers.GroupAnswers | src/catalog.rs:2587-2639 | Each answer to a group request |
| CatalogAnswers.MoveAnswers | src/catalog.rs:2915-2935 | A guarded move is one of three; it happens exactly on a row where the caller expects it, stamps the time on QUEUED only, and changes nothing else |
| CatalogAnswers.RescheduleAnswers | src/catalog.rs:791-849 | Exactly a QUEUED row is rebased, to deadlines within the terminal one, and only they change |
| CatalogAnswers.PersistAnswers | src/catalog.rs:1104-1165 | Each answer of begin_persisting: Changed exactly for a prepared artifact about an ACQUIRING or ENCODING row |
| CatalogAnswers.PersistWrites | src/catalog.rs:1140-1155 | It writes the four prepared columns and the staged success, nothing else |
| CatalogAnswers.InstallAnswers | src/catalog.rs:2937-2956 | Started exactly on a PERSISTING row whose installation has not started, AlreadyStarted exactly if it has; only that flag changes |
| CatalogAnswers.InstalledAnswers | src/catalog.rs:1168-1210 | Installed facts are recorded exactly if they are the expected ones of a row that is installing |
| CatalogAnswers.TerminalAnswers | src/catalog.rs:2965-2983 | In every state: AlreadyTerminal, InstallationWon and the early errors, each as a condition on the row; what is not won changes nothing |
| CatalogAnswers.WonExactly | src/catalog.rs:2966-3009 | In every state: an ending is won if and only if it fits an open row that it is about; a cancellation before the installation; a success only PERSISTING, installed, with all six artifact columns and the staged result and time; anything else from a state that may end so |
| CatalogAnswers.WonWrites | src/catalog.rs:3011-3049 | The row a won ending leaves, column by column; the staged success goes |
| CatalogAnswers.WonSettlesLedgers | src/catalog.rs:3050-3067 | Exactly the ledgers in progress on the capture are settled: SUCCEEDED if and only if it is a success, with its reply, time and error |
| CatalogSuccess.SuccessCanBeWon | src/catalog.rs:2479-3070 | Every run in which a request is accepted, with every prepared artifact about it, goes on in seven steps to a won success with that result |
| CatalogSteps.CompareAndSetKeeps | src/catalog.rs:2915-2935 | A guarded state change keeps the catalog invariant |
| CatalogSteps.RescheduleKeeps | src/catalog.rs:791-849 | Rebasing deadlines keeps the invariant |
| CatalogSteps.BeginPersistingKeeps | src/catalog.rs:1104-1165 | Entering PERSISTING with its staged success keeps the invariant, and the staged row is never a duplicate |
| CatalogSteps.BeginInstallKeeps | src/catalog.rs:2937-2956 | Starting the installation keeps the invariant |
| CatalogSteps.RecordInstalledKeeps | src/catalog.rs:1168-1210 | Recording the installed artifact keeps the invariant: installed facts equal the expected ones |
| CatalogSteps.TerminalKeeps | src/catalog.rs:2958-3070 | Terminal arbitration keeps the invariant: success is installed and error-free, a cancelled job never started installing |
| CatalogSteps.QueueGroupKeeps | src/catalog.rs:2641-2687 | Queueing a group keeps the invariant: a QUEUED group has no ACCEPTED member |
| CatalogSteps.CompleteGroupKeeps | src/catalog.rs:2689-2750 | Completing a group keeps the invariant: a terminal group has only terminal members |
| CatalogSteps.AcceptJobKeeps | src/catalog.rs:2479-2545 | Acceptance keeps the invariant and never trips UNIQUE(instance, request_id) |
| CatalogSteps.AcceptScheduledKeeps | src/catalog.rs:2547-2585 | Scheduled acceptance keeps the invariant and never reuses an occurrence |
| CatalogSteps.AcceptGroupKeeps | src/catalog.rs:2587-2639 | Group acceptance keeps the invariant |
| CatalogSteps.SettleReconnectsKeeps | src/catalog.rs:1290-1301 | Settling interrupted reconnects keeps the invariant |
| CatalogSteps.MarkUnknownKeeps | src/catalog.rs:1306-1316 | Marking outcomes unknown keeps the invariant: only standalone ledgers become unknown |
| CatalogSteps.BeginCommandKeeps | src/catalog.rs:2752-2782 | Opening a command ledger keeps the invariant |
| CatalogSteps.CompleteCommandKeeps | src/catalog.rs:2784-2817 | Completing a command keeps the invariant |
| CatalogSteps.RecordAcceptanceKeeps | src/catalog.rs:2819-2846 | Recording an acceptance reply keeps the invariant |
| CatalogPrunes.DeleteJobsKeeps | src/catalog.rs:3204-3217 | Deleting removable jobs leaves no dangling reference between jobs, ledgers, groups, members, staged rows and occurrences |
| CatalogPrunes.DeleteGroupsKeeps | src/catalog.rs:3113-3166 | Deleting whole groups leaves no dangling reference |
| CatalogPrunes.PruneLedgersKeeps | src/catalog.rs:1503-1544 | Deleting finished standalone ledgers leaves no dangling reference |
| CatalogPrunes.StepKeeps | src/catalog.rs:2479-3217 | All 22 kinds of transaction keep the whole invariant, and none fails on a constraint that the code has already ruled out |
| CatalogRuns.RunKeeps | src/catalog.rs:2479-3217 | Every state of every run from an empty catalog satisfies the invariant |
| CatalogRuns.RowFollows | src/catalog.rs:2915-3070 | Any step moves any job row only along the stage graph, never changes its identity or its preparation, and leaves a terminal row as it is |
| CatalogRuns.RowOverRun | src/catalog.rs:2915-3070 | Over any run while the job is retained: identity fixed, stages forward only, installation never un-started, terminal rows frozen |
| CatalogRuns.OneWinner | src/catalog.rs:2958-3070 | At most one terminal call ever wins, and its row is what every later reader sees |
| CatalogRuns.InstallExcludesCancel | src/catalog.rs:2937-2983 | At most one call starts the installation, and after it no cancellation wins |
| CatalogRuns.WinExcludesInstall | src/catalog.rs:2937-3070 | After any ending has won, a cancellation included, no installation starts |
| CatalogRuns.PersistingWasStaged | src/catalog.rs:1104-1165 | A PERSISTING row and its staged success are those of the begin_persisting call that took it there |
| CatalogRuns.SucceededWasStaged | src/catalog.rs:2958-3087 | A SUCCEEDED row has the body and time that an earlier begin_persisting staged, and an installed checksum and size equal to those it expected |
| CatalogLedgers.LedgersAfter | src/catalog.rs:2784-2846 | Any step fixes ledger targets, freezes finished rows, lets only standalone rows become unknown and deletes no unknown row |
| CatalogLedgers.FinishedIsFrozen | src/catalog.rs:2784-2817 | Over any run a SUCCEEDED or FAILED ledger never changes while it is retained |
| CatalogLedgers.UnknownIsSticky | src/catalog.rs:1290-1316 | Over any run an unknown outcome is standalone, is never deleted, and leaves that state only for the reconnect verb |
| CatalogLedgers.EndingSettlesLedgers | src/catalog.rs:3040-3068 | A winning ending settles every ledger still waiting for the job, with its own outcome, reply and bounded error |
| CatalogLedgers.RetryMeetsOwner | src/catalog.rs:2479-2545 | While a capture owns a (camera, requestId) pair, a request through any verb inserts nothing and hears that capture or Conflict by its hash, unless its own key already holds a ledger without a capture |
| CatalogLedgers.FirstRequestInserts | src/catalog.rs:2479-2545 | The first capture request under a pair inserts its capture, whatever other commands have used that request id under their own verbs |
| CatalogLedgers.AcceptanceIsIdempotent | src/catalog.rs:2479-2545 | Over any run, with any other commands and groups in it: while an inserted capture is retained, no request under its pair inserts another; a retry hears Existing with that capture or Conflict by the hash, except where its own exact key holds a non-capture ledger, whose answer is stated too |
| CatalogLedgers.KeyIsCaptures | src/catalog.rs:2479-2545 | Over any run, a key that no standalone command or group has used leads to a capture, if anywhere |
| CatalogLedgers.RetainedWithoutPrunes | src/catalog.rs:3089-3217 | Without pruning in between, a capture is retained |
| CatalogStale.StaleAfter | src/catalog.rs:2479-3217 | For every kind of step, exactly how a ledger becomes, stays and ceases to be in progress on an ended capture |
| CatalogStale.StaleExactly | src/catalog.rs:2505-2521 | In every reachable state, a ledger is in progress on an ended capture if and only if a request on that fresh key was answered with an ended capture, and since then no command completed under the key and the capture was not deleted |
| CatalogStale.InProgressMeansRunning | src/catalog.rs:3040-3068 | Without such a retry, every capture ledger in progress has a capture still running |
| CatalogStale.StaleIsReachable | src/catalog.rs:2479-2545 | Accept, interrupt, retry under the other verb: a run that gets there |
| CatalogOutcomes.GroupInsertedWrites | src/catalog.rs:2587-2639 | An inserted group writes its row, its ledger and each member's row column by column, and keeps every other row |
| CatalogOutcomes.QueueGroupAnswers | src/catalog.rs:2641-2666 | Queueing is refused, does nothing or queues exactly under these states of group and members |
| CatalogOutcomes.QueueGroupWrites | src/catalog.rs:2667-2687 | Group and members become QUEUED at the step's time; nothing else changes |
| CatalogOutcomes.CompleteGroupAnswers | src/catalog.rs:2689-2712 | Completing is refused, does nothing or completes exactly under these states of group and members |
| CatalogOutcomes.CompleteGroupWrites | src/catalog.rs:2713-2750 | The group row gets that state, time, result, code and cut message; its own ledger, if in progress, is SUCCEEDED if and only if the group is, with that reply, time and error; every other ledger and every job is unchanged |
| CatalogOutcomes.GroupEndsOnce | src/catalog.rs:2689-2750 | Over any run, what the first completion of a group wrote is what every later reader sees |
| CatalogOutcomes.BeginCommandAnswers | src/catalog.rs:2752-2782 | A known key answers Existing or Conflict by its hash; a new one opens a ledger in progress |
| CatalogOutcomes.CompleteCommandAnswers | src/catalog.rs:2784-2817 | A ledger in progress, and no other, gets the outcome asked for with its reply, time and error |
| CatalogOutcomes.RecordAcceptanceAnswers | src/catalog.rs:2819-2846 | A ledger in progress, and no other, gets the reply, and only its reply and time change |
| CatalogOutcomes.MarkUnknownAnswers | src/catalog.rs:1306-1316 | A ledger is unknown afterwards if and only if it was, or was standalone and in progress; its time is the step's if it changed; target, reply and error are kept; no standalone ledger is left in progress |
| CatalogOutcomes.SettleReconnectsAnswers | src/catalog.rs:1290-1301 | Exactly the unresolved standalone reconnects become SUCCEEDED at the step's time |
| CatalogOutcomes.RunningIsNew | src/catalog.rs:1306-1316 | Over any run, a standalone command in progress after a marking was opened since |
| CatalogOutcomes.UnresolvedReconnectIsNew | src/catalog.rs:1279-1301 | Over any run, a reconnect unresolved after a settling was opened since |
| CatalogOutcomes.RecoveryLeavesNoneRunning | src/runtime/supervision.rs:876-892 | Over any run, after both recovery steps every standalone ledger not opened since is finished, or unknown and not a reconnect |
| CatalogGroups.LoadsEveryMember | src/catalog.rs:3405-3435 | Loading a group whose members exist returns all of them in stored order |
| CatalogGroups.AcceptGroupIsAtomic | src/catalog.rs:2587-2639 | Group acceptance inserts ledger, group and every member, or nothing |
| CatalogGroups.OrderedByIndex | src/catalog.rs:3408-3417 | However the member rows are stored, any result of the query ordered by result index lists the existing members in request order |
| CatalogGroups.MembersReadInOrder | src/catalog.rs:3370-3435 | Over any run, a retained group reads back whole: any load ordered by result index gives every member in request order, each with its accepted identity |
| CatalogGroups.GroupsLeaveWhole | src/catalog.rs:3113-3166 | A group that goes takes all members and its ledger with it; one that stays keeps them |
| Selection.SelectFirst | src/catalog.rs:3095-3108 | ORDER BY ... LIMIT k for any strict total order of rows: distinct rows, in order, all before every row left behind |
| Retention.SelectOldest | src/catalog.rs:3095-3108 | ORDER BY time, id LIMIT k: distinct rows, oldest first, all before every row left behind |
| Retention.SelectionIsUnique | src/catalog.rs:3185-3198 | The order leaves exactly one possible set of victims |
| Retention.CountRetentionIsExact | src/catalog.rs:3168-3217 | Removes exactly min(excess, limit, eligible) rows, the oldest eligible, nothing else; never below the cap; nothing at or under it |
| Retention.AgeRetentionIsExact | src/catalog.rs:3089-3111 | Removes exactly min(limit, eligible) rows older than the cutoff, oldest first, keeping standalone and unknown ledgers |
| Retention.LedgerSelectionIsUnique | src/catalog.rs:1514-1524 | The order by time and key leaves exactly one possible set of ledgers to prune |
| Retention.LedgerRetentionIsExact | src/catalog.rs:1503-1544 | Removes exactly min(limit, eligible) finished standalone ledgers older than the cutoff, oldest first, and touches nothing else |
| RetentionAnswers.RemovableJobsAre | src/catalog.rs:3185-3198 | What the count limit may take: ended jobs outside groups with every outcome known |
| RetentionAnswers.ExpiredJobsAre | src/catalog.rs:3089-3108 | What age may take: of those, the ones that ended before the cutoff |
| RetentionAnswers.ExpiredGroupsAre | src/catalog.rs:3113-3134 | Ended groups past the cutoff with all members ended and every outcome known |
| RetentionAnswers.ExpiredLedgersAre | src/catalog.rs:1514-1524 | Finished standalone commands last touched before the cutoff |
| RetentionAnswers.ExcessIs | src/catalog.rs:3168-3184 | Every ended job counts against the maximum, in a group or not |
| RetentionAnswers.JobsGoOldestFirst | src/catalog.rs:3095-3108 | Oldest ending first, then byte order of ids |
| RetentionAnswers.LedgersGoOldestFirst | src/catalog.rs:1514-1524 | Oldest touch first, then camera, verb and request id |
| RetentionAnswers.PruneAnswers | src/catalog.rs:1472-1562 | A batch limit outside 1 to 10000 is refused, and a cap past the largest integer |
| RetentionAnswers.JobsGoWith | src/catalog.rs:3204-3217 | What goes with a deleted job: its staged success, its occurrences, and its ledgers unless unknown |
| RetentionAnswers.GroupsGoWith | src/catalog.rs:3135-3166 | What goes with a deleted group: every member with all its own, and its ledgers unless unknown |
| Paging.PageIsExact | src/catalog.rs:1022-1077 | One page holds the newest wanted rows up to the limit, newest first, and a page that is not full is the last; limits outside 1 to 1000 are refused |
| Paging.ScanIsSorted | src/catalog.rs:1022-1077 | The reference scan holds each matching row once in descending (acceptedAt, captureId) order |
| Paging.PagesAreOneScan | src/catalog.rs:1022-1077 | Following cursors with any limit of at least one concatenates to that scan |
| Paging.PagesBelowAreStable | src/catalog.rs:1022-1077 | Rows that appear or disappear at or above the cursor change no later page |
| CatalogStore.Catalog.InsertJob | src/catalog.rs:1915-2045 | The insert fails exactly on the table's UNIQUE constraints |
| CatalogStore.Catalog.AcceptJob | src/catalog.rs:2479-2545 | The statements with their rollback amount to the atomic acceptance step |
| CatalogStore.Catalog.AcceptScheduled | src/catalog.rs:2547-2585 | The statements amount to the atomic step; neither insert can fail |
| CatalogStore.Catalog.AcceptGroup | src/catalog.rs:2587-2639 | Ledger, group and member inserts, rolled back at the first violation, amount to the atomic step |
| CatalogStore.Catalog.InsertMembers | src/catalog.rs:2629-2635 | The member loop succeeds exactly when no member exists yet, and then has inserted all of them in order |
| CatalogStore.Catalog.QueueGroup | src/catalog.rs:2641-2687 | The member updates and the group update amount to the atomic step; the lost-CAS branches are unreachable |
| CatalogStore.Catalog.CompleteGroup | src/catalog.rs:2689-2750 | The statements amount to the atomic step; the lost-CAS branch is unreachable |
| CatalogStore.Catalog.CompareAndSet | src/catalog.rs:2915-2935 | The guarded update and its change count amount to the atomic step |
| CatalogStore.Catalog.BeginInstall | src/catalog.rs:2937-2956 | The guarded update and the row read back tell started, already started and wrong state apart exactly as the atomic step does |
| CatalogStore.Catalog.RecordInstalled | src/catalog.rs:1168-1210 | The checks and the guarded update amount to the atomic step |
| CatalogStore.Catalog.BeginPersisting | src/catalog.rs:1104-1165 | The update and the staged insert amount to the atomic step; the insert cannot fail |
| CatalogStore.Catalog.Refusal | src/catalog.rs:2966-3010 | The checks before the terminal update, in order, decide exactly what the atomic step decides |
| CatalogStore.Catalog.Terminal | src/catalog.rs:2958-3070 | Checks, guarded update, clean-up and ledger settlement amount to the atomic step; the guarded update always hits |
| CatalogStore.Catalog.DeleteTerminalJobs | src/catalog.rs:3204-3217 | Deleting rows one by one equals deleting the set, and trips no foreign key |
| CatalogStore.Catalog.EnforceLimit | src/catalog.rs:3168-3202 | Counting, selecting and deleting amount to the atomic step with the selected victims |
| CatalogStore.Catalog.PruneJobs | src/catalog.rs:3089-3111 | Selecting and deleting amount to the atomic step with the selected victims |
| CatalogStore.Catalog.PruneGroups | src/catalog.rs:3113-3166 | The nested deletion loops amount to deleting the selected groups at once |
| CatalogStore.Catalog.PruneLedgers | src/catalog.rs:1503-1544 | Selecting and deleting key by key amount to the atomic step with the selected ledgers |
| CatalogStore.MembersAreDisjoint | src/catalog.rs:3135-3152 | No capture belongs to two groups, so deleting one group's jobs trips no foreign key |
| Queue.GoesFirstExactly | src/admission.rs:34-40 | Which of two entries goes first, in complete intervals waited: the one ahead once its class's head start of 0, 1 or 2 intervals is added, or on a tie the lower ticket |
| Queue.ClassesInOrder | src/admission.rs:34-40 | At equal age DIRECT goes before SUBMITTED and SUBMITTED before SCHEDULED, whatever the tickets |
| Queue.LowerClassGoesFirst | src/admission.rs:428-431 | For each pair of classes, with one, one and two intervals, exactly when the lower one goes first |
| Queue.PopExactly | src/admission.rs:127-184 | What is left and what is handed out, entry by entry: everything not cancelled and due after the clock |
| Queue.PopIsUnique | src/admission.rs:151-166 | A pop has exactly one possible result |
| Queue.OvertakingBound | src/admission.rs:428-431 | A later ticket wins only if it entered less than the literal class gap (0, 1 or 2 intervals) later, with times read as no later than the pop |
| Queue.TicketOrderIsExact | src/admission.rs:151-166 | Within one class, the earlier ticket goes first at every pop clock if and only if it was not enqueued later |
| Queue.ClockConditionIsExact | src/admission.rs:428-431 | For every clock, interval and time t: the bound on enqueue times holds for all entries enqueued at t if and only if t is not after the clock |
| Queue.StaysQueued | src/admission.rs:127-184 | Over any run in which an entry stays live and admissible, whatever the clocks read, it stays queued until it is handed out |
| Queue.BoundedOvertaking | src/admission.rs:127-184 | Then every pop hands something out, and nothing passes it from the literal class gap of 0, 1 or 2 intervals later on, in enqueue times as soon as that one pop's clock is not behind what it hands out |
| Queue.CaptureQueue.New | src/admission.rs:200-230 | Refuses zero bounds and a zero interval; otherwise starts empty |
| Queue.CaptureQueue.DrawTicket | src/admission.rs:270-283 | A fresh ticket without the lock, unless the ticket space is used up |
| Queue.CaptureQueue.Insert | src/admission.rs:284-308 | With any ticket drawn before, whatever happened since: accepted exactly within both bounds, and then the contents grow by that entry only |
| Queue.CaptureQueue.TryEnqueue | src/admission.rs:246-334 | Accepts exactly when valid, live, inside a runtime, within both bounds and with tickets left; the error is the first that applies; only a refusal for capacity uses a ticket up |
| Queue.CaptureQueue.SwapRemove | src/admission.rs:104-105 | Removes exactly that entry, keeps the prefix in place and the per-camera counts true |
| Queue.CaptureQueue.Remove | src/admission.rs:92-110 | Removes exactly the ticket's entry and says whether there was one |
| Queue.CaptureQueue.Sweep | src/admission.rs:138-149 | One in-place pass removes exactly the cancelled and expired entries |
| Queue.CaptureQueue.Best | src/admission.rs:151-161 | Finds the unique best admissible entry, or that there is none |
| Queue.CaptureQueue.PopBestAdmissible | src/admission.rs:127-184 | Drops exactly the dead, hands out the unique best admissible live entry if any, keeps all others; counts and both bounds stay true |
| Queue.DecrementCounts | src/admission.rs:433-440 | Counting down keeps per_camera equal to the true counts, with no entry at zero |
| FleetSlots.BoundsHold | src/dispatch.rs:77-146 | In every interleaving, whatever cameras the commits name: queued <= used <= maximum, no camera holds more slots than it may, and a held slot has global room |
| FleetSlots.ReserveExactly | src/dispatch.rs:77-125 | In every reachable state, a reservation is admitted exactly while its camera has fewer slots out than it may, and granted exactly while fewer than the maximum are in use |
| FleetSlots.SlotComesBack | src/dispatch.rs:77-146 | From every reachable state, a granted slot that is abandoned or committed under any name, refused or not, and dropped leaves slots, queue and all counts as before |
| FleetSlots.GiveBackCameraKeeps | src/dispatch.rs:127-146 | The second half of a drop always finds its camera counted, so nothing saturates |
| FleetSlots.StepKeeps | src/dispatch.rs:84-146 | Every atomic access of reserve, commit, dequeue and drop keeps the slot invariant, whatever the commits name |
| FleetSlots.RefusalIsExact | src/dispatch.rs:381-406 | A holder's commit is refused for room exactly when own plus foreign descriptors fill its camera's queue; its own alone never do |
| FleetSlots.ForeignWasCommitted | src/dispatch.rs:381-406 | Every foreign descriptor queued under a camera's name was committed by an earlier commit from another camera's slot |
| FleetSlots.RefusedHolderWasTrespassedOn | src/dispatch.rs:381-406 | A refused holder of its own camera has a foreign descriptor still queued under that name |
| FleetSlots.CommitNeverFull | src/dispatch.rs:380-407 | In every interleaving without a foreign commit under this one camera's name: its queue stays within its count and its holders are never refused with QUEUE_FULL |
| FleetSlots.ForeignCommitFills | src/dispatch.rs:381-406 | A commit under another camera's name can refuse that camera's rightful holder |
| ActorSlots.CommitNeverFull | src/actor.rs:435-506 | In every interleaving, waiting <= used <= maximum for an actor, and no commit is refused with QUEUE_FULL |
| ActorSlots.ReserveExactly | src/actor.rs:443-457 | A slot is granted exactly while fewer are out than the actor has |
| ActorSlots.SlotComesBack | src/actor.rs:435-506 | Whichever way a granted slot goes, the actor is as before once it is dropped |
| Permits.PermitComesBack | src/dispatch.rs:262-307 | Given up, failed in dispatch or held to the terminal hook, a permit comes back and the rest of the pool is as before |
| Permits.PermitsConserved | src/dispatch.rs:262-307 | In every interleaving, free + with the consumer + in flight + on the way back = maximum |
| Permits.OutlivesExactly | src/dispatch.rs:283-307 | In every interleaving, a permit outlives its capture if and only if it was handed over after the capture's terminal hook, and nothing has cleaned up since |
| Permits.TimelyHoldsAreReturned | src/dispatch.rs:283-307 | While every hand-over comes before its capture's hook, finished captures hold no permit |
| Permits.LostForGood | src/dispatch.rs:296-332 | A permit that outlives its capture stays lost as long as neither its hook nor a failed dispatch of it runs again |
| Permits.LostPermitsNarrow | src/dispatch.rs:262-281 | Each lost permit narrows the scheduler by one; as many as there are stop it |
| Permits.LateHoldHappens | src/runtime/supervision.rs:343-352 | A run of four steps that loses one |
| Wakeup.LookTakesExactly | src/admission.rs:354-368 | An undisturbed look, whatever the order of its checks, takes an entry exactly if it is alive and its camera accepts with a free slot, and parks exactly if there is none |
| Wakeup.ArrivalsTakeEffect | src/admission.rs:284-334 | A new descriptor is ready exactly if its camera is, and a removed one is gone |
| Wakeup.ChangesTakeEffect | src/dispatch.rs:218-252 | A camera that is gone or stops accepting makes its descriptors not ready, one that comes back with a free slot makes them ready |
| Wakeup.BroadcastWakes | src/admission.rs:362-367 | A broadcast on either signal wakes a parked consumer |
| Wakeup.KeptArrivalIsFound | src/admission.rs:344-357 | An arrival that woke the consumer for nothing is found, and spent, on the next turn |
| Wakeup.NoLostWakeup | src/admission.rs:337-369 | In every interleaving, a consumer parked without a pending signal has no admissible entry queued, unless the thread that inserted it or made it admissible has yet to signal |
| Wakeup.ParkedConsumerWakes | src/admission.rs:362-367 | Once every owed signal is raised, a parked consumer with admissible work can wake |
| Wakeup.ChangeCovers | src/dispatch.rs:218-252 | Whatever makes a camera admissible owes a capacity signal for it |
| Wakeup.RegisteringLateLosesIt | src/admission.rs:344-357 | A consumer that registers as it parks has a run that ends parked on admissible work, with nothing owed and no step of its own left |
| StopWatch.NoLostStop | src/admission.rs:529-565 | A watcher parked on a waiting stop has been signalled or some pusher has yet to signal |
| StopWatch.WatcherSeesStop | src/admission.rs:529-565 | An undisturbed turn sees a waiting stop and parks exactly without one; a parked watcher gets out on the next stop |
| Budgets.MemoryReservedExactly | src/admission.rs:683-724 | In every reachable state an undisturbed reservation succeeds exactly if it fits beside what is reserved and on its way back, and takes exactly that |
| Budgets.MemoryComesBack | src/admission.rs:752-768 | A release gives back exactly what the reservation held |
| Budgets.ShrinkComesBack | src/admission.rs:737-750 | A shrink gives back exactly the difference |
| Budgets.FloorIsLeast | src/admission.rs:827-828 | The floor is the least number of bytes that covers both the configured bytes and the configured percentage |
| Budgets.DiskReservedExactly | src/admission.rs:802-855 | In every reachable state an undisturbed disk reservation succeeds exactly if it and the floor fit beside what is outstanding |
| Budgets.BadProbesAreRefused | src/admission.rs:822-827 | A probe with more free than there is reserves nothing |
| Budgets.DiskComesBack | src/admission.rs:881-886 | A release takes off exactly what the reservation held |
| Budgets.DiskShrinkComesBack | src/admission.rs:868-879 | A shrink takes off exactly the difference |
| Budgets.MemoryConserved | src/admission.rs:683-768 | In every interleaving of loads, compare-exchanges and releases: available + reserved + in transit = capacity |
| BudgetWaits.TurnTakesExactly | src/admission.rs:683-722 | An undisturbed turn takes its bytes exactly if there are enough and parks exactly if not; a release that brings enough lets the next turn take them |
| BudgetWaits.ReleaseIsLostOnlyUnpolled | src/admission.rs:683-760 | In every interleaving, a reservation asleep with room and nothing owed was signalled between building and polling its waiter, which is impossible if waiters count from creation |
| BudgetWaits.ReleaseCanBeLostExactly | src/admission.rs:683-760 | For every capacity and every amount up to it: some interleaving loses a release if and only if waiters do not count from creation |
| Budgets.BudgetRuleIsExact | src/config.rs:1271-1290 | Within the configured ranges the saturating rule means captures x frame <= budget |
| Budgets.RoomForOneMore | src/config.rs:1271-1290 | At rest, fewer live reservations than advertised captures, each within the cap, leave room for one more |
| Budgets.PercentageFloorIsExact | src/admission.rs:1259-1268 | For every 64-bit total and percent up to 100: never fails, is the exact ceiling, never exceeds the total |
| Budgets.DiskTracked | src/admission.rs:802-886 | In every interleaving outstanding = reserved + in transit, and nothing wraps |
| Budgets.ReservationRespectsFloor | src/admission.rs:828-855 | Each successful reservation leaves outstanding + floor within the probed free bytes |
| Budgets.FloorHolds | src/admission.rs:802-855 | With a constant probe the floor holds in every reachable state with anything outstanding |
| Leases.AcquiredExactly | src/admission.rs:985-1035 | In every reachable state an undisturbed acquisition gets its lease exactly if both permits and the memory are there beside leases and previews, and holds exactly that |
| Leases.PreviewExactly | src/admission.rs:1100-1107 | A preview gets its bytes exactly if they are there, and ending it undoes it |
| Leases.ShrinkGivesMemoryBack | src/admission.rs:1172-1175 | A lease in processing gives memory up by exactly the difference |
| Leases.ShrinkGivesDiskBack | src/admission.rs:1182-1185 | A lease in processing gives disk up by exactly the difference |
| Leases.ResourcesConserved | src/admission.rs:985-1107 | In every interleaving each of the four resources is its limit minus what live leases hold, and for memory also what previews reserve without a lease |
| Leases.FailuresLeaveNoTrace | src/admission.rs:985-1035 | Equal leases mean equal permits and disk, and equal memory up to the difference in previews, whatever failed in between |
| Leases.FailureUnwinds | src/admission.rs:985-1035 | In every reachable state, a failure at any stage of acquisition, a frame that outgrew its reservation or a dropped lease drops everything in reverse order without waiting: the lease is gone and each of the four resources is back by exactly what it held |
| Leases.FinishReturnsPermits | src/admission.rs:1138-1154 | A frame that fits keeps its disk and its own bytes, and both permits and the surplus memory are back |
| ControlLanes.Lanes.New | src/admission.rs:498-513 | Refuses capacities outside 1..1024 |
| ControlLanes.Lanes.TryPushOrdinary | src/admission.rs:516-526 | Refused exactly at capacity; never touches the safety lane |
| ControlLanes.Lanes.PushSafetyStop | src/admission.rs:529-547 | Refused exactly without an axis; never for capacity |
| ControlLanes.Lanes.PopNext | src/admission.rs:568-578 | Safety first, then the head of the ordinary lane |
| ControlLanes.StopsAreNeverLost | src/admission.rs:455-578 | Over any run, a pop with stops waiting hands out their axis-wise union with the tightest deadline; without, no stop |
| ControlLanes.NothingIsHeldBack | src/admission.rs:516-578 | Over any run, a pop without stops hands out the oldest accepted item not handed out yet, empty-handed only if there is none; pushes are refused exactly at capacity or without an axis |
| ControlLanes.OrdinaryIsFifo | src/admission.rs:516-578 | Over any run, handed-out work followed by queued work is the accepted work, within capacity |
| BoundedWriter.ViolationIsForever | src/encoding.rs:421-473 | A recorded violation never clears |
| BoundedWriter.PutAt | src/encoding.rs:421-446 | Byte by byte what a write leaves: the new bytes at the cursor, the old elsewhere, zeros in a gap |
| BoundedWriter.SeeksLand | src/encoding.rs:453-473 | A seek to the end appends, a seek back over what was written rewrites it |
| BoundedWriter.ViolationExactly | src/encoding.rs:421-473 | Over any run, a violation is on record exactly if some operation found the job cancelled or went past the maximum, and it is that of the last one |
| BoundedWriter.RefusedExactly | src/encoding.rs:55-71 | Each check before the writer, told apart |
| BoundedWriter.WriterTracks | src/encoding.rs:421-473 | Over any run without violation: position is the cursor, the sink is within the maximum, high-water is the larger of sink length and furthest hollow write |
| BoundedWriter.CountIsExact | src/encoding.rs:421-473 | The count is exact if and only if no hollow write lies beyond the end |
| BoundedWriter.NonEmptyWritesCountExactly | src/encoding.rs:421-451 | Writes that put down at least one byte always leave an exact count |
| BoundedWriter.HollowWriteMiscounts | src/encoding.rs:421-446 | A seek past the end and an empty write report five bytes for an empty sink |
| BoundedWriter.Bounded.WriteBytes | src/encoding.rs:421-446 | One write: cancelled, over the limit, failed, or partial, with the whole new state |
| BoundedWriter.Bounded.SeekTo | src/encoding.rs:453-473 | One seek: the sink moves first, and past the maximum only the violation is recorded |
| BoundedWriter.EncodeTo | src/encoding.rs:49-102 | Ok exactly when no check before it refuses and no violation, cancellation, encoder or flush error follows; never with an oversized sink; the first failure in order otherwise |
| StreamCopy.CaughtSpins | src/encoding.rs:327-337 | A copy that finds the token cancelled with part of a chunk to go writes nothing more and never ends |
| StreamCopy.CopyEndsExactly | src/encoding.rs:327-337 | For every frame, limit, token and sink that answers: the copy ends if and only if the token is never found cancelled in the middle of a chunk |
| StreamCopy.TurnEndsExactly | src/encoding.rs:327-337 | Each ending, exactly when it comes: copied, stopped, too large, sink failed, wrote nothing |
| StreamCopy.FairCopySucceeds | src/encoding.rs:327-337 | A frame that fits is copied whole by any sink that goes on taking bytes |
| StreamCopy.CopiedIsWhole | src/encoding.rs:327-337 | A copy that ends well has put exactly the frame into the sink and counted exactly its bytes, whatever partial and interrupted writes it took |

## Left out

- SQLite, file locks, worker threads, schema migrations, corruption quarantine: a transaction is one atomic step.
- The Unicode category check and the object-shape checks on opaque request material in the catalog's validation.
- The JSON text of stored values: storing and loading a value is taken to be the identity.
- Deferred waiters, group schedule cursors and `updated_at_ms` of jobs: simple columns beside the modelled ones.
- Group member rows: kept as one sequence per group, whose positions are the result indices; the query's order is modelled over them.
- The number of rows that a recovery update or a deadline rebase reports: these steps answer Done.
- JsonReader: reads `u` escapes below 0x80 only and does not check the grammar inside a number, which the printer passes through.
- SHA-256: a request hash is an opaque value.
- CatalogStore: deadline rebasing and the standalone command ledgers, each one update, appear as atomic steps only.
- CatalogStore.Catalog.DeleteTerminalJobs: the foreign key on group members is a precondition of each delete, which the caller proves.
- Budgets.RoomForOneMore: profile overrides above the per-camera frame cap are outside its premise, as in the configuration rule itself.
- Wakeup.NoLostWakeup: for one consumer, as in the scheduler; cancellation of the consumer is not modelled.
- Leases.ResourcesConserved: memory and disk steps are atomic here, because `Budgets` covers their load and compare-exchange loops; the disk step may fail or succeed at any time, so the floor that decides it is in `Budgets` only.
- BoundedWriter.EncodeTo: the image codecs are any sequence of writes and seeks, and that they end is not stated; whether the frame is well formed and the encoding supported are answers it is given.
- Actor loop, camera backends, PTZ, registry, observability, configuration other than the budget rule: not modelled.
