# Verified model of the nostr storage orchestrator

The orchestrator lets many storage providers act as one Postgres database and one storage pool.
This project models its two stateful cores and proves what they promise.

**The mesh data plane (`pg-gateway`).** Every table is cut into exclusive slices, one per provider.
A write picks an owner, is buffered in the central store and gets a placement; a background
dispatcher re-picks the owner, applies the op there, records the placement and deletes the op, while
the roster of providers changes underneath. Point reads look in the buffer, then ask the placed
provider. Whole-table reads ask every provider, merge by primary key and lay the buffer over the
result. Aggregates are rewritten into a partial query per provider and merged. Statements are
rewritten on the way (bound parameters inlined, the predicate of a conflict target cut out and put
back), and schema changes are numbered and delivered to the providers.

**The control plane (`control-plane-backend`).** Member and storage handlers run concurrently around
one mutation lock, some of them without it, after an authorization check made before the lock; a
replay cache accepts each signed request once, and a reaper removes storages that never report.

The third part is the exact gigabyte parser and printer of the admin app.

## How it is modelled

- The write path is a transition system (`MeshProtocol.dfy`): one step per central-store or provider
  call, any interleaving of writer, dispatcher and roster poll, applies that fail with or without
  having taken effect, tasks that stop anywhere. Provider databases follow pg-agent's apply.
  `Gateway.dfy` runs the source's loops on that system as methods of a class; between their steps any
  other task may move (`Others`, whose contract is all a caller may rely on).
- A regime is a predicate on whole runs: a fixed set of providers, or providers only added with
  atomic writes, clean failures and no acknowledgement forgotten. Each assumption of the second has a
  run without it that puts a row on two providers (`RosterRaces.dfy`).
- JSON rows are maps from column to value with NULL. Numbers are exact reals, read from JSON numbers
  or plain decimal text. What the databases compute is specified directly (`AggregatePlan.dfy`,
  `UnionReads.dfy`), as a relation where SQL leaves a choice (row order, ties, equal minima).
- What one database answers is defined apart from the gateway's code. Its order of values is
  `SqlOrder.dfy`: NULLs last ascending and first descending, false before true, numbers by value and
  text by bytes, according to the type of the column.
- The aggregate merge is exact under conditions that a caller can check on the plan and the columns:
  key columns are an un-aliased prefix of the GROUP BY (`Aligned`), names are distinct (`WellNamed`),
  the gateway's comparison of `min`/`max` values agrees with SQL's and `count(distinct)` values differ
  as texts and add no NULL (`Fits`), its ORDER BY comparison says nothing against SQL's on the rows
  that may come back (`Sortable`), and one slice answered, which the caller of the merge ensures.
  `AggregateCells.dfy`, `AggregateLimits.dfy` and `RowOrder.dfy` say exactly when these hold and show
  what happens outside.
- Schema delivery and the control plane are transition systems with sent requests and answers kept in
  the state, so that they may be acted on at any later time.
- Where a promise of the code fails, the failing input is a lemma and the exact condition is another.
- What the code prints or encodes (literals, hex, UTF-8, decimal amounts) is pinned by a reader that is
  defined apart from it.

## Findings

- A grouped column projected under an alias, or not in GROUP BY order, is lost or shown under the
  wrong name by the aggregate merge (`AggregateLimits.KeyReadExactly`, `KeyShownExactly`).
- Counts, or sums, that share an output name are each added to it, so that the result is multiplied
  by their number (`AggregateLimits.SharedCountExactly`, `SharedSumExactly`).
- `count(distinct)` counts NULL as a value unless the text "null" occurs too
  (`AggregateCells.DistinctIsExact`).
- ORDER BY leaves JSON booleans and NULLs where they stand and sorts texts of digits as numbers. A
  column comes out in SQL's order, on all data, exactly when none of these gets in the way
  (`RowOrder.OneItemExactly`, `BooleansUnsorted`, `NullsUnsorted`, `DigitsUnsorted`).
- An ORDER BY name that differs from its column in upper and lower case is accepted and sorts nothing
  (`RowOrder.OtherLettersExactly`).
- `min` and `max` of a text column compare texts of digits as numbers, so that 9 is merged as smaller
  than 10 (`AggregateCells.ExtremesExactly`, `DigitExtremes`).
- A bound statement is inlined twice. A bound text that holds the placeholder of any bound index, its
  own included, is itself rewritten: $1 bound as $1 becomes NULL (`ParamLimits.TwiceExactly`,
  `OwnPlaceholder`).
- A token bound to a text right before a quote, or right before another such token, runs into it: the
  statement then no longer denotes the bound values (`ParamLiterals.StatementReadsBack`).
- The comment on the conflict-predicate scan promises that quotes are respected; the code cuts at the
  first " DO " even inside a literal (`Conflict.StripExactly`, `LiteralIsCut`).
- The comment on UNION pushdown calls the merge exact for UNION; UNION ALL loses repeated rows, and
  a statement is answered exactly on all data if and only if it returns no row twice
  (`UnionReads.AlwaysExactIff`, `UnionAllCollapses`). EXCEPT and INTERSECT are refused although on
  whole rows they would be exact (`UnionReads.RefusedAlthoughExact`).
- Propagating a migration to a provider that missed an earlier one records it as up to date. After
  that only a catch-up that had read the watermark before can repair it (`Watermarks.SkippedMigration`,
  `RepairedIff`, `OnlyEarlierReadsResend`).
- A writer that records its owner late, after the dispatcher has placed the row elsewhere, hides the
  row from point reads, unless the provider it names has the row too
  (`ReadYourInsert.LatePlacementExactly`, `SettledExactly`, `LatePlacementHidesRow`).
- A tick that stops between an acknowledgement and recording it can put a row on two providers exactly
  when the index does not already name the provider that acknowledged (`ForgottenAcks.StopExactly`).
- The replay cache takes its lock after reading the clock, and reads the clock after the time check;
  when an event's validity and these two delays together exceed 90 seconds an event can be accepted
  twice (`Replay.WindowExactly`, `LateLock`).
- A storage call that fails during a member's removal leaves a storage linked to a revoked member
  until the removal is repeated (`ControlPlane.RevokedOwnerIsReachable`, `FinishedRemovalLeaves`,
  `CompletedRemovalCleans`).
- The reaper lists silent storages and then removes them one by one. A storage that reports for the
  first time in between is removed all the same (`ControlOutcomes.ReapedAfterReport`,
  `ReportedIsReaped`).

## Model

| member | source | states |
|---|---|---|
| `Registry.Fnv1a` | pg-gateway/src/registry.rs:109-116 | the loop computes the 64-bit FNV-1a fold of the bytes, with wrap-around |
| `Registry.Utf8ReadsBack` | pg-gateway/src/registry.rs:111 | the bytes that are hashed are the UTF-8 bytes: an independent reader gives the row id back |
| `Registry.FnvVectors` | pg-gateway/src/registry.rs:109-116 | the fold gives two published values of FNV-1a |
| `Registry.SelectOwner` | pg-gateway/src/registry.rs:87-105 | an owner exists exactly when the roster is not empty, and is on the roster |
| `Registry.SelectOwnerSticky` | pg-gateway/src/registry.rs:92-97 | a recorded owner that is still on the roster is kept |
| `Registry.FirstRecordedWins` | pg-gateway/src/registry.rs:92-97 | among several recorded owners it is the first that is on the roster |
| `Registry.HashIsRank` | pg-gateway/src/registry.rs:98-104 | without a recorded owner on the roster, the hash modulo the number of providers is the rank by name of the chosen one |
| `Registry.SelectOwnerOrderFree` | pg-gateway/src/registry.rs:82-105 | the choice does not depend on the order in which providers were polled |
| `ProtocolShape.RunKeepsWf` | pg-gateway/src/dispatcher.rs:63-155 | in every reachable state op ids are unique, the batch is part of the buffer, and providers know enqueued ops only |
| `ProtocolShape.LogGrows` | pg-gateway/src/central.rs:404-426 | accepted ops are only ever appended, and no table is unregistered |
| `FixedRoster.RunKeepsInv` | pg-gateway/src/dispatcher.rs:89-153 | over every interleaving of small steps, choices, sends, rows and placements all name the row's home provider |
| `FixedRoster.OneOwnerPerRow` | pg-gateway/src/pgwirehandler.rs:391-441 | fixed provider set: all applies of a row go to one provider, only it holds the row, every placement is that provider, even when failed applies took effect |
| `GrowingRoster.RunKeepsInv` | pg-gateway/src/dispatcher.rs:63-139 | with providers only added the stale per-tick roster still sends an op where its row is |
| `GrowingRoster.OneHolderPerRow` | pg-gateway/src/dispatcher.rs:63-139 | growing roster: at most one holder per row in every reachable state, named by its placement unless it is just being recorded |
| `ForgottenAcks.RunKeepsKnown` | pg-gateway/src/dispatcher.rs:89-139 | every written row is placed on one provider of the roster, only providers the dispatcher knows have applied anything, and the target differs from the placement only when the roster in use is older |
| `ForgottenAcks.SplitsAfterStop` | pg-gateway/src/dispatcher.rs:132-136 | after a stop that forgets news the next tick can store the row a second time, where it is placed |
| `ForgottenAcks.StopExactly` | pg-gateway/src/dispatcher.rs:132-136 | in every run: a stop between an acknowledgement and recording it can be continued to two holders of a row if and only if the index does not already name the provider that acknowledged |
| `RosterRaces.HashMoves` | pg-gateway/src/registry.rs:101-104 | the hash really moves a row when a provider joins |
| `RosterRaces.SplitWithoutAtomicWrites` | pg-gateway/src/pgwirehandler.rs:391-441 | without atomic writes some run puts a row on two providers |
| `RosterRaces.SplitWithoutCleanFailures` | pg-gateway/src/dispatcher.rs:119-129 | the same when a failed apply may have taken effect |
| `RosterRaces.SplitWhenAckIsForgotten` | pg-gateway/src/dispatcher.rs:132-136 | the same when the tick stops between an acknowledgement that brings news and the placement |
| `RosterRaces.SplitWhenProvidersLeave` | pg-gateway/src/registry.rs:92-104 | the same when a provider drops out of one poll |
| `RosterRaces.OneHolderExactly` | pg-gateway/src/dispatcher.rs:63-139 | a set of these assumptions keeps every row on one provider in all runs if and only if it is all four |
| `NoLostWrites.NoAcceptedWriteIsLost` | pg-gateway/src/dispatcher.rs:119-138 | in every state of every run each enqueued op is buffered, or acknowledged by a provider that recorded it |
| `NoLostWrites.DropBranchUnreachable` | pg-gateway/src/dispatcher.rs:72-86 | no run ever takes the branch that drops ops of unknown tables |
| `RowHistory.HeldExactly` | storage-client/pg-agent/src/apply.ts:87-109 | in every run a provider holds a row if and only if an INSERT of it took effect there and no DELETE since |
| `RowHistory.HeldRow` | storage-client/pg-agent/src/apply.ts:100-130 | and then it holds what the last INSERT or UPDATE that took effect made of it |
| `RowHistory.EffectivelyOnce` | storage-client/pg-agent/src/apply.ts:89-94 | however often an op is sent, it takes effect on a provider at most once |
| `ReadYourInsert.RunKeepsStored` | pg-gateway/src/dispatcher.rs:104-129 | in every run, whatever the placements say, a provider holds a row written by one INSERT exactly when it has applied that op, and then as captured |
| `ReadYourInsert.LatePlacementExactly` | pg-gateway/src/pgwirehandler.rs:429-441 | once the op is out of the buffer, or placed and about to leave it, a placement by the writer keeps pointing at the row if and only if the provider it names has applied the op; before that any placement is harmless |
| `ReadYourInsert.RunKeepsSole` | pg-gateway/src/dispatcher.rs:132-138 | from then on the placement names one provider that has applied the op, in every run whose late placements name such a provider |
| `ReadYourInsert.SettledExactly` | pg-gateway/src/pgwirehandler.rs:391-441 | and in no other run |
| `ReadYourInsert.InsertedRowIsRead` | pg-gateway/src/readengine.rs:55-138 | after an accepted INSERT every point read returns exactly the captured row or an error, under all interleavings in which late placements name a provider that has the row |
| `ReadYourInsert.AnsweredExactly` | pg-gateway/src/readengine.rs:55-138 | in any run, an answered read of a dispatched row returns it if and only if the provider it is placed on has applied the op and the captured key has no byte marker; otherwise it returns no rows |
| `ReadYourInsert.RegimeIsSafe` | pg-gateway/src/pgwirehandler.rs:391-441 | late placements are of that kind with a fixed set of providers, and with a growing one and atomic writes |
| `ReadYourInsert.LatePlacementHidesRow` | pg-gateway/src/pgwirehandler.rs:391-441 | a run in which one is not: the accepted row is answered with no rows |
| `Gateway.Mesh.Tick` | pg-gateway/src/dispatcher.rs:63-155 | whatever fails, a tick loses nothing; it idles only if the roster was empty at some moment of the call, stops early if and only if a central call failed, and otherwise has issued an apply for each of the oldest ops up to the limit, all of which have left the buffer when no provider call failed |
| `Gateway.Mesh.HandleHead` | pg-gateway/src/dispatcher.rs:89-153 | one op of the batch, with any interference between its steps: it ends the tick if and only if a central call failed; otherwise it was sent to its chosen owner and the batch moves on, and it has left the buffer when the provider answered |
| `Gateway.Mesh.SettleHead` | pg-gateway/src/dispatcher.rs:132-138 | an acknowledged op leaves the buffer and the batch moves on, unless a central call fails, which ends the tick |
| `Gateway.Mesh.Write` | pg-gateway/src/pgwirehandler.rs:347-441 | an accepted write is the last of the log and is placed on the owner that was chosen at one moment of the call; a refused one leaves the log as it was, and at some moment of the call the table, the key or the roster did refuse it; it is interrupted if and only if a central call failed |
| `Gateway.Mesh.Read` | pg-gateway/src/readengine.rs:55-138 | the point read as it runs: a fan-out exactly when the row had no buffered op and no placement at the moments looked at; the latest buffered row if there is one; otherwise what some placed replica on the roster answered, so no rows only when it holds none with that key; and the read-your-insert guarantee |
| `Gateway.Mesh.Replicas` | pg-gateway/src/readengine.rs:88-138 | the replica loop returns what the first reachable, answering replica holds |
| `Gateway.Mesh.ReadAnywhere` | pg-gateway/src/readengine.rs:74-87 | the fallback for a row without a placement: it fails exactly when no provider answers, is partial exactly when one does not, and returns the row of the first provider in roster order that has it, no rows exactly when none that answered has |
| `PointReads.PendingExactly` | pg-gateway/src/central.rs:599-625 | a row is pending exactly when its latest buffered op is no DELETE, with the payload of that op |
| `PointReads.OutcomeExactly` | pg-gateway/src/readengine.rs:55-138 | when a point read takes the buffer, the replicas or the fan-out |
| `PointReads.RepliesExactly` | pg-gateway/src/readengine.rs:88-138 | the replica loop returns the answer of the first replica that is on the roster and answers, and an error exactly when there is none |
| `ReadEngine.MergeAnswers` | pg-gateway/src/readengine.rs:174-221 | the merge keeps the first row of each key and every keyless row, one row per key |
| `ReadEngine.MergeRows` | pg-gateway/src/readengine.rs:193-200 | one provider's rows fold into the index like appending them |
| `ReadEngine.FirstWins` | pg-gateway/src/readengine.rs:174-221 | the merged row of a key is the first one of that key in the answers, and keyless rows keep their order |
| `ReadEngine.UniqueKeys` | pg-gateway/src/readengine.rs:174-221 | the keyed view says exactly when no two rows share a key |
| `ReadEngine.Overlay` | pg-gateway/src/readengine.rs:222-237 | every buffered row replaces the provider's copy and nothing else changes |
| `ReadEngine.FanoutRead` | pg-gateway/src/readengine.rs:140-249 | fails exactly when nobody answered, is partial exactly when someone did not, and returns merge plus overlay |
| `ReadEngine.FanoutPoint` | pg-gateway/src/readengine.rs:74-87 | the fan-out of a point read: the first row of that key in the answers, or none |
| `UnionReads.CollectsExactly` | pg-gateway/src/sqlanalyze.rs:596-616 | a statement is accepted if and only if every set operation in it is UNION and every leaf is a SELECT; then all its SELECTs are collected in order, otherwise the first obstacle is reported |
| `UnionReads.EvalMembers` | pg-gateway/src/sqlanalyze.rs:596-616 | an accepted statement answers a row of the data exactly when one of its collected SELECTs accepts it |
| `UnionReads.EvalCounts` | pg-gateway/src/sqlanalyze.rs:596-616 | how often any tree of UNION, EXCEPT and INTERSECT, with or without ALL, returns a row can be counted on the tree |
| `UnionReads.FanoutExactIffNoCopies` | pg-gateway/src/sqlanalyze.rs:483-497 | pushdown and merge return each row of the answer once, and equal one database if and only if the tree returns no row of the data twice, whatever its operators |
| `UnionReads.AlwaysExactIff` | pg-gateway/src/sqlanalyze.rs:483-497 | the fan-out is exact on all data if and only if the tree returns no row twice |
| `UnionReads.DistinctRootIsExact` | pg-gateway/src/sqlanalyze.rs:483-497 | that is so for one SELECT and for a set operation without ALL at the root |
| `UnionReads.RefusedAlthoughExact` | pg-gateway/src/sqlanalyze.rs:601-605 | EXCEPT and INTERSECT are refused, although on whole rows their fan-out would be exact |
| `UnionReads.UnionAllCollapses` | pg-gateway/src/sqlanalyze.rs:483-497 | for every row, UNION ALL of two SELECTs that return it is answered with other rows than one database returns |
| `OverlayScan.RunKeepsInv` | pg-gateway/src/dispatcher.rs:89-138 | in failure-free INSERT runs the buffer is the tail of the log and the providers store exactly the images of the rest |
| `OverlayScan.Layer` | pg-gateway/src/central.rs:599-625 | buffered images laid over flushed ones are the images of the whole log |
| `OverlayScan.ScanIsLogicalTable` | pg-gateway/src/readengine.rs:222-237 | a scan over providers sampled at different moments, overlaid with the buffer, is the logical table: one row per key, the latest image |
| `JsonTexts.NumeralReads` | pg-gateway/src/aggregate.rs:834-842 | every plain decimal text, signed or not, with or without a fraction, reads as its value |
| `JsonTexts.NumberIsNumeral` | pg-gateway/src/aggregate.rs:834-842 | and no other text reads as a number |
| `JsonTexts.WholeReadsBack` | pg-gateway/src/aggregate.rs:834-842 | a whole number and its text are the same number |
| `JsonTexts.KeyTextExactly` | pg-gateway/src/readengine.rs:320-340 | which cells have a key text, and that different numbers, flags or unmarked texts have different ones |
| `JsonTexts.BytesKeyExactly` | pg-gateway/src/readengine.rs:320-340 | bytes have the same key as marked hex text and as an array of numbers, and other bytes have another |
| `SqlOrder.SqlTransitive` | pg-gateway/src/aggregate.rs:1122-1145 | the reference order of a column is total, transitive and strict where a step is |
| `SqlOrder.AgreesExactly` | pg-gateway/src/aggregate.rs:844-872 | the gateway's comparison agrees with it on a typed column if and only if it is no text column or its digit texts order alike as numbers and as text |
| `SqlOrder.DigitTexts` | pg-gateway/src/aggregate.rs:844-872 | 9 and 10 as texts do not |
| `Moments.MomentIsSpread` | pg-gateway/src/aggregate.rs:958-967 | sum of squares less n times the squared mean is the sum of squared distances from the mean |
| `Moments.VarianceIsExact` | pg-gateway/src/aggregate.rs:958-982 | the merged variance is the variance of all numbers, the clamp never fires, NULL exactly for no numbers or one in the sample form |
| `AggregateCells.TakeExtends` | pg-gateway/src/aggregate.rs:668-766 | folding a partial row into an accumulator that summarises some rows makes it summarise that provider's rows as well, for every kind of aggregate |
| `AggregateCells.TakeVariance` | pg-gateway/src/aggregate.rs:681-699 | the same for count, mean and sum-of-squares partials |
| `AggregateCells.ExtremesExactly` | pg-gateway/src/aggregate.rs:725-755 | `min` and `max` are merged to SQL's value, however the values are spread, if and only if the gateway's comparison agrees with SQL's on them |
| `AggregateCells.DigitExtremes` | pg-gateway/src/aggregate.rs:725-755 | so not for texts of digits |
| `AggregateCells.DistinctIsExact` | pg-gateway/src/aggregate.rs:911-925 | merged `count(distinct)` of values that differ as texts is exact if and only if NULL adds no value of its own |
| `AggregateCells.DistinctOfOneKind` | pg-gateway/src/aggregate.rs:911-925 | columns of texts, booleans or whole numbers are such; without texts it is exact if and only if there is no NULL |
| `AggregateCells.ReduceIsExact` | pg-gateway/src/aggregate.rs:882-982 | the reduced value is SQL's value over all rows at once, with its NULL rules |
| `AggregatePlan.NamesIgnoreCase` | pg-gateway/src/aggregate.rs:552 | two names are the same if and only if they differ at most in the case of ASCII letters |
| `AggregateMerge.LastSegmentIs` | pg-gateway/src/aggregate.rs:652 | a key is also looked up under its longest ending without a dot |
| `AggregateMerge.TakeRow` | pg-gateway/src/aggregate.rs:668-766 | the loop over the aggregates folds a row into its group |
| `AggregateMerge.Collect` | pg-gateway/src/aggregate.rs:641-770 | the nested loops build the accumulators of all groups |
| `AggregateMerge.Emit` | pg-gateway/src/aggregate.rs:773-796 | the row of one group: key columns by position, then the reduced aggregates |
| `AggregateMerge.EmitGroups` | pg-gateway/src/aggregate.rs:772-796 | every group is emitted once, in no particular order |
| `AggregateMerge.MergePartials` | pg-gateway/src/aggregate.rs:637-815 | groups, HAVING, ORDER BY, then OFFSET and then LIMIT; DISTINCT plans take the other path |
| `AggregateExact.MergeKeyIs` | pg-gateway/src/aggregate.rs:645-655 | the gateway recovers the group of every partial row of an aligned plan |
| `AggregateExact.TakeAllExtends` | pg-gateway/src/aggregate.rs:668-766 | aggregates with names of their own do not disturb each other |
| `AggregateExact.GroupTracked` | pg-gateway/src/aggregate.rs:641-770 | after any number of slices each accumulator summarises its group's rows in all of them |
| `AggregateExact.GroupsFound` | pg-gateway/src/aggregate.rs:641-667 | the merged groups are exactly those of the slices |
| `AggregateExact.SliceTuplesAre` | pg-gateway/src/aggregate.rs:533-592 | the groups of the slices are those of the whole table, given one slice when there is no GROUP BY |
| `AggregateExact.MergeTabulates` | pg-gateway/src/aggregate.rs:641-797 | one merged row per distinct key tuple of the combined rows, with the exact aggregates |
| `AggregateExact.MergeIsExact` | pg-gateway/src/aggregate.rs:637-815 | for every list of slices the merge is an answer of one database holding all rows: with k rows skipped the i-th row is row k + i of the rows that pass HAVING in SQL's order, up to the limit |
| `AggregateOrder.AnswerPermutes` | pg-gateway/src/aggregate.rs:882-982 | what one database may answer does not depend on the order of its rows |
| `AggregateOrder.AnyPartition` | pg-gateway/src/aggregate.rs:637-815 | however a table is cut into slices, and in whatever order they answer, the merge is an answer to the query over the table |
| `AggregateExact.ReduceAnswers` | pg-gateway/src/pgwirehandler.rs:1283-1369 | the executed merge returns such an answer |
| `AggregateLimits.KeyReadExactly` | pg-gateway/src/aggregate.rs:645-655 | a grouping key is read back from every partial row if and only if the first column tried carries it |
| `AggregateLimits.KeyShownExactly` | pg-gateway/src/aggregate.rs:777-791 | every key is shown under its own name if and only if the columns stand in GROUP BY order |
| `AggregateLimits.AliasedKeyIsLost` | pg-gateway/src/aggregate.rs:645-667 | a single key projected under another name that no aggregate is called by is read as NULL off every partial row, so that all groups become one |
| `AggregateLimits.TakeAllGains` | pg-gateway/src/aggregate.rs:668-766 | for every list of aggregates, a partial row adds to each count and sum what every aggregate of that name reads off it |
| `AggregateLimits.SharedCountExactly` | pg-gateway/src/aggregate.rs:715-719 | counts sharing a name add the partial count times their number: exact if and only if there is one of them or nothing to add |
| `AggregateLimits.SharedSumExactly` | pg-gateway/src/aggregate.rs:720-724 | the same for sums |
| `RowOrder.Window` | pg-gateway/src/aggregate.rs:804-813 | OFFSET and LIMIT: as many rows as both leave, the i-th being the sorted row at offset + i |
| `RowOrder.SortIsStable` | pg-gateway/src/aggregate.rs:1122-1145 | rows that tie with one another stay in the order in which they came |
| `RowOrder.SortRowsSorts` | pg-gateway/src/aggregate.rs:1122-1145 | the rows come out in SQL's order when the gateway's comparison says nothing against it |
| `RowOrder.SortsExactly` | pg-gateway/src/aggregate.rs:1122-1145 | every list of given rows comes out in SQL's order if and only if the comparison respects that order on them |
| `RowOrder.ColumnExactly` | pg-gateway/src/aggregate.rs:1125-1138 | it does on the values of a typed column if and only if NULL stands alone, booleans that differ are printed, and digit texts order alike as numbers and as text |
| `RowOrder.OneItemExactly` | pg-gateway/src/aggregate.rs:1122-1145 | with one ORDER BY item that is also when every list comes out in SQL's order |
| `RowOrder.ColumnsSuffice` | pg-gateway/src/aggregate.rs:1122-1145 | with several items it is enough for each column |
| `RowOrder.BooleansUnsorted` | pg-gateway/src/aggregate.rs:1126-1138 | JSON booleans in the wrong order stay there |
| `RowOrder.NullsUnsorted` | pg-gateway/src/aggregate.rs:1126-1138 | a NULL stays before the others ascending and behind them descending |
| `RowOrder.DigitsUnsorted` | pg-gateway/src/aggregate.rs:1128-1130 | texts of digits are sorted as numbers |
| `RowOrder.OtherLettersExactly` | pg-gateway/src/aggregate.rs:242-251 | a name in other letters than its column sorts nothing, which is right only where SQL sees ties |
| `RowOrder.SortRowsContents` | pg-gateway/src/aggregate.rs:1122-1145 | sorting keeps the rows |
| `DistinctMerge.AddUnseen` | pg-gateway/src/aggregate.rs:996-1013 | rows of one answer are added when their tuple is new |
| `DistinctMerge.MergeDistinct` | pg-gateway/src/aggregate.rs:986-1031 | the loops keep each tuple at its first occurrence, then sort, skip and limit |
| `DistinctMerge.DistinctIsExact` | pg-gateway/src/aggregate.rs:986-1031 | SELECT DISTINCT returns each tuple of all slices together once and nothing else, even for overlapping slices, in SQL's order, skipped and limited as above |
| `Params.InlineParams` | pg-gateway/src/pgwirehandler.rs:1515-1536 | the passes from the highest index down; when no value holds the placeholder of a lower index they are simultaneous substitution exactly for covered statements |
| `Params.InlineIsSimultaneous` | pg-gateway/src/pgwirehandler.rs:1500-1511 | replacing one index at a time equals replacing whole tokens at once if and only if every token that begins like a bound index is one |
| `Params.SecondPassIsIdentity` | pg-gateway/src/pgwirehandler.rs:947-956 | the second pass over an inlined statement changes nothing when no bound text holds the placeholder of a bound index |
| `Params.CountCovers` | pg-gateway/src/sqlanalyze.rs:1126-1156 | a statement with as many values as its highest index is covered |
| `Params.ReadNumber` | pg-gateway/src/sqlanalyze.rs:1137-1144 | the inner loop reads the maximal digit run and its value |
| `Params.MaxParamIndex` | pg-gateway/src/sqlanalyze.rs:1131-1156 | the scan returns the highest number behind any dollar sign, or zero |
| `ParamLiterals.QuotedReadsBack` | pg-gateway/src/pgwirehandler.rs:1521 | a quoted value reads back as that value and ends where it should |
| `HexText.HexReadsBack` | pg-gateway/src/pgwirehandler.rs:1526-1527 | an independent reader of hex text gives back every list of bytes |
| `ParamLiterals.LiteralReadsBack` | pg-gateway/src/pgwirehandler.rs:1518-1530 | NULL, quoted text and decoded bytes each read back as the bound value and end where they should, unless a quote follows a text |
| `ParamLiterals.StatementReadsBack` | pg-gateway/src/pgwirehandler.rs:1515-1536 | the literals of a statement denote exactly the bound values, each in its place, if and only if no token bound to a text stands right before a quote or another such token |
| `ParamLiterals.ExecutedReadsBack` | pg-gateway/src/pgwirehandler.rs:947-956 | the same for the statement as it is executed, after both passes |
| `Params.InertIffHarmless` | pg-gateway/src/pgwirehandler.rs:1515-1536 | whether a later pass can rewrite a literal is seen from the bound texts, quoted or not |
| `ParamLimits.DollarInValue` | pg-gateway/src/pgwirehandler.rs:1515-1536 | every bound text that holds the placeholder of a lower index is rewritten in some statement |
| `ParamLimits.InlineExactly` | pg-gateway/src/pgwirehandler.rs:1515-1536 | one pass puts values into every covered statement like simultaneous substitution if and only if no text holds the placeholder of a lower index than its own |
| `ParamLimits.PlaceholderInValue` | pg-gateway/src/pgwirehandler.rs:947-956 | after both passes every bound text that holds the placeholder of any bound index is rewritten in some statement |
| `ParamLimits.TwiceExactly` | pg-gateway/src/pgwirehandler.rs:947-956 | both passes together amount to simultaneous substitution in every covered statement if and only if no bound text holds the placeholder of any bound index |
| `ParamLimits.OwnPlaceholder` | pg-gateway/src/pgwirehandler.rs:193-205 | $1 bound as $1 survives the first pass and becomes NULL in the second |
| `ParamLimits.TokenCovered` | pg-gateway/src/pgwirehandler.rs:1515-1536 | an index past the bound values is left alone if and only if its first digit is past them too |
| `Conflict.FindClose` | pg-gateway/src/sqlanalyze.rs:160-176 | the scan finds the matching close parenthesis outside literals, or there is none |
| `Conflict.CloseIsMatching` | pg-gateway/src/sqlanalyze.rs:1466-1482 | the same for the scan of the splice |
| `Conflict.TargetEndInPrefix` | pg-gateway/src/sqlanalyze.rs:1460-1482 | the end of the column list depends only on the text up to it |
| `Conflict.TargetExactly` | pg-gateway/src/sqlanalyze.rs:156-179 | the column list is the one opened by the first parenthesis behind the first ON CONFLICT, and ends where that is closed |
| `Conflict.StripsThere` | pg-gateway/src/sqlanalyze.rs:180-203 | with only white space before a WHERE behind the list and a " DO " behind that, the predicate between them is cut out |
| `Conflict.StripsOnly` | pg-gateway/src/sqlanalyze.rs:156-191 | and no other statement is cut |
| `Conflict.SpliceRestores` | pg-gateway/src/sqlanalyze.rs:1456-1494 | splicing into the stripped statement finds the same place and restores the text up to white space at the two joints |
| `Conflict.CutExactly` | pg-gateway/src/sqlanalyze.rs:151-194 | the clause ends where documented if and only if the first " DO " is outside quotes and parentheses |
| `Conflict.StripExactly` | pg-gateway/src/sqlanalyze.rs:151-194 | the same for the whole statement |
| `Conflict.LiteralIsCut` | pg-gateway/src/sqlanalyze.rs:185-194 | in every statement whose conflict clause starts with a literal holding " DO ", that literal is cut in two |
| `Migrations.PgAgent.Schema` | storage-client/pg-agent/src/schema.ts:24-82 | the agent's loop: known migrations skipped, the version written only after all, nothing done above 200 |
| `Migrations.RunKeepsNumbered` | pg-gateway/src/central.rs:222-239 | over every run the versions are exactly 1 to n in order of registration |
| `Migrations.SinceListIs` | pg-gateway/src/central.rs:316-336 | a catch-up list holds exactly the versions above the watermark, in order |
| `Migrations.PendingListIs` | pg-gateway/src/central.rs:294-314 | a propagated list holds exactly the pending versions, in order |
| `Migrations.DeliveryExactly` | storage-client/pg-agent/src/schema.ts:33-71 | a delivery leaves no gap below the reported version if and only if the list covers what is new |
| `Watermarks.StepKeepsInv` | pg-gateway/src/schema.rs:116-126 | catching up, recording and registering keep all watermarks sound under any interleaving |
| `Watermarks.WatermarksAreSound` | pg-gateway/src/schema.rs:83-126 | every version up to a recorded watermark was delivered, in every run whose propagated lists were read when no version above the provider's watermark had been skipped |
| `Watermarks.PropagationExactly` | pg-gateway/src/schema.rs:83-108 | a propagation to a provider that has applied just what is recorded keeps the watermark sound if and only if nothing above it that is no longer pending lies below something that is |
| `Watermarks.SafeExactly` | pg-gateway/src/schema.rs:83-108 | on what the gateway sees, registry and watermark, that is the exact condition for every state of the provider |
| `Watermarks.SkippedMigration` | pg-gateway/src/schema.rs:83-108 | a run in which a provider is recorded at version 2 without version 1, which no catching up delivers any more |
| `Watermarks.RepairedIff` | pg-gateway/src/schema.rs:116-126 | a version below the watermark that was never delivered can be delivered by catching up if and only if a catch-up from a lower watermark is under way |
| `Watermarks.OnlyEarlierReadsResend` | pg-gateway/src/schema.rs:116-126 | over every run, the only catch-up lists that still hold a version at or below a watermark are those whose watermark was read before |
| `Watermarks.TooFarBehind` | storage-client/pg-agent/src/schema.ts:15 | a provider more than 200 migrations behind refuses every catch-up from there and stays as it is |
| `ControlPlane.CountFindsAnother` | control-plane-backend/src/routes/members.rs:197-211 | a count above one means another active administrator besides the target |
| `ControlPlane.StepKeepsAdmin` | control-plane-backend/src/routes/members.rs:81-130 | no step of any handler, failure or cancellation takes away the last active administrator |
| `ControlPlane.AnAdminRemains` | control-plane-backend/src/routes/members.rs:76-158 | every interleaving of upserts and removals, authorized before the lock, keeps an active administrator |
| `ControlPlane.OwnerNeverChanges` | control-plane-backend/src/routes/storage.rs:68-101 | the owner of a storage never changes over a run |
| `ControlPlane.RunKeepsLinks` | control-plane-backend/src/routes/storage.rs:104-247 | over every run, with unlocked pings, removals and reaps in between, each linked storage has an active owner or one whose removal is under way or did not complete |
| `ControlPlane.LinkedMeansActiveOwner` | control-plane-backend/src/routes/storage.rs:68-101 | with the lock free a linked storage belongs to an active member unless that member's latest removal did not complete |
| `ControlPlane.CompletedRemovalCleans` | control-plane-backend/src/routes/members.rs:132-157 | a completed removal leaves its member without linked storages, whatever failed before |
| `ControlPlane.FinishedRemovalLeaves` | control-plane-backend/src/routes/members.rs:132-157 | a removal that ran to its end, failures or not, leaves linked exactly the storages whose call had no effect and that nobody dropped meanwhile |
| `ControlOutcomes.UpsertOutcome` | control-plane-backend/src/routes/members.rs:84-102 | an undisturbed upsert gives the target its role and makes it active and changes nothing else, unless it would demote the only active administrator |
| `ControlOutcomes.RemoveOutcome` | control-plane-backend/src/routes/members.rs:118-158 | an undisturbed removal revokes its member and takes exactly the storages linked to that member off the linked ones, in whatever order; it is refused exactly for an unknown member and the only active administrator |
| `ControlOutcomes.LinkOutcome` | control-plane-backend/src/routes/storage.rs:68-101 | an undisturbed link leaves the storage linked to the caller and unreported, known before or not; it is refused exactly for a caller who is not active and a storage of another owner |
| `ControlOutcomes.RollbackOutcome` | control-plane-backend/src/routes/storage.rs:93-100 | when the mesh refuses the storage it ends unlinked |
| `ControlOutcomes.AcquiredWasAllowed` | control-plane-backend/src/routes/members.rs:81-116 | in every run, whoever takes the lock was requested earlier by a caller who was then allowed to: an active administrator for changes to members, and not for their own removal |
| `ControlOutcomes.ReapedWasSilent` | control-plane-backend/src/routes/storage.rs:226-248 | in every run a storage that the reaper removes was linked and had never reported when it was listed |
| `ControlOutcomes.ReportedIsNotListed` | control-plane-backend/src/routes/storage.rs:235-239 | in every run a storage that has reported is not listed again until it is linked again |
| `ControlOutcomes.ReapedAfterReport` | control-plane-backend/src/routes/storage.rs:226-248 | a storage that has reported is reaped only if its report fell between the listing and the removal |
| `ControlOutcomes.ReportedIsReaped` | control-plane-backend/src/routes/storage.rs:226-248 | and then it is: from every state with a silent storage |
| `ControlPlane.PartialRemoval` | control-plane-backend/src/routes/members.rs:132-152 | from any state with the lock free, a failed storage call leaves a storage linked to a revoked member |
| `ControlPlane.RevokedOwnerIsReachable` | control-plane-backend/src/routes/members.rs:132-152 | such a state is reached from the bootstrap administrators, for every member and storage |
| `Replay.Cache.Consume` | control-plane-backend/src/auth.rs:94-112 | purges, records, and accepts exactly the events not recorded |
| `Replay.Serve` | control-plane-backend/src/auth.rs:63-65 | a series of requests is accepted as the call-by-call account says |
| `Replay.SingleAcceptance` | control-plane-backend/src/auth.rs:102-111 | no run accepts an event twice when its validity, the delay from the time check to the clock and the wait for the lock are together within 90 seconds |
| `Replay.WindowExactly` | control-plane-backend/src/auth.rs:52-65 | bounds on the three are safe for every run if and only if together they are within 90 seconds |
| `Replay.LateLock` | control-plane-backend/src/auth.rs:102-107 | whenever they are not, a run accepts an event twice: another request purges it while the second is on its way |
| `StorageFormat.GbMeans` | admin-app/src/lib/storageFormat.ts:33-40 | a trimmed text of digits, with up to nine more behind a dot, gives the number of bytes that these digits spell with the dot moved nine places, and null for zero |
| `StorageFormat.GbNeedsSpelling` | admin-app/src/lib/storageFormat.ts:33-40 | every other text gives null |
| `StorageFormat.TrimExactly` | admin-app/src/lib/storageFormat.ts:34 | trimming cuts white space off both ends, and all of it |
| `StorageFormat.PrintThenParse` | admin-app/src/lib/storageFormat.ts:24-40 | parsing what was printed gives the canonical text of every positive amount, and null for everything else |
| `StorageFormat.ParseThenPrint` | admin-app/src/lib/storageFormat.ts:24-40 | an accepted text, printed and parsed again, is the same number of bytes |
| `StorageFormat.PrintedIffTidy` | admin-app/src/lib/storageFormat.ts:24-40 | printing gives back the accepted text itself if and only if it has no spare space or zero |

## Left out

- Network, pgwire, HTTP, timeouts, logging and configuration: calls succeed or fail in any way.
- SQL parsing and rendering: statements start as small trees or tagged text, and the statement rendered after the cut is taken to be the stripped one.
- Bytes: texts are sequences of characters; row keys with the byte marker appear only as the case that point reads lose.
- DELETE on a provider: removes the row of the op's key. The source names the column `id` whatever the key column is (storage-client/pg-agent/src/apply.ts:101).
- Order of the buffer: ops are taken in the order in which they were enqueued; ids made in the same millisecond may sort differently.
- Conflict targets other than the primary key: a provider's INSERT is an upsert by primary key.
- UPDATE and DELETE ops: placed, applied and never lost like INSERTs, but no read guarantee is stated for them, because the buffer holds their statement and not a row image.
- Last writer wins under failed applies: a tick moves on after a failure, so it is no invariant of this code.
- Aggregates `string_agg`, `array_agg`, `json_agg` and the square root of `stddev`: their output has no exact single-database counterpart, or only adds a root.
- HAVING text: the evaluator is a predicate on the merged row.
- Planning of aggregate queries: a plan is given; which plans the merge handles is stated on the plan.
- Collations: text columns are ordered by bytes, as in the C collation; other collations add further differences.
- Floating point: sums, means and variances are exact; number text with an exponent, infinity or NaN is not read.
- Result columns: like the code, merged rows also carry grouping keys the query did not project.
- GrowingRoster.OneHolderPerRow: also assumes that a tick does not stop between an acknowledgement and recording it, unless the index names the holder already; `RosterRaces.SplitWhenAckIsForgotten` is the run without that.
- Texts of fractional JSON numbers and of objects: the model prints neither, so a `count(distinct)` column with several of them does not differ as texts here.
- ReadYourInsert.InsertedRowIsRead: broad writes are no step of the model: when enabled, an UPDATE or DELETE without a key runs as it stands on every provider (pg-gateway/src/pgwirehandler.rs:550-597) and can delete the row. Keys with the byte marker are a case of `ReadYourInsert.AnsweredExactly`.
- Gateway.Mesh.Write: starts from the captured row. The source captures it by running the INSERT on the central database, before the roster is looked at (pg-gateway/src/pgwirehandler.rs:357-404), and what a refused write leaves there is not stated.
- Several gateways: the central store is written by one process, through one connection at a time.
- Migration identity: a migration is its version; its text is not interpreted, and a statement that already took effect counts as applied.
- Database calls that take effect after their caller gave up: an effect belongs to the call's own step.
- The reaper's grace period: which of the silent storages are old enough is a matter of the clock, so any of them may be listed.
- Mesh device membership and replica backfill: they do not touch the modelled tables.
- Signature checks, invites, status pages, the React console, the object proxy: no state shared with the above.
