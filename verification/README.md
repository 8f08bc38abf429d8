# A verified model of the ledger, its event store, its allocators and its cost rollup

This project models five linked parts of the repository and proves what they promise, for every
input and every run:

- **The ledger aggregate.** Commands become events, events are applied to a projection of balances,
  entries, reversals and capitalization statuses. The specification is the pure functions `Handle`
  and `Apply` (`Ledger.dfy`); the class that updates the maps in place, and the loops that check an
  entry, are proved against them (`LedgerProjection.dfy`). What is decided is what was commanded, and
  moves each account by the command's own debits and credits (`CommandLaws.dfy`).
- **The event store.** An append-only table with a unique `(aggregate, sequence)` key, the store's
  methods over it, and a protocol in which any number of writers interleave loading, deciding and
  persisting, over a backend that may fail, and reload after a persist or do not (`EventStore.dfy`,
  `Protocol.dfy`). What a decision made on part of a log is worth on the whole is in
  `StaleDecisions.dfy` and `CommitHistory.dfy`, and the runs that break the rules in `StaleRetry.dfy`.
- **Allocation.** Largest remainder as a reference stated by rank, without a sort or a loop
  (`LargestRemainder.dfy`), and the repository's two implementations of it, with their loops, proved
  against it and compared (`Allocation.dfy`, `AllocationLaws.dfy`, `Pricing.dfy`, `ApportionLaws.dfy`);
  what they return, in decimal places, is in `DecimalShares.dfy`.
- **Independent re-implementations.** The invariant checks, the scenario runner, the generator with its
  random stream and ground truth, and the audit extract, each shown to agree with the aggregate
  (`Assertions.dfy`, `Runner.dfy`, `SplitMix.dfy`, `Generator.dfy`, `AdsExport.dfy`), and each with what
  it is made from (`ScenarioLaws.dfy`, `ExtractLaws.dfy`).
- **Ingestion.** Keyed upserts of cost events and of runs, and the cost attributed to a run
  (`CostEvents.dfy`, `IngestLaws.dfy`, `ResearchGraph.dfy`, `RunFacts.dfy`), with the pricing of a line
  (`PricingLaws.dfy`) and the text a line's identity is hashed from (`AwsIdentity.dfy`).

`Decimal` is an exact number, a Dafny `real`; the only rounding is truncation toward zero. Ids are
opaque and drawn fresh: a command that creates an entry takes the id as a parameter. `Legal(log)`
says that every event of a log was returned by `Handle` on the state replayed from what precedes it,
with an unused id.

## Where the code and its documentation disagree

The model follows the code, and each disagreement is a theorem.

- `crates/events/src/ledger.rs:211` says the trial balance is always zero. Posting skips a line whose
  currency is not the account's, so a log of accepted entries can leave it non-zero:
  `LedgerLaws.TrialBalanceCanBeNonZero` exhibits one. `ExactConservation` says what is always zero,
  `TrialBalanceIsZero` gives the hypothesis of one currency per account, and `TrialBalanceKeptIff`
  says of each event, before it is applied, whether it keeps the trial balance.
- `crates/infra/src/ledger_store.rs:194-196` relies on a refused writer reloading. Nothing in the store
  enforces it: `persist` moves the sequence number on whether it commits, meets a conflict or fails, so
  three things can go wrong, each a run in `StaleRetry.dfy`. A decision made on stale state succeeds
  after as many refusals as commits were missed (`RefusedThenStaleCommits`,
  `RetryWithoutReloadBreaksTheRules`); a batch persisted again after it landed is recorded twice under
  one id (`PersistingTwicePostsTwice`); and trying again after a failure leaves a gap
  (`FailureLeavesAGap`). There is no fourth: `Protocol.RulesSurviveIff` says that the streams of any run
  are gap-free logs the handler could have produced, at every point, exactly when every commit was put
  right after its stream, missed nothing its command reads, and recorded a new id. A writer that does
  reload commits that way whatever the others do short of leaving a gap
  (`Protocol.ReloadingWriterCommitsSerially`).
- `crates/events/tests/ledger_aggregate.rs:206` is named for a reversal that restores the prior balances.
  It gives those of the run without the entry but for one case: an account the entry was the first to
  touch keeps the entry's currency, and later lines in another are skipped. `InForce.RestoredIff` says of
  each account whether it is restored, and `ReversalCanLeaveAnotherCurrency` is a log where one is not.
- `crates/cost-spine/src/pricing.rs:163-167` says the leftover goes one unit at a time to the shares
  cut hardest. For a negative total none is handed out and all of it lands on the share cut least.
  `ApportionLaws.AgreeExactly` says exactly which totals and weights are spared.
- `crates/infra/src/cost_events.rs:170-175` expects re-reading an unchanged export to rewrite nothing.
  A batch that says two things about one key restates itself on every delivery:
  `CostEvents.RedeliveryIsDuplicatesIff` and `SelfRestatingBatch`. What
  `crates/cost-spine/src/store.rs:75-77` promises, that re-delivery produces the same state, holds of
  every batch: `CostEvents.RedeliveryKeepsTheTable`.
- `crates/testkit/src/generator.rs:163-167` says every entry balances by construction. An entry balances
  exactly when its plug hits an account or its other lines cancel (`Generator.EntryBalancesIff`): always
  from two accounts on, never with none, and with one exactly when the plug's draw is even or the drawn
  lines cancel (`Generator.OneAccountBalancesIff`). `Generator.OneAccountCanMiss` is a seed that fails.
- `crates/cost-spine/src/providers/aws.rs:247-248` says the tuple makes a line unique. Among lines of a
  billing period and trimmed fields, the text hashed determines one exactly when no separator inside a
  part could be a joint: white space follows every one in the period and the first field, and stands
  before or after every one in the others (`AwsIdentity.DeterminedIffSealed`).
  `AwsIdentity.LinesCanCollide` is a collision.

## Model

| member | source | states |
|---|---|---|
| EntryLaws.AcceptanceIsBalance | crates/events/src/ledger.rs:283-315 | the handler accepts a posting exactly when it has lines, each carries one side, all are in one currency, and the signed amounts sum to zero |
| EntryLaws.RefusalNamesTheFirstFault | crates/events/src/ledger.rs:283-307 | a refused posting is refused over its first faulty line, or as unbalanced by the sum of its signed amounts |
| EntryLaws.MirrorNegates | crates/events/src/ledger.rs:253-266 | in every currency a mirrored entry sums to the opposite |
| EntryLaws.MirrorOfBalancedIsBalanced | crates/events/src/ledger.rs:253-266 | a reversal of a balanced entry is balanced |
| LedgerProjection.Projection.Post | crates/events/src/ledger.rs:226-240 | the in-place loop posts the lines and records the entry as the specification does |
| LedgerProjection.Projection.ApplyEvent | crates/events/src/ledger.rs:356-376 | applying an event in place is the specification's step on the whole state |
| LedgerProjection.Projection.TrialBalance | crates/events/src/ledger.rs:216-224 | the filtered fold returns the sum of the balances held in that currency, whatever the order |
| LedgerProjection.Projection.HandleCommand | crates/events/src/ledger.rs:278-353 | deciding reads the state and returns the specification's events or error |
| LedgerProjection.CheckLines | crates/events/src/ledger.rs:288-307 | the loop over `debits` and `credits` with its early returns decides as the specification does |
| CommandLaws.PostingIsRecordedAsGiven | crates/events/src/ledger.rs:279-315 | an accepted posting is recorded under the minted id with exactly the lines commanded; it is accepted exactly when they balance |
| CommandLaws.ReversalIsRecordedAsGiven | crates/events/src/ledger.rs:317-332 | a reversal is of the entry commanded, for the reason given, under the minted id; or the entry is unknown, or reversed already |
| CommandLaws.StatusIsChangedAsGiven | crates/events/src/ledger.rs:334-351 | a change is of the run, target and policy commanded, from the status the run has, pending review if none; or it changes nothing and is refused |
| CommandLaws.SumIsDebitsLessCredits | crates/events/src/ledger.rs:226-240 | what lines come to on an account, in a currency, is its debits less its credits |
| CommandLaws.PostingMovesItsAccounts | crates/events/src/ledger.rs:226-240 | once a posting is decided and applied every account has moved by the debits less the credits of the command's own lines on it, is opened at that, or, held in another currency, is left |
| CommandLaws.ReversalMovesItsAccounts | crates/events/src/ledger.rs:253-266 | a reversal moves every account by the credits less the debits of the entry it reverses, and marks that reversed |
| CommandLaws.StatusChangeSetsTheStatus | crates/events/src/ledger.rs:371-375 | a change of status sets the run's status and nothing else |
| CommandLaws.MirrorExchangesSides | crates/events/src/ledger.rs:253-266 | line by line a mirror has the same account, the sides exchanged, and no back-references |
| CommandLaws.MalformedLineIsNamed | crates/events/src/ledger.rs:283-307 | a line with both sides, or neither, is refused as such under its account |
| CommandLaws.ImbalanceIsNamed | crates/events/src/ledger.rs:288-307 | well-formed lines in one currency are accepted when their sides are equal, and refused with both totals otherwise |
| BalanceLaws.BalanceIsAccountSum | crates/events/src/ledger.rs:226-240 | an account is held exactly when a line touches it, and holds the sum of its signed lines in the currency it holds |
| BalanceLaws.AccountsAreForever | crates/events/src/ledger.rs:231-237 | once posted to, an account stays and keeps its first currency |
| BalanceLaws.NothingDroppedIffOneCurrency | crates/events/src/ledger.rs:235-237 | posting skips no line exactly when no account sees two currencies |
| BalanceLaws.BalancePlusDropped | crates/events/src/ledger.rs:226-240 | an account's balance plus what was skipped on it is the sum of all its signed amounts |
| BalanceLaws.Conservation | crates/events/src/ledger.rs:216-240 | posting moves the trial balance by the lines' sum, less the lines skipped |
| LedgerLaws.ProducedIsAllowed | crates/events/src/ledger.rs:278-353 | the events the handler can return are exactly those the rules allow: balanced postings, reversals of known unreversed entries, real status changes from the current status |
| LedgerLaws.LegalAt | crates/events/src/ledger.rs:278-376 | every event of a legal log was allowed in the state before it |
| LedgerLaws.RecordedEntriesBalance | crates/events/src/ledger.rs:356-376 | after any run every recorded entry balances, and only recorded entries are reversed |
| LedgerLaws.ExactConservation | crates/events/src/ledger.rs:216-240 | after any run, in every currency, the trial balance plus the lines posting skipped is exactly zero |
| LedgerLaws.TrialBalanceIsZero | crates/events/src/ledger.rs:209-224 | with one currency per account the trial balance is zero after any run |
| LedgerLaws.TrialBalanceKeptIff | crates/events/src/ledger.rs:209-240 | an event keeps the trial balance exactly when its lines on accounts of another currency, known beforehand, cancel |
| LedgerLaws.TrialBalanceCanBeNonZero | crates/events/src/ledger.rs:209-240 | a log of accepted entries whose trial balance is not zero |
| LedgerLaws.StateRemembersLog | crates/events/src/ledger.rs:356-370 | the state holds an entry, or marks it reversed, exactly when the log says so |
| LedgerLaws.NoEntryIsReversedTwice | crates/events/src/ledger.rs:317-332 | in any run no two reversals name the same entry |
| LedgerLaws.EveryReversalNamesAnEarlierEntry | crates/events/src/ledger.rs:317-332 | in any run a reversal names an entry recorded before it |
| LedgerLaws.EntryIdsAreUnique | crates/events/src/ledger.rs:309-331 | in any run no two events record an entry under one id |
| LedgerLaws.CapitalizationChains | crates/events/src/ledger.rs:334-351 | a run's status changes start from pending review, each leaves where the last arrived, none stays put, and the projection holds the last |
| InForce.PostingsMatchState | crates/events/src/ledger.rs:226-266 | the postings read off the log, reversals mirrored, are the entries of the state, and reversals form chains |
| InForce.RecordedIsInForce | crates/events/src/ledger.rs:253-266 | over reversal chains of any length, everything recorded sums to the original entries still in force |
| InForce.BalanceIsInForceSum | crates/events/src/ledger.rs:226-240 | at every reachable state a balance is the sum, in its currency, of the lines of the original entries in force |
| InForce.LaterEventsIgnoreTheEntry | crates/events/src/ledger.rs:278-376 | removing a posting nobody reverses leaves the rest of the run legal, and the state the same but for that entry |
| InForce.ReversalCancelsIff | crates/events/src/ledger.rs:226-266 | in any currencies, after a reversal every account of the run without the entry is there, one only the entry brought in holds nothing, and another has that run's balance, currency included, exactly when it is in the same currency |
| InForce.RestoredIff | crates/events/src/ledger.rs:226-266 | an account of the run without the entry is restored exactly when it was held before the entry, or the entry does not touch it, or it is held there in the entry's currency |
| InForce.HeldBeforeIsRestored | crates/events/src/ledger.rs:226-266 | an account held before the entry is restored in any mix of currencies |
| InForce.ReversalCanLeaveAnotherCurrency | crates/events/src/ledger.rs:226-266 | a legal log after whose reversal an account is held in another currency than without the entry |
| InForce.ReversalCancelsAtADistance | crates/events/src/ledger.rs:253-266 | with one currency per account, reversing an entry after any later events gives every account the balance of the run without it, amount and currency, and leaves nothing on one only the entry brought in, while both entries stay recorded |
| Assertions.AssertBalanced | crates/testkit/src/assertions.rs:133-173 | the two loops pass exactly the balanced entries |
| Assertions.AcceptanceAgreesWithAssertBalanced | crates/testkit/src/assertions.rs:133-173 | the handler accepts exactly what the check passes, and both report the same difference |
| Assertions.CheckNamesTheFault | crates/testkit/src/assertions.rs:133-152 | an empty entry is reported as such, and else the account of the first line that is not one-sided |
| Assertions.WellFormedReport | crates/testkit/src/assertions.rs:153-173 | with every line one-sided, how many currencies there are if more than one, and else what the signed amounts come to |
| Assertions.AssertMonotonicSequence | crates/testkit/src/assertions.rs:217-228 | passes exactly the strictly increasing sequences; otherwise names the first two neighbours that do not increase |
| EventStore.AggregateState.NextSequenceNumber | crates/infra/src/ledger_store.rs:211-211 | the sequence number in memory advances at once |
| EventStore.PgLedgerEventStore.ByAggregateId | crates/infra/src/ledger_store.rs:147-187 | returns the aggregate's rows, all of them, in sequence order |
| EventStore.PgLedgerEventStore.Load | crates/infra/src/ledger_store.rs:92-99 | the state is the replay of the stream and the sequence its last number |
| EventStore.SequenceIsTheGreatest | crates/infra/src/ledger_store.rs:92-99 | with gaps or without, the sequence loaded is the greatest number in the stream, or zero |
| EventStore.PgLedgerEventStore.Persist | crates/infra/src/ledger_store.rs:197-261 | all rows land or none; a conflict names the first taken slot; a backend that fails at any point leaves the table; the sequence in memory advances in every case; the loaded state is not touched |
| EventStore.StreamIsLog | crates/infra/src/ledger_store.rs:155-163 | reading back a table that holds a log returns the log |
| EventStore.AppendExtends | migrations/0003_ledger_events.sql:28-33 | appending after the last number extends that log by the batch and leaves the others alone |
| EventStore.FaultIsMetIff | crates/infra/src/ledger_store.rs:210-247 | a fault strikes exactly when every slot before its own is free, a conflict met earlier ending the persist |
| EventStore.StoredIsReadBack | crates/infra/src/ledger_store.rs:197-261 | what a persist returns is what reading the stream then gives after what it gave before |
| StaleDecisions.StaleDecisionHoldsIff | crates/events/src/ledger.rs:278-353 | a decision made on the first events of any log is what the handler returns on the whole log exactly when the events it missed do not touch what the command reads: nothing for a posting, the original's reversal, the status left |
| CommitHistory.CommitIsSerialIff | crates/infra/src/ledger_store.rs:189-261 | a commit numbered from the end of its stream is the handler's answer on that stream exactly when it missed nothing its command reads |
| CommitHistory.LegalIffRulesAreKept | crates/infra/src/ledger_store.rs:189-261 | all the streams of a history are logs the handler could have produced exactly when no commit missed what its command reads or recorded an entry under an id its stream had; and exactly when every commit was serial and new |
| Protocol.EveryRunKeepsInv | crates/infra/src/ledger_store.rs:189-261 | what every interleaving keeps as long as no commit left a gap, reloading or not, whatever fails or is persisted again: the table is the commits in order, each decided on some prefix of its stream |
| Protocol.NumberedIffInLine | crates/infra/src/ledger_store.rs:189-261 | in any run every stream was numbered 1 to n at every point so far exactly when every commit was put right after its stream |
| Protocol.RulesSurviveIff | crates/infra/src/ledger_store.rs:189-261 | in any run, whatever the writers do and whatever fails, every stream was numbered 1 to n and a log the handler could have produced, at every point so far, exactly when every commit was put right after its stream, missed nothing its command reads, and recorded a new id |
| Protocol.ReloadingWriterCommitsSerially | crates/infra/src/ledger_store.rs:193-196 | a writer that loaded since it last persisted changes nothing or commits what the handler returns on exactly the stream before it, under a new id, whatever the others do short of leaving a gap |
| Protocol.Serializable | crates/infra/src/ledger_store.rs:189-261 | if every writer reloads before it persists again, whatever fails, at any point of any interleaving each stream is numbered 1 to n and is the committed batches in order, each what the handler returned on exactly the prefix before it |
| Protocol.CommitsIffCurrent | migrations/0003_ledger_events.sql:28-33 | a batch fits the table exactly when its number has reached the end of its stream; otherwise its first slot is taken |
| Protocol.StaleWritersWriteNothing | crates/infra/src/ledger_store.rs:231-247 | as long as no commit left a gap, a writer behind the end of its stream changes neither the table nor the history, one at the end appends its batch, and one past it leaves a gap |
| Protocol.BusinessRulesSurviveConcurrency | crates/events/src/ledger.rs:317-351 | in whatever is read at any point of a run of reloading writers, or of one whose commits keep the three conditions, no entry is reversed twice, reversals name earlier entries, and status changes chain |
| Protocol.TheTableIsAppendOnly | migrations/0003_ledger_events.sql:43-60 | no step of any writer, reloading or not, failing or not, changes or removes a row |
| Protocol.PostCommand | crates/infra/tests/ledger_pg.rs:39-48 | load, handle, persist: the command is decided on the whole log and its events are appended to it |
| StaleRetry.RefusedThenStaleCommits | crates/infra/src/ledger_store.rs:210-211 | retrying without a reload, a writer is refused exactly once for each event it missed, and its next try fits |
| StaleRetry.RetryWithoutReloadBreaksTheRules | crates/infra/src/ledger_store.rs:210-247 | without the reload, a run whose table holds a log that breaks the status chain |
| StaleRetry.PersistingTwicePostsTwice | crates/infra/src/ledger_store.rs:210-261 | a run of one writer that records one entry twice under one id, though its commits are in line and miss nothing |
| StaleRetry.FailureLeavesAGap | crates/infra/src/ledger_store.rs:207-259 | a run of one writer whose try after a failure leaves its stream without a first row |
| Runner.Execute | crates/testkit/src/runner.rs:218-336 | the loop returns the run, or the first error, that the specification assigns to the scenario; a run's state is the replay of its events, each operation gave an event or a rejection, and none was left unresolved even where a rejection was expected |
| ScenarioLaws.ScenarioIsPerformed | crates/testkit/src/runner.rs:235-336 | the events are, in order, what the operations not expected to be rejected say: a posting its own lines under its own id, a reversal its reason and the first entry recorded under its name, a change its run, target and policy; each entry is recorded under its operation's id, name and number |
| ScenarioLaws.RejectionsAreRefusals | crates/testkit/src/runner.rs:298-321 | the rejections are, in order, what the handler refused the other operations' commands with |
| ScenarioLaws.FirstErrorEndsIt | crates/testkit/src/runner.rs:235-321 | a scenario ends at the first operation that is unresolved, names no or an unknown entry, is rejected unexpectedly, or accepted where a rejection was expected, with that error |
| Runner.RunnerSimulatesAggregate | crates/testkit/src/runner.rs:430-504 | the state is the replay of the recorded events, the records match the stored entries id for id and line for line, and every operation is an event or a rejection |
| Runner.RejectionsContributeNothing | crates/testkit/src/runner.rs:298-321 | dropping the rejected operations leaves events, state and records the same |
| Runner.ScenariosReverseOnlyOriginals | crates/testkit/src/runner.rs:245-261 | every reversal a scenario performs is of an original posting recorded before it under the same name: no name ever leads to a reversal |
| SplitMix.Rng.NextU64 | crates/testkit/src/generator.rs:44-50 | the next output of the seed's stream, on wrapping 64-bit words |
| SplitMix.Rng.Below | crates/testkit/src/generator.rs:53-55 | the draw reduced below the bound by taking the bound away, and nothing drawn for a bound of zero |
| SplitMix.Rng.Between | crates/testkit/src/generator.rs:58-64 | a value in the closed range, or the low end and no draw for an empty one |
| SplitMix.PinnedStream | crates/testkit/src/generator.rs:271-284 | the first three outputs of seed 0 are those the stream is pinned to |
| Decimals.DecimalIsMinorUnits | crates/testkit/src/generator.rs:188-188 | an amount of so many minor units at a scale, times ten to the scale, is that many |
| Generator.LineOfDraws | crates/testkit/src/generator.rs:181-202 | a line from its draws: the account drawn, between one and the largest number of minor units, a debit when the coin is even and a credit when it is odd |
| Generator.NoLineOfDraw | crates/testkit/src/generator.rs:182-185 | a draw beyond the accounts gives no line and draws nothing more |
| Generator.PlugOfDraw | crates/testkit/src/generator.rs:204-214 | the plug is the opposite of what the lines come to, a debit when that is negative, on the account drawn |
| Generator.LinesStandAsDrawn | crates/testkit/src/generator.rs:180-214 | lines stand in the order they were drawn, the plug last |
| Generator.EntriesStandAsDrawn | crates/testkit/src/generator.rs:172-217 | the number of lines is drawn first, between the clamped bounds, and entries follow one another on one stream |
| Generator.GenerateEntry | crates/testkit/src/generator.rs:176-210 | the loop with its running sum gives the entry that the stream of draws determines, plug included |
| Generator.EntryBalancesIff | crates/testkit/src/generator.rs:176-210 | for any stream of draws an entry balances exactly when its plug hits an account, or lines were drawn and cancel by themselves |
| Generator.OneAccountBalancesIff | crates/testkit/src/generator.rs:172-210 | with one account, exactly when the plug's draw is even, or lines were drawn and cancel |
| Generator.Generate | crates/testkit/src/generator.rs:169-220 | the ledger is a function of the seed and the specification |
| Generator.GeneratedBalances | crates/testkit/src/generator.rs:163-220 | for any seed there are as many entries as asked for; from two accounts on each balances, with a number of lines in the bounds asked for; with no account each is empty |
| Generator.OneAccountCanMiss | crates/testkit/src/generator.rs:163-210 | with one account, a seed whose entry does not balance |
| Generator.GroundTruth | crates/testkit/src/generator.rs:139-153 | the accumulator holds exactly the accounts touched, each at the sum of its signed amounts |
| Generator.GroundTruthIsBalancesIff | crates/testkit/src/generator.rs:139-153 | for any balanced entries the two key sets agree, and the balances agree exactly when what posting skipped cancels per account |
| Generator.GeneratedLedgerMatchesGroundTruth | crates/testkit/src/generator.rs:139-153 | entries in one currency are all accepted, and posting them gives the ground truth, key set included |
| Generator.SeedMatchesGroundTruth | crates/testkit/src/generator.rs:139-220 | from any seed and two accounts on, the whole generated ledger is accepted, and posting it gives its ground truth |
| AdsExport.FromRun | crates/testkit/src/ads_export.rs:203-268 | the nested loops write one row a line, magnitude and flag, in order |
| ExtractLaws.RowsAreTheLines | crates/testkit/src/ads_export.rs:203-268 | row for line: numbered from one, under the account's number, magnitude and flag of its sign, its currency, what the entry reverses, its sources |
| ExtractLaws.DetailIsEntryByEntry | crates/testkit/src/ads_export.rs:203-268 | the rows of the entries follow one another in the order they were recorded |
| ExtractLaws.TotalsArePlainSums | crates/testkit/src/ads_export.rs:336-362 | each side's total is the plain sum of the amounts flagged with it |
| ExtractLaws.JournalsAreTheRows | crates/testkit/src/ads_export.rs:354-361 | the journals counted are those some row carries |
| ExtractLaws.DerivedIsDebitsLessCredits | crates/testkit/src/ads_export.rs:390-406 | what an account re-derives to is its rows' debits less their credits |
| ExtractLaws.AccountsAreByLabel | crates/testkit/src/ads_export.rs:270-288 | accounts are written by label, character by character, and those of one label by id |
| AdsExport.Foot | crates/testkit/src/ads_export.rs:336-362 | the totals of each side, the row count and the number of distinct journals |
| AdsExport.Derive | crates/testkit/src/ads_export.rs:390-406 | the map holds, for every account number, the signed sum of its rows |
| AdsExport.Compare | crates/testkit/src/ads_export.rs:519-538 | passes exactly when both sides agree on every account, absent read as zero; otherwise it names a real difference |
| AdsExport.Reconcile | crates/testkit/src/ads_export.rs:375-432 | passes exactly when the rows foot and the re-derived balances equal both the file and the expected answer keyed by account number, the last label of a number kept; a failure to foot is reported with both totals, and a difference with the side it is against |
| AdsExport.TrialBalanceFile | crates/testkit/src/ads_export.rs:270-288 | the file holds a balance for every account number and nothing else: that of the last account by label; each account's own when no two share a number |
| AdsExport.DetailFoots | crates/testkit/src/ads_export.rs:203-268 | rows of balanced entries foot, whatever the signs their lines were written with |
| AdsExport.OneJournalPerEntry | crates/testkit/src/ads_export.rs:354-361 | the extract counts as many journals as the run recorded entries |
| AdsExport.ExtractRederivesBalances | crates/testkit/src/ads_export.rs:203-268 | for any executed scenario the rows foot, and re-deriving an account gives its balance plus what posting skipped on it |
| AdsExport.ExtractReconcilesIff | crates/testkit/src/ads_export.rs:375-418 | the re-derived balances equal the trial balance file exactly when what posting skipped cancels on every account |
| AdsExport.ExtractReconciles | crates/testkit/src/ads_export.rs:375-418 | with one currency per account the extract reconciles for any executed scenario |
| LargestRemainder.SortCuts | crates/testkit/src/allocation.rs:126-126 | a permutation ordered by remainder descending, index ascending |
| LargestRemainder.RankOfOrder | crates/testkit/src/allocation.rs:126-126 | the sorted position of a share is the number of shares that come before it |
| LargestRemainder.LeftoverIsSmall | crates/testkit/src/allocation.rs:107-129 | what is left over is fewer units than the shares that lost anything, and nothing exactly when none did |
| LargestRemainder.SplitConserves | crates/testkit/src/allocation.rs:49-145 | the shares of a whole-unit total sum to it |
| LargestRemainder.SplitIsWithinQuota | crates/cost-spine/src/pricing.rs:183-209 | each share is the floor or the ceiling of its exact share, the topped-up ones are exactly the k first by rank, and a zero weight gets nothing |
| LargestRemainder.SplitIsMonotone | crates/cost-spine/src/pricing.rs:183-209 | a larger weight never gets less, nor an equal one that comes first |
| LargestRemainder.SplitIsOptimal | crates/cost-spine/src/pricing.rs:162-167 | no whole-unit split of the same total has a smaller sum of absolute deviations |
| Allocation.TotalWeights | crates/testkit/src/allocation.rs:68-79 | the sum of the weights, or the first negative one |
| Allocation.TruncateShares | crates/testkit/src/allocation.rs:84-109 | each share truncated toward zero, the size of each cut, and the signed rest |
| Allocation.HandOut | crates/testkit/src/allocation.rs:128-144 | one step a turn in the sorted order; ends within the first pass when whole units are left over, and otherwise always in an overflow |
| Allocation.Allocate | crates/testkit/src/allocation.rs:57-145 | the reference split in the direction of the total's sign, or the error |
| Decimals.UnitIsInverse | crates/testkit/src/allocation.rs:93-93 | the unit of a scale times ten to the scale is one |
| Decimals.PowersOfTen | crates/cost-spine/src/pricing.rs:184-184 | ten for one place, and the product for places together |
| DecimalShares.AllocatedInDecimals | crates/testkit/src/allocation.rs:57-145 | on valid weights and a scale up to 28 it succeeds exactly when the total times ten to the scale is an integer; then so is every part, within one of its exact share, and they are the signed whole-unit split |
| DecimalShares.AllocationIsRefused | crates/testkit/src/allocation.rs:62-83 | no weights, too large a scale, weights that sum to zero: each has its own error |
| DecimalShares.NegativeWeightIsNamed | crates/testkit/src/allocation.rs:68-79 | the first negative weight is named |
| DecimalShares.FinerTotalOverflows | crates/testkit/src/allocation.rs:128-144 | a total finer than the scale overflows |
| AllocationLaws.AllocatesExactlyWholeUnits | crates/testkit/src/allocation.rs:62-145 | it succeeds exactly on valid weights, a scale up to 28 and a total of whole units; a finer total always overflows |
| AllocationLaws.PartsSumToTheWhole | crates/testkit/src/allocation.rs:49-51 | whenever it succeeds there is a part for each weight and they sum to the total |
| AllocationLaws.AllocationIsOdd | crates/testkit/src/allocation.rs:25-29 | negating the total negates every part, and an error stays the same error |
| Allocation.AllocateEvenly | crates/testkit/src/allocation.rs:152-158 | allocation over weights of one |
| AllocationLaws.EvenSplit | crates/testkit/src/allocation.rs:152-158 | split evenly, every part is the quotient and the first remainder-many get one unit more |
| Pricing.FloorShares | crates/cost-spine/src/pricing.rs:186-195 | each share truncated toward zero with its signed cut |
| Pricing.TopUp | crates/cost-spine/src/pricing.rs:204-211 | a step each in the sorted order until less than a step is left |
| Pricing.Apportion | crates/cost-spine/src/pricing.rs:168-221 | truncated shares, topped up by rank, the residue on the share ranked first; or the error |
| DecimalShares.ApportionedInDecimals | crates/cost-spine/src/pricing.rs:183-216 | for a total of any sign and precision: each share is its exact one truncated toward zero, one smallest amount more for as many as are left, those that lost most first, and the rest of what was left on the one that lost most |
| DecimalShares.ApportionedWholeInDecimals | crates/cost-spine/src/pricing.rs:183-216 | a total that is not negative and has no more places gets the whole-unit split, each share within one smallest amount of its exact one |
| DecimalShares.ApportionmentIsRefused | crates/cost-spine/src/pricing.rs:168-178 | no weights, or weights that are negative or sum to nothing: each has its own error |
| ApportionLaws.ApportionConserves | crates/cost-spine/src/pricing.rs:157-167 | it succeeds exactly on valid weights, and then the shares sum to the total, of any sign and any precision, in its currency |
| ApportionLaws.ApportionedWhole | crates/cost-spine/src/pricing.rs:168-221 | a whole-unit total that is not negative gets the reference split |
| ApportionLaws.FinishedNegative | crates/cost-spine/src/pricing.rs:204-216 | a negative leftover goes, all of it, on the share that was cut least |
| ApportionLaws.AgreeExactly | crates/testkit/src/allocation.rs:57-145 | the two allocators return the same parts exactly on whole-unit totals that are not negative or whose shares are all cut alike by at most one unit in all |
| ApportionLaws.AllocatorsCanDisagree | crates/cost-spine/src/pricing.rs:204-216 | minus ten units over six equal weights: the two differ |
| PricingLaws.ComputesExactlyValidInputs | crates/cost-spine/src/pricing.rs:98-147 | the computation fails exactly on a negative quantity, price or coverage or a rate outside 0 to 1, never on the currencies it adds |
| PricingLaws.PlainCost | crates/cost-spine/src/pricing.rs:98-152 | with neither discount nor commitment the three measures are list price times quantity |
| PricingLaws.CostWithoutCommitment | crates/cost-spine/src/pricing.rs:112-152 | without a commitment billed and effective are the quantity at list price times the product of one minus each rate |
| PricingLaws.CostWithCommitment | crates/cost-spine/src/pricing.rs:122-152 | a commitment of no more than the quantity: its units at the committed price, the rest at the discounted one; what was prepaid is not billed |
| PricingLaws.CostWithFullCommitment | crates/cost-spine/src/pricing.rs:122-152 | a commitment of no less: the whole quantity at the committed price, and nothing billed if it was prepaid |
| PricingLaws.PricingIsRefused | crates/cost-spine/src/pricing.rs:98-130 | a negative quantity, price or coverage is named, in that order |
| PricingLaws.FirstBadRateIsNamed | crates/cost-spine/src/pricing.rs:105-110 | the first rate below zero or above one is named |
| PricingLaws.DiscountOrderDoesNotMatter | crates/cost-spine/src/pricing.rs:112-120 | reordering or relabelling the discounts changes neither the amounts nor whether the line is refused |
| PricingLaws.CostsAreBounded | crates/cost-spine/src/pricing.rs:133-152 | with a committed price between zero and list, zero is at most billed, billed at most effective, effective at most list |
| PricingLaws.BilledIsEffectiveIff | crates/cost-spine/src/pricing.rs:142-147 | billed equals effective exactly when nothing that costs anything was prepaid, and exceeds it only for prepaid coverage at a negative cost |
| PricingLaws.AnotherDiscountNeverCostsMore | crates/cost-spine/src/pricing.rs:116-120 | one more discount lowers or keeps billed and effective cost and leaves list cost |
| CostEvents.PgCostEventStore.UpsertOne | crates/infra/src/cost_events.rs:198-292 | insert, update in place keeping the id, or leave, by the content hash; or refuse an empty period or a taken id |
| CostEvents.PgCostEventStore.Upsert | crates/infra/src/cost_events.rs:176-297 | the whole batch with its three counts, or no change at all and the error |
| IngestLaws.BatchIsRefusedIff | crates/infra/src/cost_events.rs:176-297 | a batch is refused, and changes nothing, exactly when it spans tenants, or an event has no positive period, or would open a row under an id that is taken |
| IngestLaws.RefusalNamesTheFirstFault | crates/infra/src/cost_events.rs:196-280 | of several faults the first event's is named, its period before its id |
| IngestLaws.RowIdsAreUnique | migrations/0001_cost_events.sql:14-70 | over any history of batches no two rows share an id |
| IngestLaws.RowIsTheLastChange | crates/infra/src/cost_events.rs:215-245 | but for its id a row is, content, hash and provenance, the last delivery of its key that changed the hash |
| CostEvents.HistoryOfTheTable | crates/infra/src/cost_events.rs:163-175 | over any history of batches there is one row for each distinct key, with the content last and the id first delivered, and insertions reported equal rows |
| CostEvents.LastHashWins | crates/infra/src/cost_events.rs:215-245 | whatever was there, a row ends with the content hash delivered last |
| CostEvents.CountsSum | crates/infra/src/cost_events.rs:282-292 | the three counts of a batch sum to its length |
| CostEvents.AllDuplicatesIff | crates/infra/src/cost_events.rs:170-175 | a batch is all duplicates exactly when each row already has its hash; then no row changes, and it is refused only for a period that is not positive |
| CostEvents.RedeliveryKeepsTheTable | crates/cost-spine/src/store.rs:75-78 | whatever a committed batch says, delivering it again commits, inserts nothing and leaves every row as it was |
| CostEvents.RedeliveryIsDuplicatesIff | crates/infra/src/cost_events.rs:170-175 | a committed batch delivered again is all duplicates exactly when it gives each key one content hash |
| CostEvents.DistinctKeysRedeliver | crates/infra/src/cost_events.rs:170-175 | a batch with distinct keys can be delivered again without changing a row |
| CostEvents.SelfRestatingBatch | crates/infra/src/cost_events.rs:170-175 | a batch whose re-delivery restates it |
| ResearchGraph.PgResearchGraphStore.UpsertRun | crates/infra/src/research_graph.rs:102-175 | inserts, updates the tracked facts or leaves, never the id, the experiment or the cost of a known run; or refuses an end before the start, a taken id or an unknown experiment |
| RunFacts.FactsAreTheLastDelivered | crates/infra/src/research_graph.rs:112-125 | over any history the facts a run holds are those of its last accepted delivery |
| RunFacts.AnswersAreOfTheLast | crates/infra/src/research_graph.rs:95-175 | an accepted delivery answers inserted when none came before; else unchanged exactly when its facts are the last accepted one's, and updated exactly when they are not |
| RunFacts.RedeliveryIsUnchanged | crates/infra/src/research_graph.rs:95-101 | an accepted delivery repeated at once is unchanged and leaves every run as it is |
| RunFacts.DeliveryIsRefusedIff | crates/infra/src/research_graph.rs:102-150 | it is refused exactly over an end before the start, or, for a run not yet known, over a taken id or an unknown experiment, and then changes nothing |
| RunFacts.FirstDeliveryStays | crates/infra/src/research_graph.rs:115-125 | a run keeps the id, the experiment and the currency it was first delivered with |
| RunFacts.ExperimentsAreTheDelivered | crates/infra/src/research_graph.rs:72-92 | an experiment is there exactly when it was delivered |
| RunFacts.BatchesAreTheDelivered | crates/infra/src/research_graph.rs:221-257 | the cost batches of a history are those delivered, each in its place |
| RunFacts.BatchesAreNoMore | crates/infra/src/research_graph.rs:221-257 | and there are no others |
| ResearchGraph.RunsAreWellFormed | migrations/0002_research_graph.sql:18-48 | over any history every run belongs to an experiment that is there, and none ends before it starts |
| ResearchGraph.PgResearchGraphStore.SumMatching | crates/infra/src/research_graph.rs:249-257 | the sum over the run's rows in its currency, in whatever order they come |
| RunFacts.CostIsOfTheRowsNamingTheRun | crates/infra/src/research_graph.rs:249-257 | a run's cost in a currency is the sum of the effective costs of its tenant's rows that name it, in that currency |
| ResearchGraph.PgResearchGraphStore.RefreshAttributedCost | crates/infra/src/research_graph.rs:227-270 | one run's cost becomes that sum in its own currency; an unknown run is an error and changes nothing |
| ResearchGraph.RunCostIsSimpleSum | crates/infra/src/research_graph.rs:221-257 | after any history of batches a run's cost is the sum over deliveries read backwards, each key counted once |
| ResearchGraph.RefreshNeedsNoRounding | migrations/0002_research_graph.sql:32-32 | rows that fit a number of decimal places sum to a cost that fits them, so storing it rounds nothing off |
| ResearchGraph.CostMovesByTheRow | crates/infra/src/research_graph.rs:249-257 | one delivery moves a run's cost by what its row now adds less what it added before |
| ResearchGraph.RestatementMovesByTheDifference | crates/infra/src/research_graph.rs:221-257 | a restatement that keeps run and currency moves the cost by exactly new minus old |
| ResearchGraph.IdsStayUnique | crates/infra/src/research_graph.rs:102-175 | over any history no two runs share an id |
| ResearchGraph.RunIdIsStable | crates/infra/src/research_graph.rs:95-101 | every successful delivery of a run returns the id it keeps for good |
| ResearchGraph.InsertedExactlyOnce | crates/infra/src/research_graph.rs:95-101 | each run there is was reported inserted once and only once |
| ResearchGraph.AttributedCostIsTheSimpleSum | crates/infra/src/research_graph.rs:115-270 | at any time after its last refresh a run's attributed cost is the last-delivery-wins sum as of that refresh: no delivery of runs or costs disturbs it |
| AwsIdentity.DeriveExternalIdBytes | crates/cost-spine/src/providers/aws.rs:153-267 | the hasher is fed the billing period and each field, trimmed or empty, behind a separator |
| AwsIdentity.LineHoldsItsFields | crates/cost-spine/src/providers/aws.rs:251-267 | the period comes first as given, then each field in its place, trimmed, or empty where there is none |
| AwsIdentity.FieldIsTrimmed | crates/cost-spine/src/providers/aws.rs:153-158 | what is hashed of a field is the field less white space before and after it |
| AwsIdentity.WhiteSpaceIs | crates/cost-spine/src/providers/aws.rs:153-158 | white space is Unicode's, and the separator is not among it |
| AwsIdentity.ReadsBackIff | crates/cost-spine/src/providers/aws.rs:251-267 | the parts can be read back from the text exactly when none holds the separator |
| AwsIdentity.JoinedIsInjective | crates/cost-spine/src/providers/aws.rs:245-250 | a line free of the separator shares its text with no other line of as many parts, whatever the other holds |
| AwsIdentity.DeterminedIffSealed | crates/cost-spine/src/providers/aws.rs:153-267 | among lines of trimmed fields the hashed text determines one exactly when white space follows every separator in its period and first field and stands beside every one in its other fields |
| AwsIdentity.LinesCanCollide | crates/cost-spine/src/providers/aws.rs:251-267 | a line of eight parts, a separator inside a field, that another line of trimmed fields shares its text with |

## Left out

- Runner.Execute: takes each operation with its lines and parameters resolved, or with the error that resolving them gave, which ends the run before the handler is asked; the chart lookup and the decimal parsing that resolve them are left out.
- Pricing.Apportion: requires a precision of at most 19, because ten to a larger power overflows 64 bits in the source.
- ResearchGraph.PgResearchGraphStore.RefreshAttributedCost: takes the amounts of cost rows as their `NUMERIC(38, 12)` column holds them; what a row loses when a finer amount is stored is left out, and by `ResearchGraph.RefreshNeedsNoRounding` the sum loses nothing more.
- The CHECK constraints on currency, function code and status: the values they allow are those of the Rust enums the columns are written from, so they refuse nothing.
- Account ids are UUIDs; their order, which breaks a tie between two accounts with one label, is that of numbers here.
- Text is modelled as code points; UTF-8 writes different texts as different bytes.
- Deleting a stream, which the store refuses outright.
- `rust_decimal`: 28-digit rounding, overflow and the sign of zero. Amounts are exact and zero has no sign.
- The 32-bit width of sequence numbers.
- `esrs` itself, which is not part of this model: that `next_sequence_number` increments and returns, and that applying store events sets the sequence to the last row's, are taken from its use.
- SHA-256 and UUIDs: an equal content hash for one key is assumed to mean equal content, ids are assumed fresh; a taken id is modelled as an error.
- Tenancy as a mechanism: row-level security, roles and connections. Each ledger aggregate belongs to one tenant, since the index does not name the tenant.
- Wall-clock stamps, dimensions, descriptions and headers of extract rows, and the columns of a cost row that nothing here reads.
- Scenario parsing, the phase catalog, chart loading, CSV and JSON, routes and authentication.
- `assert_replay_stable`: replay is a function here, so two replays agree at once; that the live state is the replay is part of `Runner.RunnerSimulatesAggregate`.
- The remaining corpus checks of `crates/testkit/src/assertions.rs`: flat comparisons of values handed to them.
- Experiments beyond their being there, coverage reports and lookups of the two Postgres stores: single reads and writes.
