# Keeper verification

A Dafny model of the parts of the Dusk liquidation keepers in which a mistake
costs money or blocks work for good: the durable submission journal, the
profit search, the execution lifecycle, transfer-fee arithmetic, public-key
encoding, instruction envelopes and the scheduler. The repository has several
of these twice, in Rust and in TypeScript; both forms are modelled and compared.

`dafny verify dfyconfig.toml` checks everything.

## What is modelled, and where to start reading

**Submission journal.** `JournalProtocol` is a step relation for any number of
keeper processes that share one table, its event log and the database's session
locks, and that read a finalized chain through an RPC node. Every database
transaction, RPC call and local signature is a step of its own; processes
crash, lose their session (and its locks) and start over between any two steps.
The steps follow `rust/apps/keeper/src/runtime/flash_journal.rs`:

- `Discover` 47, `TryWork` 50-64, `Reread` 69-82, `ReadStatus` 83-93 and
  235-242, `ReadHeight` 94-102, `ReadSlot` 103-112, `ReadWindow` 115-127,
  `ReadBlock` 128-139, `ReadTip` 143-146, `ReadReceipt` 303-333, `Commit`
  346-364, `Unlock` 150-159 and 204-210.
- `Submit` 178-189, `Query` 230-263, `Rebroadcast` 252-256, `Reserve` 264-288,
  `Sign` 289-291, `Persist` 292-295, `Send` 296-301.
- `CallFails` is any `?` on an RPC or database call.

What the environment owes the keepers is written into its own steps, never
assumed elsewhere: a node's finalized answers are true and never go back for
one client, a well-formed `getBlocks` answer has no gap, a transaction is
finalized only after it was sent and only within its message's own bounds, a
lock lives as long as its session, and inserting a taken work key fails. One
duty is the caller's: the recorded slot and height must enclose the range in
which the chain lets the message land (`SubmitStep`).
`JournalInvariant` has what each step keeps, `JournalSafety` the theorems over
whole runs, and `JournalProgress` what the protocol can always go on to do. `JournalRecovery`, `JournalPass` and `JournalSubmission` are
the same code statement by statement, for one process, as methods on objects.

**Profit search.** `SearchShape` has the geometry of a refinement round,
`ProfitPlan` the amounts a search evaluates as a function of cap and evaluator,
`ProfitMeaning` and `ProfitPlaces` where they lead, `ProfitBudget` and
`ProfitLimit` how many they can get, `ProfitMissed` an amount that is missed, and `ProfitSearch` the code, which
evaluates its plan in order until the budget is spent.

**Lifecycle** (`Lifecycle` and `LifecycleRecord`, with the two reducers in
`RustReducer` and `TypeScriptReducer`), **transfer fees** (`TransferFees`,
`MintFees`, `MintLayout`), **public keys** (`Base58`, `Base58Alphabet`),
**envelopes** (`CanonicalBytes` and `CanonicalReader` with `RustWriter` and
`TypeScriptWriter`, `DelegatedPayload`, `DelegatedComposition`, `AccountMatch`,
`AccountFields`) and **scheduler** (`Scheduling` and `SchedulerRuns` with
`RustScheduler` and `TypeScriptScheduler`) each start with the data and the
specification and end with the theorems.

## Where the code falls short of its description

- The search's 256 probes are described as a bound, not as a limit on what is
  found. For every cap below 355283970603672461 (about 2^58.3) the budget is
  enough, whatever the evaluator says (`BudgetSuffices`); at that cap there is an
  evaluator for which the search stops after 256 amounts, none of them profitable,
  although the next one is (`MissedAtLimit`). For any cap, some evaluator exhausts
  the budget if and only if `Worst(cap)` exceeds 256 (`ExhaustibleExactlyWhen`).
- Both breaks inside the refinement loop are dead while budget is left: the
  best amount always has a score in range, and a full round always shrinks the
  interval.
- The TypeScript reducer takes an empty blockhash or signature for a missing
  one, the Rust reducer does not: when a signature is due, and, for an empty
  signature that Rust has recorded, when it is asked for. These are the only
  differences (`DialectsAgreeExactly`), and the first one on a trace is always of
  the first kind (`TracesAgreeExactly`).
- `base58Encode` spells the empty array "1", the big-integer form spells it "".
- A specification pin of "" can never be matched in Rust and is ignored in
  TypeScript. This is the only difference (`LanguagesAgreeWhen`).
- Greedy account matching misses an allowed account list when an optional entry
  competes with a later entry of the same name. `GreedyIsExactWhen` says
  exactly for which specifications; distinct names are enough.
- An observed slot above 2^53 - 1 has canonical bytes in Rust and is an error in
  TypeScript.
- Of candidates of the same rank under different keys the Rust scheduler pops the
  one with the last key and the TypeScript scheduler the one inserted first
  (`RepeatedIdDiffers`). `SchedulersAgreeExactly` says for exactly which
  candidates the two can be told apart.

## Model

| member | source | states |
|---|---|---|
| JournalSafety.ReplacementSafety | rust/apps/keeper/src/runtime/flash_journal.rs:178-302 | whenever a process is about to sign, or has signed, a generation, every earlier generation of the same revision, position and side is finalized, or without bytes while everything ever sent is recorded under another work key, or absent and past its validity; and that row never changes again in any later state |
| JournalSafety.SignerHasReserved | rust/apps/keeper/src/runtime/flash_journal.rs:264-291 | whoever signs works on a committed reservation for the right key, even after losing its session |
| JournalSafety.AtMostOnePending | rust/apps/keeper/src/runtime/flash_journal.rs:47-82 | in every reachable state at most one row per key is reserved or submitted_unknown, although the work list is read before the lock |
| JournalSafety.OnlyPendingCanLand | rust/apps/keeper/src/runtime/flash_journal.rs:94-148 | a recorded transaction that is not on the chain and later is belongs to a pending row |
| JournalSafety.AtMostOneCanLand | rust/apps/keeper/src/runtime/flash_journal.rs:229-288 | from any state on, at most one generation of a key can still reach the chain |
| JournalSafety.ExpiredNeverLands | rust/apps/keeper/src/runtime/flash_journal.rs:140-148 | an expired_absent verdict is never contradicted by a later block, even if the bytes are sent again |
| JournalSafety.WriteAhead | rust/apps/keeper/src/runtime/flash_journal.rs:250-301 | every transaction a step sends was in a committed, unreserved and unabandoned row before that step |
| JournalSafety.AbandonedNeverSent | rust/apps/keeper/src/runtime/flash_journal.rs:289-302 | bytes signed for a generation that was abandoned meanwhile are in no later sent set, unless another generation recorded the same bytes |
| JournalSafety.AbandonedNeverRecorded | rust/apps/keeper/src/runtime/flash_journal.rs:258-262 | an abandoned generation never gets bytes, and its log stays reserved, abandoned |
| JournalSafety.LogTellsOutcome | rust/apps/keeper/src/runtime/flash_journal.rs:346-364 | the events of a row are the one path to its outcome, so the outcome column is always the last event |
| JournalSafety.LocksAreHeldByTheLiving | rust/apps/keeper/src/runtime/flash_journal.rs:150-155 | a held lock belongs to a live session at a program point that releases it |
| JournalSafety.RunIsLater | rust/apps/keeper/src/runtime/flash_journal.rs:292-295 | rows, recorded bytes and settled outcomes are permanent over a run |
| JournalProgress.PendingCanBeSettled | rust/apps/keeper/src/runtime/flash_journal.rs:42-161 | any pending row whose fate is decided, no bytes, landed, or past its height with no block in reach carrying its signature, can be settled accordingly by one idle live process alone as soon as its lock is free |
| JournalProgress.KeyCanBeSubmitted | rust/apps/keeper/src/runtime/flash_journal.rs:178-302 | a key with nothing pending can be submitted for: the row is recorded and exactly its bytes are sent |
| JournalProgress.RecordedCanBeSentAgain | rust/apps/keeper/src/runtime/flash_journal.rs:229-257 | the recorded bytes of a submitted row can be sent again with the table unchanged |
| JournalProgress.ScanLeads | rust/apps/keeper/src/runtime/flash_journal.rs:94-148 | the steps from the status to the last block of the last window lead to expired_absent, for any number of windows |
| JournalInvariant.StepKeeps | rust/apps/keeper/src/runtime/flash_journal.rs:42-364 | every step of every process, and every block, keeps the invariant on table, log, locks, sent set and what each process relies on |
| JournalInvariant.RunKeeps | rust/apps/keeper/src/runtime/flash_journal.rs:42-364 | every state of every run satisfies the invariant |
| JournalInvariant.SlotBoundsHeight | rust/apps/keeper/src/runtime/flash_journal.rs:94-112 | because the height is read before the slot, every block at or below the last valid height lies in the range to scan |
| JournalInvariant.WindowExtendsScan | rust/apps/keeper/src/runtime/flash_journal.rs:115-127 | one more complete 500-slot window extends what the scan has covered, without a gap |
| JournalInvariant.ScanProvesAbsence | rust/apps/keeper/src/runtime/flash_journal.rs:113-148 | after the last window the transaction is on no block and can be on none to come |
| JournalInvariant.TransactionKeepsOthers | rust/apps/keeper/src/runtime/flash_journal.rs:53-64 | a transaction under a key's lock disturbs nothing any other process relies on |
| JournalInvariant.TableAfterReserve | rust/apps/keeper/src/runtime/flash_journal.rs:276-288 | a reservation with nothing pending keeps the table, its log and the succession of generations consistent |
| JournalRecovery.ScanHistory | rust/apps/keeper/src/runtime/flash_journal.rs:113-146 | Absent means every finalized block from the observed slot to the final slot was read once, in order, and the transaction is dead; Found means one of them carries the signature; it gives up only when a call fails |
| JournalRecovery.ScanWindow | rust/apps/keeper/src/runtime/flash_journal.rs:128-139 | one window's bodies are read in order until the signature turns up |
| JournalRecovery.ReadBlock | rust/apps/keeper/src/runtime/flash_journal.rs:129-138 | one body either carries the signature or moves the scan past its block |
| JournalRecovery.ReadTip | rust/apps/keeper/src/runtime/flash_journal.rs:143-146 | with a truthful node the coverage checks at the tip never fire |
| JournalRecovery.Reconcile | rust/apps/keeper/src/runtime/flash_journal.rs:65-149 | recovering a row commits nothing or exactly the reported outcome, and only one the protocol allows for the row as re-read; a finalized status is acted upon at once; nothing is done exactly if the height told next has not passed the row's, and the row is left to archival recovery exactly if the slot told after that is before the observed one or more than 100000 past it; every other error has its cause |
| JournalRecovery.ReconcileUnknown | rust/apps/keeper/src/runtime/flash_journal.rs:94-148 | the same for a submitted row without a finalized status |
| JournalRecovery.ReconcileHistory | rust/apps/keeper/src/runtime/flash_journal.rs:113-148 | what the scan found is settled from its receipt, a proven absence is committed, and it gives up only when a call fails |
| JournalRecovery.FinishReceipt | rust/apps/keeper/src/runtime/flash_journal.rs:303-345 | executed or failed is committed only if the finalized bytes are the recorded bytes |
| JournalPass.Recover | rust/apps/keeper/src/runtime/flash_journal.rs:42-161 | the outcomes reported are exactly those committed, in order, and only for rows of the revision that were pending, at most 100; no lock outlives the pass, on success or failure; after a success every listed row is settled, or was locked by somebody else, or may still land, and with fewer than 100 rows pending all of them were listed |
| JournalPass.RecoverOne | rust/apps/keeper/src/runtime/flash_journal.rs:49-159 | one row: skipped if locked, else reconciled and unlocked |
| JournalPass.DeadSurvives | rust/apps/keeper/src/runtime/flash_journal.rs:140-148 | absence past the validity height stays true however much the chain grows |
| JournalSubmission.Submit | rust/apps/keeper/src/runtime/flash_journal.rs:178-212 | a contended key changes nothing and sends nothing; otherwise the call does what submit_locked does, under the lock, which is given back or gone with the session; even if it is gone, a pending row's bytes are sent again exactly if they were not called finalized |
| JournalSubmission.SubmitLocked | rust/apps/keeper/src/runtime/flash_journal.rs:214-302 | with nothing pending, success is one new generation, recorded and then sent, and no failure sends unrecorded bytes; with something pending, no new generation is made, and its recorded bytes are sent once more exactly if the node does not call them finalized; every error has its cause, a failed call, a taken work key, an overflow or the pending row |
| JournalSubmission.Start | rust/apps/keeper/src/runtime/flash_journal.rs:264-302 | reserve, sign, persist, send: the table is unchanged, reserved or complete, the wire is used only when it is complete, and success means the wire returned the signature |
| JournalSubmission.Defer | rust/apps/keeper/src/runtime/flash_journal.rs:231-263 | a pending row is canceled if it has no bytes, settled from its receipt if its status is finalized, and otherwise its exact bytes are sent once more with the table untouched |
| ProfitSearch.SearchProfitable | rust/apps/keeper/src/liquidation/search.rs:49-142 | the code evaluates its plan in order, at most 256 amounts of it; None means all of that was evaluated and nothing of it failed or was profitable; a payload or error comes from the last amount evaluated, and no earlier one was profitable or failed |
| ProfitLimit.NoneMeans | rust/apps/keeper/src/liquidation/search.rs:49-142 | what was evaluated before None are different amounts of 1..=cap, all slices among them; if the plan was finished, nothing was quoted or a window of at most 64 is fully evaluated and holds the largest of the amounts with the best score measured; if it was cut short, after 256, an amount of it was never evaluated; below the limit it is always finished |
| ProfitLimit.ExhaustibleExactlyWhen | rust/apps/keeper/src/liquidation/search.rs:20-22 | for any cap, some evaluator makes the plan longer than 256 if and only if the worst path of rounds over all slices does |
| ProfitLimit.BudgetSuffices | rust/apps/keeper/src/liquidation/search.rs:20-22 | for every cap below 355283970603672461 slices, rounds and window fit into 256 probes on every path |
| ProfitLimit.LimitIsExhaustible | rust/apps/keeper/src/liquidation/search.rs:20-22 | at that cap 17 slices, 26 rounds of seven and a window of 58 want 257 |
| ProfitMissed.PlanIsCausal | rust/apps/keeper/src/liquidation/search.rs:49-142 | a plan up to an amount does not depend on the answer for that amount |
| ProfitMissed.MissedAtLimit | rust/apps/keeper/src/liquidation/search.rs:33-35 | an evaluator at the limit for which None is returned although the 257th amount of the plan is profitable |
| ProfitBudget.PlanWithinWorst | rust/apps/keeper/src/liquidation/search.rs:88-140 | no evaluator makes a plan longer than the worst |
| ProfitBudget.WorstIsReached | rust/apps/keeper/src/liquidation/search.rs:88-140 | and one that never fails and never quotes a profit makes it as long |
| SearchShape.RoundNarrows | rust/apps/keeper/src/liquidation/search.rs:88-125 | whichever amount is best after a full round, its evaluated neighbours are at most a quarter of the interval, rounded up, apart, and an inner best amount stays an inner one |
| SearchShape.CheapCostBound | rust/apps/keeper/src/liquidation/search.rs:88-140 | from an inner spot at least two narrower than the n-th tight width, rounds and window cost at most 7n + 57 probes on every path |
| SearchShape.TightCosts | rust/apps/keeper/src/liquidation/search.rs:88-140 | a tight interval with its best amount just above the middle can cost 7n + 58 |
| ProfitPlan.PlanShape | rust/apps/keeper/src/liquidation/search.rs:24-44 | a plan never repeats an amount and stays within 1..=cap |
| ProfitPlan.SlicesShape | rust/apps/keeper/src/liquidation/search.rs:7-18 | at most 17 different amounts descending from the cap to 1 |
| ProfitMeaning.RoundLeads | rust/apps/keeper/src/liquidation/search.rs:88-125 | after a round the new interval has evaluated ends, its best amount is the largest of those with the highest score measured so far, and nothing else inside it has been evaluated |
| ProfitPlaces.TracedPlaces | rust/apps/keeper/src/liquidation/search.rs:71-125 | after any number of rounds within budget, of the trace so far the interval's ends are evaluated, nothing inside but its best amount is, and that is the largest of the amounts with the highest score |
| ProfitPlaces.NarrowIsScanned | rust/apps/keeper/src/liquidation/search.rs:127-140 | an interval of at most 64 is evaluated amount by amount |
| ProfitPlaces.WideIsSampled | rust/apps/keeper/src/liquidation/search.rs:88-107 | a wider one is sampled first |
| ProfitPlaces.FreshIsEighths | rust/apps/keeper/src/liquidation/search.rs:92-96 | at its eighths, rounded down |
| ProfitPlaces.RoundAscends | rust/apps/keeper/src/liquidation/search.rs:90-107 | a round evaluates its new amounts from the bottom up |
| ProfitPlaces.ScanFromTop | rust/apps/keeper/src/liquidation/search.rs:127-140 | when the scan evaluates an amount it has evaluated all larger ones of the window, so that a payload it returns is that of the largest profitable new amount |
| ProfitMeaning.PlanExhausts | rust/apps/keeper/src/liquidation/search.rs:88-140 | unless no slice is quoted, a whole plan ends with a window at most 64 wide that is fully evaluated and holds the largest of the amounts with the best score measured |
| ProfitSearch.Slices | rust/apps/keeper/src/liquidation/search.rs:7-18 | the geometric amounts are the halvings of the cap, at most 16, with 1 added if missing |
| ProfitSearch.Probe | rust/apps/keeper/src/liquidation/search.rs:24-44 | a repeated, zero or over-budget amount changes nothing; otherwise the amount is counted, visited and scored, and ends the search exactly when it fails or is profitable |
| ProfitSearch.ProbeSlices | rust/apps/keeper/src/liquidation/search.rs:59-70 | the geometric phase evaluates exactly the slices, within budget |
| ProfitSearch.ProbeGrid | rust/apps/keeper/src/liquidation/search.rs:90-107 | the nine grid probes evaluate the round's new amounts, the next ones of the plan, as far as the budget goes |
| ProfitSearch.NextInterval | rust/apps/keeper/src/liquidation/search.rs:108-124 | within budget the interval between the visited neighbours of the best scored amount, the larger one on a tie, is the plan's next place, and the loop's two breaks are dead |
| ProfitSearch.Refine | rust/apps/keeper/src/liquidation/search.rs:88-125 | refinement terminates at a place of the plan at most 64 wide, or on a spent budget |
| ProfitSearch.ScanWindow | rust/apps/keeper/src/liquidation/search.rs:127-140 | the scan from the top ends the plan, or the budget |
| Lifecycle.ReachableShape | rust/crates/keeper-core/src/lifecycle.rs:157-395 | after any trace the phase determines next step, outcome, signature and slot, and event_sequence lies between 7*generation+index and 9*generation+rank |
| Lifecycle.UnreachableErrors | rust/crates/keeper-core/src/lifecycle.rs:259-355 | missing_signature and outcome_missing cannot occur, missing_confirmation_slot only for a confirm without slot, and a complete attempt accepts nothing |
| Lifecycle.CountersFit | rust/crates/keeper-core/src/lifecycle.rs:144-145 | in traces of fewer than 7 * 2^32 events the u32 generation and the u64 sequence number do not overflow |
| Lifecycle.NoResignWhileUnknown | rust/crates/keeper-core/src/lifecycle.rs:357-395 | between two consecutive accepted signatures lie exactly one new generation and one full preparation; if the first was submitted, expiry and finalized absence were both accepted |
| Lifecycle.ExecutedWasEarned | rust/crates/keeper-core/src/lifecycle.rs:259-355 | an executed outcome means every step since the last generation was accepted once and in order, then a landing, then a postcondition, and nothing else |
| Lifecycle.TwelvePerGeneration | rust/crates/keeper-core/src/lifecycle.rs:183-395 | no generation accepts more than twelve events |
| LifecycleRecord.StateTold | rust/crates/keeper-core/src/lifecycle.rs:183-441 | after any trace every field of the state is what the accepted events say: the last signing of the generation, the slot of its landing, the number of generations and of events, and the outcome of the settling event |
| LifecycleRecord.OutcomeTold | rust/crates/keeper-core/src/lifecycle.rs:202-240 | an outcome is a retryable or terminal failure exactly if a failure of that class settled the attempt, with its reason; skipped exactly if a lost race did, with that race and its reason; executed exactly if a postcondition did, with the last accepted signature, the slot of the landing and the number of new generations |
| LifecycleRecord.RefusedExactly | rust/crates/keeper-core/src/lifecycle.rs:259-384 | after any trace an event is refused with a code exactly for the reasons listed for that code |
| Lifecycle.DialectsAgreeExactly | typescript/packages/keeper-core/src/lifecycle.ts:192-199 | in every state of the shape that both reducers keep, they give the same state or error code exactly unless a due signature has all its metadata and one string of it is empty, or an empty recorded signature is asked for by a landing or the postcondition |
| Lifecycle.TracesAgreeExactly | typescript/packages/keeper-core/src/lifecycle.ts:118-271 | after every event of a trace both reducers have the same state and have accepted the same events, if and only if no signature with an empty string was due when it came |
| Lifecycle.DialectsAgreeOnTraces | typescript/packages/keeper-core/src/lifecycle.ts:118-271 | on every trace with non-empty strings both reducers reach the same state and accept the same events |
| Lifecycle.DialectsAgreeOnErrors | typescript/packages/keeper-core/src/lifecycle.ts:118-271 | and give the next event the same answer, error code included |
| RustReducer.AttemptState.Apply | rust/crates/keeper-core/src/lifecycle.rs:183-189 | an event is applied as the table says or refused with the table's code and every field unchanged |
| RustReducer.AttemptState.Reduce | rust/crates/keeper-core/src/lifecycle.rs:191-257 | the field assignments of each event are those of the table |
| RustReducer.AttemptState.StepDone | rust/crates/keeper-core/src/lifecycle.rs:259-292 | the guards before a step refuse exactly what the table refuses |
| RustReducer.AttemptState.TakeStep | rust/crates/keeper-core/src/lifecycle.rs:293-355 | each step's own checks and assignments are those of the table |
| RustReducer.AttemptState.ExpireBlockhash | rust/crates/keeper-core/src/lifecycle.rs:357-384 | the same for an expired blockhash |
| RustReducer.AttemptState.StartNewSigningGeneration | rust/crates/keeper-core/src/lifecycle.rs:386-395 | a new generation forgets all signing state |
| RustReducer.AttemptState.constructor | rust/crates/keeper-core/src/lifecycle.rs:157-180 | a new attempt awaits discovery with nothing recorded |
| TypeScriptReducer.ApplyLifecycleEvent | typescript/packages/keeper-core/src/lifecycle.ts:118-123 | the copying reducer computes the same table |
| TypeScriptReducer.Reduce | typescript/packages/keeper-core/src/lifecycle.ts:129-174 | the assignments of each event are those of the table |
| TypeScriptReducer.StepDone | typescript/packages/keeper-core/src/lifecycle.ts:176-245 | the guards and assignments of each step are those of the table |
| TransferFees.CreditGrowth | rust/crates/dusk-adapter/src/transfer_fees.rs:16-19 | credit is monotone and grows by at most one per unit, with ceiling and cap |
| TransferFees.CreditCharges | rust/crates/dusk-adapter/src/transfer_fees.rs:16-19 | what is not credited is the rate's share rounded up, or the maximum if that is less |
| TransferFees.ChargesOnce | rust/crates/dusk-adapter/src/transfer_fees.rs:16-19 | and there is only one such credit |
| TransferFees.TsCreditCharges | typescript/packages/dusk-adapter/src/transfer-fees.ts:19-23 | the TypeScript credit takes the same fee |
| TransferFees.TsRefusesExactly | typescript/packages/dusk-adapter/src/transfer-fees.ts:12-26 | the TypeScript reader refuses exactly amounts and then epochs that are no u64, and fees out of range, even one not yet in force |
| TransferFees.AdmissionIsLeastFutureCredit | rust/crates/dusk-adapter/src/transfer_fees.rs:33-54 | the admission credit is the least effective credit of this and all later epochs, and is attained |
| TransferFees.LiquidationIsLeastOfTwoEpochs | rust/crates/dusk-adapter/src/transfer_fees.rs:33-54 | the liquidation credit is the lesser of this epoch's and the next one's |
| TransferFees.EffectiveIsPlainCredit | rust/crates/dusk-adapter/src/transfer_fees.rs:40-54 | the plain credit is the one the chain applies at that epoch |
| TransferFees.ReadersAgree | typescript/packages/dusk-adapter/src/transfer-fees.ts:9-26 | both readers credit the same for every valid schedule and all u64 inputs |
| TransferFees.GrossUp | rust/apps/keeper/src/liquidation/plan.rs:551-563 | the search returns the least u64 gross that credits the net, credits it exactly at the fee in force, and errs exactly when no u64 gross suffices |
| MintFees.WalkExtensions | rust/crates/dusk-adapter/src/transfer_fees.rs:79-105 | the cursor loop computes the walk over the extension area |
| MintFees.DecodeMintFees | rust/crates/dusk-adapter/src/transfer_fees.rs:69-106 | and the whole decoder, with its owner, length and type checks |
| MintFees.WalkReadsExtensions | rust/crates/dusk-adapter/src/transfer_fees.rs:81-104 | for every list of extensions and any zero padding the walk finds what the list says: one well-formed fee config, or why not |
| MintFees.WalkAcceptsOnlyExtensions | typescript/packages/dusk-adapter/src/transfer-fees.ts:31-47 | every accepted area is a list of extensions followed by zeros, and gives that list's verdict |
| MintFees.ZeroAreaIsSkipped | rust/crates/dusk-adapter/src/transfer_fees.rs:82-84 | stopping at an all-zero rest never skips a fee config |
| MintFees.DecodesExactly | rust/crates/dusk-adapter/src/transfer_fees.rs:69-106 | decoding succeeds with a schedule, or with none, exactly for a plain 82-byte mint, which has none, and for an account of the extension program, of the right type and length, whose area is a list of extensions and zeros that says so |
| MintFees.DecodedIsValid | rust/crates/dusk-adapter/src/transfer_fees.rs:56-106 | a schedule that is decoded from an account always has valid rates |
| MintLayout.ConfigIsDecoded | rust/crates/dusk-adapter/src/transfer_fees.rs:69-106 | the one extension of kind 1, wherever it stands, decodes to the fees written in it: 72 bytes, then the older fee, then the newer one |
| MintLayout.ConfigIsRead | rust/crates/dusk-adapter/src/transfer_fees.rs:56-66 | each fee is epoch, maximum and rate in this order, and a rate above 10000 is refused |
| MintLayout.VerdictMeans | rust/crates/dusk-adapter/src/transfer_fees.rs:95-103 | no schedule without an extension of kind 1; a second one, one of another length than 108, and one with a wrong rate are refused |
| MintLayout.RefusedAccounts | rust/crates/dusk-adapter/src/transfer_fees.rs:70-76 | exactly which accounts are no mints and which are no extended mints |
| MintLayout.WalkErrors | rust/crates/dusk-adapter/src/transfer_fees.rs:84-94 | a cut-off header or value comes after extensions that were read, and is shorter than a header or than its header says |
| Base58.Base58Encode | typescript/packages/dusk-adapter/src/resolution.ts:367-384 | the in-place conversion spells every non-empty array as specified, and the empty one as "1" |
| Base58.MultiplyInPlace | typescript/packages/dusk-adapter/src/resolution.ts:370-379 | the carry loops multiply a numeral and add a digit, in place |
| Base58.CarryIsSmall | typescript/packages/dusk-adapter/src/resolution.ts:396-404 | a carry stays below the multiplier and a product below 2^16, so that 32-bit masks and shifts are remainder and quotient |
| Base58.MulAddGrows | typescript/packages/dusk-adapter/src/resolution.ts:396-404 | a pass over the numeral of n leaves the numeral of times*n+digit, without leading zeros |
| Base58.DecodePubkey | typescript/packages/dusk-adapter/src/resolution.ts:386-410 | decodes as specified, or says whether a character or the length is wrong |
| Base58.RequirePubkey | typescript/packages/dusk-adapter/src/envelope.ts:513-540 | refuses exactly the texts decodePubkey refuses, for the same reason |
| Base58.BigIntegerBase58 | typescript/packages/dusk-adapter/src/liquidation.ts:36-50 | the big-integer form spells every array as specified, so the two agree on all non-empty ones |
| Base58.ConvertKeeps | typescript/packages/dusk-adapter/src/resolution.ts:367-384 | changing the base keeps the value and the number of leading zeros |
| Base58.ConvertRoundTrip | typescript/packages/dusk-adapter/src/resolution.ts:367-410 | changing the base and back is the identity on every numeral |
| Base58.DecodeOfEncode | typescript/packages/dusk-adapter/src/resolution.ts:367-410 | decode of encode is the identity on all 32-byte keys |
| Base58.EncodeOfDecode | typescript/packages/dusk-adapter/src/resolution.ts:367-410 | encode of decode is the identity on every accepted text |
| Base58.AcceptedTexts | typescript/packages/dusk-adapter/src/resolution.ts:386-410 | the accepted texts are exactly the texts of 32-byte keys |
| Base58Alphabet.IndexIsDigit | typescript/packages/dusk-adapter/src/resolution.ts:11 | looking a character up in the alphabet gives its digit, or -1 for 0, I, O, l and everything else |
| Base58Alphabet.RefusedTexts | typescript/packages/dusk-adapter/src/resolution.ts:386-410 | a text is refused as no base58 exactly for a character outside the alphabet, and for its length exactly if it has none and spells no 32-byte key |
| CanonicalBytes.CanonicalIsInjective | rust/crates/dusk-adapter/src/envelope.rs:588-607 | two writable envelopes write the same bytes if and only if they are equal in every field except the stored digest |
| CanonicalReader.WrittenIsRead | rust/crates/dusk-adapter/src/envelope.rs:588-679 | a reader that takes the fields off the front in the format's order gives back every envelope that was written, but for the stored digest |
| CanonicalBytes.WritableExactly | rust/crates/dusk-adapter/src/envelope.rs:626-679 | an envelope is written exactly if every text and list has a 32-bit length and all instruction data is hex |
| CanonicalBytes.InstructionPrefix | rust/crates/dusk-adapter/src/envelope.rs:661-679 | a written instruction can be read off the front of whatever follows it |
| CanonicalBytes.HooksPrefix | rust/crates/dusk-adapter/src/envelope.rs:601-604 | hook lists of the same length that write the same bytes are equal |
| CanonicalBytes.ListPrefix | rust/crates/dusk-adapter/src/envelope.rs:670-677 | account lists of the same length can be read off the front |
| CanonicalBytes.AccountPrefix | rust/crates/dusk-adapter/src/envelope.rs:653-659 | so can one account |
| CanonicalBytes.TextPrefix | rust/crates/dusk-adapter/src/envelope.rs:641-645 | so can one length-prefixed string |
| CanonicalBytes.HexIsInjective | rust/crates/dusk-adapter/src/envelope.rs:558-579 | only one accepted hex string decodes to given bytes |
| CanonicalBytes.HexAccepts | rust/crates/dusk-adapter/src/envelope.rs:558-579 | exactly the strings of at least 16 lower-case hex digits, an even number, decode |
| CanonicalBytes.HexSays | rust/crates/dusk-adapter/src/envelope.rs:558-579 | every byte is the two digits at its place, the high one first |
| Bytes.LeByte | rust/crates/dusk-adapter/src/envelope.rs:626-639 | numbers are written with their low byte first |
| CanonicalBytes.DigestIsNotWritten | rust/crates/dusk-adapter/src/envelope.rs:588-607 | the stored digest never influences the bytes |
| RustWriter.EnvelopeParityBytes | rust/crates/dusk-adapter/src/envelope.rs:588-605 | the byte buffer holds the canonical bytes, or the first field that cannot be written decides the error |
| RustWriter.CanonicalWriter.WriteInstruction | rust/crates/dusk-adapter/src/envelope.rs:661-679 | appends an instruction's bytes or reports its first error |
| RustWriter.CanonicalWriter.WriteAccounts | rust/crates/dusk-adapter/src/envelope.rs:670-677 | appends a count and the accounts |
| TypeScriptWriter.EnvelopeParityBytes | typescript/packages/dusk-adapter/src/envelope.ts:622-638 | the joined chunks are the same bytes and errors as in Rust for every slot up to 2^53 - 1, and an error beyond |
| TypeScriptWriter.CanonicalWriter.WriteInstruction | typescript/packages/dusk-adapter/src/envelope.ts:605-615 | appends an instruction's bytes or reports its first error |
| TypeScriptWriter.HexReadersAgree | typescript/packages/dusk-adapter/src/envelope.ts:542-554 | checking the whole string first decodes the same strings to the same bytes |
| DelegatedPayload.EncodeDelegatedClose | typescript/packages/dusk-adapter/src/codec.ts:250-257 | the Borsh writer succeeds exactly for arguments in range and then writes header and payload |
| DelegatedPayload.BorshWriter.Bytes | typescript/packages/dusk-adapter/src/codec.ts:573-582 | appends a u32 length and the bytes, or fails on a longer vector |
| DelegatedPayload.BorshWriter.Unsigned | typescript/packages/dusk-adapter/src/codec.ts:588-605 | appends a little-endian integer or fails outside its range |
| DelegatedPayload.DecodeDelegatedCpiPayload | rust/crates/dusk-adapter/src/envelope.rs:498-513 | the cursor walk computes the same as the TypeScript parser |
| DelegatedPayload.TakeVector | rust/crates/dusk-adapter/src/envelope.rs:515-533 | one vector is read and the cursor moved past it |
| DelegatedPayload.DecodeOfPayload | typescript/packages/dusk-adapter/src/envelope.ts:475-504 | decoding any 19-byte header and payload gives back exactly the two byte vectors and the count |
| DelegatedPayload.EncodedThenDecoded | typescript/packages/dusk-adapter/src/codec.ts:250-257 | what the encoder wrote the parsers read back |
| DelegatedPayload.HeaderSays | typescript/packages/dusk-adapter/src/codec.ts:250-253 | which bytes of the header are the discriminator, the debt asset, the least amount out and the share to close |
| DelegatedPayload.PayloadSays | typescript/packages/dusk-adapter/src/codec.ts:254-256 | each vector stands after its length, the count of accounts last |
| DelegatedPayload.PayloadOfDecode | typescript/packages/dusk-adapter/src/envelope.ts:475-504 | accepted data re-encodes to itself after the header, with no byte ignored |
| DelegatedPayload.AcceptedExactly | typescript/packages/dusk-adapter/src/envelope.ts:475-504 | the accepted data are exactly the headers followed by a payload |
| DelegatedComposition.ValidateComposition | typescript/packages/dusk-adapter/src/envelope.ts:408-460 | accepts exactly the envelopes whose primary data embeds both hooks' data and account count and whose remaining accounts are the hooks' accounts; each error exactly for the first of the checks that fails |
| DelegatedComposition.SplitRecoversHooks | typescript/packages/dusk-adapter/src/envelope.ts:422-447 | splitting the remaining accounts at the embedded count recovers both hooks' accounts |
| DelegatedComposition.DelegatesToFirstHook | rust/crates/dusk-adapter/src/envelope.rs:482-494 | in an accepted envelope the first account named delegated_program has the address of the first hook's program |
| AccountMatch.ValidateAccounts | rust/crates/dusk-adapter/src/envelope.rs:385-441 | the loop decides as the recursive match does, error code included, in both languages |
| AccountMatch.AcceptedIsAllowed | rust/crates/dusk-adapter/src/envelope.rs:385-441 | for every specification an accepted list is the specification with some optional entries dropped |
| AccountFields.AcceptedInFields | rust/crates/dusk-adapter/src/envelope.rs:385-441 | the accounts of an accepted list have, entry by entry, the name and flags asked for and a 32-byte key: the fixed address, or the program id for an entry named program without one |
| AccountFields.RefusedInFields | rust/crates/dusk-adapter/src/envelope.rs:391-438 | a refused list has an entry before which all went well and at which the code fits: what is missing, out of order, no key, of other flags, or of another address |
| AccountMatch.AllowedIsAccepted | typescript/packages/dusk-adapter/src/envelope.ts:353-406 | for an unambiguous specification every such list is accepted |
| AccountMatch.CompetitionLoses | rust/crates/dusk-adapter/src/envelope.rs:391-396 | for any other specification some such list is refused |
| AccountMatch.GreedyIsExactWhen | rust/crates/dusk-adapter/src/envelope.rs:385-441 | accepted lists and allowed lists coincide if and only if the specification is unambiguous (or allows nothing) |
| AccountMatch.DistinctNamesAreExact | rust/crates/dusk-adapter/src/envelope.rs:385-441 | distinct names are enough |
| AccountMatch.RepeatedNameIsMissed | rust/crates/dusk-adapter/src/envelope.rs:391-396 | an optional entry followed by a required one of the same name: an allowed list is refused |
| AccountMatch.LanguagesAgreeWhen | typescript/packages/dusk-adapter/src/envelope.ts:389-397 | the two languages decide every list alike if and only if no entry is pinned to the empty string |
| Scheduling.RunIsConsistent | rust/crates/keeper-core/src/lib.rs:77-119 | after any sequence of operations no key is both pending and in flight, and each candidate is filed under its key and revision |
| Scheduling.NoSecondPop | rust/crates/keeper-core/src/lib.rs:98-119 | after a key was popped or marked, no candidate of it is popped before it was finished |
| Scheduling.AboveIsOutranking | rust/crates/keeper-core/src/lib.rs:26-38 | what ranks higher, in fields: one of seven classes of kinds, listed from the most urgent, then the later slot, and only on equal class and slot the id |
| Scheduling.FresherReplaces | typescript/packages/keeper-core/src/index.ts:54-64 | of the pending candidate's kind, a later slot is accepted and an earlier one superseded |
| Scheduling.OfferAnswered | rust/crates/keeper-core/src/lib.rs:77-96 | which of the four answers an offer gets, in the candidate's fields |
| Scheduling.PoppedIsMostUrgent | rust/crates/keeper-core/src/lib.rs:98-107 | nothing left pending is of a more urgent class than a popped candidate, or of its class and later, or of its class and slot with a greater id |
| Scheduling.PendingIsBestOffer | rust/crates/keeper-core/src/lib.rs:77-96 | a key is pending exactly if something was offered since it was last taken, and holds the first of the highest-ranked offers, in the order of AboveIsOutranking |
| Scheduling.DrainIgnoresArrival | typescript/packages/keeper-core/src/index.ts:54-101 | any permutation of candidates that both languages tell apart and rank alike, drained in either language, comes out as the same strictly descending list of winners |
| Scheduling.SameCallsSameAnswers | typescript/packages/keeper-core/src/index.ts:54-101 | two schedulers that may pop any of equal candidates give the same answers to the same calls if they tell the offered candidates apart and rank them alike |
| SchedulerRuns.SchedulersAgreeExactly | rust/crates/keeper-core/src/lib.rs:98-107 | over a pool of candidates the Rust and the TypeScript scheduler answer all sequences of calls alike, if and only if under one key they replace alike and of every two candidates under two keys TypeScript ranks the one higher that Rust pops first |
| SchedulerRuns.AlikeAgree | typescript/packages/keeper-core/src/index.ts:54-101 | for such candidates any two runs with the same calls are equal |
| SchedulerRuns.PopsDiffer | typescript/packages/keeper-core/src/index.ts:66-76 | for any two others under two keys, offering both and popping once tells the schedulers apart |
| SchedulerRuns.ReplacementDiffers | typescript/packages/keeper-core/src/index.ts:54-64 | and so does offering both under one key |
| SchedulerRuns.RepeatedIdDiffers | rust/crates/keeper-core/src/lib.rs:126-132 | two candidates of one id, kind and slot under two keys are popped in different orders |
| SchedulerRuns.DistinctIdsAreAlike | typescript/packages/keeper-core/src/index.ts:92-101 | ids of their own, ordered alike by both languages, are enough |
| SchedulerRuns.KeysByArrival | typescript/packages/keeper-core/src/index.ts:54-64 | the insertion order is the order in which the keys' present offers began |
| Scheduling.EnqueuedWinners | rust/crates/keeper-core/src/lib.rs:77-96 | what is pending after any enqueues beats every other candidate of its key |
| Scheduling.DrainSorts | rust/crates/keeper-core/src/lib.rs:98-107 | popping until empty yields strictly descending ranks, in the order of AboveIsOutranking |
| RustScheduler.Scheduler.Enqueue | rust/crates/keeper-core/src/lib.rs:77-96 | the answer is that of the candidate's fields and the new state that of the specification |
| RustScheduler.Scheduler.PopNext | rust/crates/keeper-core/src/lib.rs:98-107 | pops a candidate of the most urgent class and latest slot, of equals the one with the last key, and locks its key |
| RustScheduler.Scheduler.MarkInFlight | rust/crates/keeper-core/src/lib.rs:111-115 | drops what is pending for a key and locks it |
| RustScheduler.Scheduler.Finish | rust/crates/keeper-core/src/lib.rs:117-119 | unlocks a key and says whether it was locked |
| RustScheduler.MaxBy | rust/crates/keeper-core/src/lib.rs:99-103 | walking the map in key order selects the last of the highest candidates |
| TypeScriptScheduler.Scheduler.Enqueue | typescript/packages/keeper-core/src/index.ts:54-64 | the answer is that of the candidate's fields and the new state that of the specification, a replaced candidate keeping its place |
| TypeScriptScheduler.Scheduler.PopNext | typescript/packages/keeper-core/src/index.ts:66-76 | pops a candidate of the most urgent class and latest slot, of equals the one inserted first, locks its key and keeps the order of the others |
| TypeScriptScheduler.SelectFirst | typescript/packages/keeper-core/src/index.ts:67-71 | only a strictly higher candidate replaces the selected one |

## Left out

- RPC transport and retries, JSON and base64 decoding, HTTP, environment configuration and the polling loop: foreign I/O. A failed call is a step or a None.
- PostgreSQL itself: a transaction is atomic, and a lost reply may or may not have been committed. The partial unique index on pending rows is not used; the lock alone gives one pending row per key.
- SHA-256, Ed25519 and hash collisions: a work key is an opaque string, a signature an arbitrary one chosen when signing, a lock id an arbitrary function of its key. What is proved is injectivity of the hashed bytes, not of the hash.
- Evidence columns, market, action and state hash of a journal row: never read back.
- created_at order within the work list: the list is any 100 pending rows of the revision.
- JournalPass.Recover: states its whole-pass accounting for a process that runs alone; interleaving with other processes is the step relation's business. A report is a row and its outcome; the position and signature the source returns with it are that row's.
- JournalRecovery.Reconcile: assumes, as the step relation proves, that the row it re-reads satisfies the row invariant. Its facts are those of the step relation, but that a call's effect is a sequence of its steps is not stated.
- The evaluator of the profit search is a function of the amount: no amount is evaluated twice, so a stateful one looks like one.
- Lifecycle.ReachableShape: event_sequence and signing_generation are unbounded; `CountersFit` says how long the Rust counters hold, what they do after that is not modelled.
- The fields schemaVersion, createdAt and updatedAt of an attempt: constants or never assigned by the reducers.
- TransferFees.GrossUp: the instruction built around the result is not modelled.
- The TypeScript mint reader has the same walk as the Rust one with fewer distinct error texts; both are the one `MintFees.Walk`.
- Base58.Decode: Rust's `require_pubkey` calls the bs58 crate, which is not part of this model; account matching uses the same decoding for both languages.
- CanonicalBytes.CanonicalIsInjective: strings are their UTF-8 bytes, so two JavaScript strings that differ only in unpaired surrogates count as one; actions, job kinds and program names are their serialized names.
- TypeScriptWriter.EnvelopeParityBytes: slots are taken from u64, so the negative, fractional and non-numeric values a JavaScript caller could pass are left out.
- DelegatedComposition.ValidateComposition: follows TypeScript where delegated_program is missing; Rust relies there on an earlier check and would panic.
- SchedulerRuns.SchedulersAgreeExactly: string order is an arbitrary ranking per language; when byte order and localeCompare agree on given ids is not part of this model.
- Decimal u64 strings, argument parsing by instruction, `findProgramAddress`, curve membership, liquidation planning and job orchestration: tables and single branches, or dominated by live snapshots.
- Workers, transaction assembly and the on-chain program are not part of this model.
