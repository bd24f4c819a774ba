# Verified models of ACASH drivers

ACASH is a research platform whose driver scripts hold its protocols: one-shot dispatch, chained
evidence, resumable ledgers, paginated loaders and the compilers from signals to trades. This project
models those drivers in Dafny and proves what they promise over all inputs, all runs and all
interleavings. Each module follows one driver and the library code it calls.

- **Prospective shadow runner** (`NyseCalendar`, `ShadowChain`, `ShadowRunner`, `ShadowGates`,
  `ShadowSafety`, `ShadowProgress`, `ShadowSerial`, `ShadowRaces`, `ShadowMain`): invocations interleave
  file operation by file operation and may crash anywhere. `ShadowSafety` has what every interleaving
  keeps, `ShadowSerial` what holds without proviso when invocations do not overlap, `ShadowRaces` what
  overlapping ones can do to each other and exactly when. `ShadowMain` is the script's own imperative form.
- **Signal-to-schedule compiler** (`Hyp009Signals`, `Hyp009Schedule`, `Hyp009Portfolio`, `Hyp009Equity`):
  stitched averages, two schedule encodings with one meaning, causality, and a whole-share simulation that
  conserves every dollar and whose curve is determined by bars, dividends and trades.
- **Single-use canary** (`CanaryClaims`, `CanaryDriver`): processes racing through four exclusive
  creations; safety, request budgets and progress.
- **Soak harness** (`SoakLedger`, `SoakHarness`): a pulse loop over a chained ledger, with crashes inside
  writes.
- **Page loaders** (`PageNames`, `PageChain`, `PageFetch`, `CachedPages`): token-linked pages, exact acceptance,
  round trips and termination.
- **Series, census and ranking** (`SeriesQualification`, `CensusTrial`, `Ranking`).

Money and prices are exact reals, days are proleptic Gregorian ordinals, instants are integers. A SHA-256
digest is modelled by the value it covers, which excludes collisions and nothing else.

Where the code and its documentation differ, the model follows the code:

- `append_observation` is called atomic, but it replaces two files in turn. A crash between them blocks the
  state directory for good (`ShadowProgress.CrashBetweenFilesBlocks`), unless another invocation had
  already found the file absent: that one can still heal it (`ShadowRaces.AnotherWriterHeals`).
- Contiguity of the stored sessions is promised of every state document. It holds of every document when
  invocations do not overlap (`ShadowSerial.SerialStateIsContiguous`) and of every document that passes
  the chain check when they do (`ShadowSafety.ReachableSessionsAreContiguous`), but overlapping invocations
  of different segments can write a document with any two sessions in it
  (`ShadowRaces.OverlapBreaksContiguity`), since a merge appends to whatever document it finds
  (`ShadowRaces.MergeIsContiguousExactly`).
- Single use holds per ledger key, and the key contains the authority file: one session can be fetched
  once per authority (`ShadowRaces.OneSessionCanBeFetchedTwice`).
- The already-processed exit is never taken by an invocation on its own: it is reached exactly when another
  invocation writes the target's file between the chain check and the file test
  (`ShadowRaces.SkipsExactly`, `ShadowRaces.SkipIsReachable`).
- A first session without a segment is always refused when an authority file is supplied
  (`ShadowGates.DispatchExactly`).
- The registered minimums of 504 sessions and two rebalances cannot be met on the ratified calendar.
- The paginated fetch verifies every prefix as if it were complete, so only single-page answers can be
  fetched (`PageFetch.Fetch`).
- Sealing enumerates names that are numbered with two digits in name order, so it refuses every chain of a
  hundred pages or more (`PageFetch.SealExactly`).
- After a soak run a restart is accepted exactly when the run appended nothing, or the ledger it found ended
  in a newline and at most the newline of its own last line was lost; a torn line is never accepted, a torn
  snapshot only while the ledger is empty (`SoakLedger.SessionIsRecoverable`). The run after a lost newline
  then spoils the ledger (`SoakLedger.LostNewlineSpoilsTheLedger`).

Check the project with `dafny verify dfyconfig.toml`.

## Model

| member | source | states |
|---|---|---|
| NyseCalendar.YearIsUnique | scripts/process_hyp_011_prospective_shadow.py:749-758 | The Gregorian year the runner compares is the only year whose days contain the ordinal. |
| NyseCalendar.YearStep | scripts/process_hyp_011_prospective_shadow.py:130-138 | Years never decrease along days, and days at most 365 apart lie in the same or adjacent years: a 14-day search cannot skip a calendar year. |
| NyseCalendar.YearLength | scripts/process_hyp_011_prospective_shadow.py:749-758 | Day 1 opens year 1 and a year has 366 days exactly when it is a Gregorian leap year. |
| NyseCalendar.TradingDays | src/acash/data/calendar/nyse_ca1.py:454-467 | Counting from Monday, 28 September 2026, what trades are the non-holidays among the first five of every seven days. |
| NyseCalendar.FirstSession | src/acash/research/hyp_011/shadow.py:302-315 | A found session is a session inside the searched days with no session before it among them. |
| NyseCalendar.SearchExactly | src/acash/research/hyp_011/shadow.py:302-315 | If and only if: a session is found exactly when the first day asked about is covered and some searched day is a session, and the search is exhausted exactly when every searched day is covered and none trades. |
| NyseCalendar.NextExactly | scripts/process_hyp_011_prospective_shadow.py:134-138 | After a session the search finds one if and only if one of the searched days is a session. |
| NyseCalendar.LocalHours | src/acash/data/calendar/nyse_ca1.py:508-522 | In New York a session opens at 09:30 and closes at 16:00, or 13:00 on early closes, and its data become accessible fifteen minutes later. |
| NyseCalendar.LongerSearchAgrees | src/acash/research/hyp_011/shadow.py:302-315 | A longer search (30 days, freshness) finds the day a successful shorter one (14 days, target) finds. |
| NyseCalendar.WindowsAreOrdered | src/acash/data/calendar/nyse_ca1.py:508-522 | Open, close and eligibility of a session are ordered, and a session is eligible before any later one opens. |
| ShadowChain.WindowExactly | scripts/process_hyp_011_prospective_shadow.py:625-646 | If and only if: an instant is in a session's window exactly when fifteen minutes past its close are over, no later session has opened and one of the next thirty days is a session. |
| ShadowChain.RegisteredDates | src/acash/research/hyp_011/shadow.py:374-377 | The excluded dates: 1 January 2025 to 14 August 2026, and 15 August to 24 September 2026. |
| ShadowChain.WindowsAreDisjoint | scripts/process_hyp_011_prospective_shadow.py:625-646 | No instant accepts two sessions; acceptance windows are ordered like the sessions. |
| ShadowChain.ObservedSessionsAreContiguous | scripts/process_hyp_011_prospective_shadow.py:125-138 | The sessions of a good chain are exactly the calendar's sessions from the first to the last: no gap, duplicate or backfill. |
| ShadowChain.HistoryAt | scripts/process_hyp_011_prospective_shadow.py:391-392 | Every prefix of a good chain is a good chain and each ordinal is its position. |
| ShadowChain.ProcessingTimesIncrease | scripts/process_hyp_011_prospective_shadow.py:625-646 | Processing times of a chain strictly increase with no assumption on the clock. |
| ShadowChain.TransactionByYear | scripts/process_hyp_011_prospective_shadow.py:749-758 | On increasing sessions the any-year-seen test reduces to comparing with the last session's year. |
| ShadowChain.RebalanceIsYearChange | scripts/process_hyp_011_prospective_shadow.py:749-758 | A rebalance is scheduled exactly when the year differs from the previous session's, and then by one. |
| ShadowChain.RebalancesCountYears | scripts/process_hyp_011_prospective_shadow.py:837-840 | The accumulated counter equals the year of the last observation minus the year of the first. |
| ShadowChain.OneRebalancePerYear | scripts/process_hyp_011_prospective_shadow.py:749-758 | Each year after the first has exactly one rebalance, on the first session observed in it. |
| ShadowChain.InitialAllocationComesFirst | scripts/process_hyp_011_prospective_shadow.py:749-751 | The initial allocation is the transaction of the first observation and of no other. |
| ShadowChain.MinimumsUnreachableOnRatifiedCalendar | src/acash/research/hyp_011/shadow.py:389-393 | With the calendar ending in 2026, a chain starting after the scientific boundary has no rebalance and at most 98 observations, so the registered minimums never hold. |
| ShadowChain.ContinuityExactly | scripts/process_hyp_011_prospective_shadow.py:103-122 | If and only if: which answer the comparison gives for every pair of tables; with a baseline it accepts exactly the positive prices whose raw/split ratio is within one millionth of the stored one. |
| ShadowChain.ScaledPricesAreKept | scripts/process_hyp_011_prospective_shadow.py:114-122 | An ordinary price move, scaling raw and split alike by any factor, is always accepted. |
| ShadowChain.OneStepDrift | scripts/process_hyp_011_prospective_shadow.py:91-122 | An accepted step keeps the raw/split ratio within one millionth of the previous observation's. |
| ShadowChain.RunDrift | scripts/process_hyp_011_prospective_shadow.py:91-122 | Along any accepted run the k-th ratio is within (1-1e-6)^k and (1+1e-6)^k of the first. |
| ShadowChain.RatioIsPositive | scripts/process_hyp_011_prospective_shadow.py:723-735 | Every ratio of a good chain is positive. |
| ShadowChain.SplitDriftIsBounded | scripts/process_hyp_011_prospective_shadow.py:841-844 | The same bounds for every symbol along every good chain. |
| ShadowChain.NoHistoryBranchOnlyAtSessionOne | scripts/process_hyp_011_prospective_shadow.py:723-735 | The branch without a baseline is taken at session one and only there. |
| ShadowGates.VerifiedMeaning | src/acash/research/hyp_011/shadow_ops.py:645-812 | A verified document is the one on disk, has the expected activation, segment and recovery authority, and lists exactly the observation files. |
| ShadowGates.VerifiesExactly | src/acash/research/hyp_011/shadow_ops.py:645-812 | If and only if: which directories pass the chain check, file by file: identity, increasing sessions, exactly their files, each naming the one before and carrying the binding, and matching totals. |
| ShadowGates.DispatchMeaning | scripts/process_hyp_011_prospective_shadow.py:384-646 | A dispatched invocation stands on a verified chain and its only next session, in that session's window, with a ledger key not used before. |
| ShadowGates.DispatchExactly | scripts/process_hyp_011_prospective_shadow.py:384-655 | If and only if: which arguments, clock and directory reach the network. |
| ShadowGates.ActivationExactly | scripts/process_hyp_011_prospective_shadow.py:357-383 | If and only if: which activation session an invocation works for. |
| ShadowGates.KeysAgree | scripts/process_hyp_011_prospective_shadow.py:472-484 | Two attempts share a ledger key exactly when authority file, token, ordinal, attempt and target agree. |
| ShadowGates.ClockDecides | scripts/process_hyp_011_prospective_shadow.py:618-655 | How the clock decides about an admissible target: stale after the next open, incomplete up to the close, not yet accessible for fifteen minutes more, then dispatched. |
| ShadowGates.PreflightAgrees | scripts/process_hyp_011_prospective_shadow.py:647-655 | A preflight passes if and only if the same invocation would be dispatched. |
| ShadowGates.QualifiesExactly | scripts/process_hyp_011_prospective_shadow.py:723-760 | If and only if: a response is committed exactly when it is whole, no step raised and every ratio is the stored one to within a millionth, if any is stored; prices may move at will. |
| ShadowGates.UndisturbedNeverSkips | scripts/process_hyp_011_prospective_shadow.py:486-490 | An invocation whose directory nobody writes to never takes the already-processed exit. |
| ShadowGates.OrphanBlocks | src/acash/research/hyp_011/shadow_ops.py:645-812 | An observation file the document does not list blocks every invocation. |
| ShadowGates.StageBNeedsRecovery | src/acash/research/hyp_011/shadow.py:234-243 | The Stage-B activation session can never be dispatched without a recovery binding. |
| ShadowSafety.VerifiedIsChain | src/acash/research/hyp_011/shadow_ops.py:733-812 | The verified session list is the chain of the last observation. |
| ShadowSafety.QualifiedExtendsChain | scripts/process_hyp_011_prospective_shadow.py:723-760 | What qualification commits extends the chain it was cleared on. |
| ShadowSafety.StepKeepsLineage | scripts/process_hyp_011_prospective_shadow.py:657-850 | Every step of every interleaving, crashes included, keeps the lineage invariant. |
| ShadowSafety.RunKeepsLineage | scripts/process_hyp_011_prospective_shadow.py:657-850 | Every interleaving of invocations and crashes keeps it. |
| ShadowSafety.ReachableSessionsAreContiguous | scripts/process_hyp_011_prospective_shadow.py:125-138 | Under any races and crashes: whenever the chain check passes, the observed sessions are exactly the consecutive sessions from the activation session. |
| ShadowSafety.ReachableCounterCountsYears | scripts/process_hyp_011_prospective_shadow.py:837-840 | Under any races and crashes: whenever the chain check passes, the counter equals the difference of years. |
| ShadowSafety.ReachableFilesAreOrdered | scripts/process_hyp_011_prospective_shadow.py:467-490 | Under any races and crashes: whenever the chain check passes, ordinals are positions and processing times strictly increase. |
| ShadowSafety.RunKeepsAtMostOnce | src/acash/research/hyp_011/shadow_authority.py:369-401 | Every interleaving keeps: each key consumed at most once, fetched at most once, fetched only after its own consume. |
| ShadowSafety.OneFetchPerKey | scripts/process_hyp_011_prospective_shadow.py:657-687 | The same for every reachable event log, with the attempt value as passed. |
| ShadowProgress.ExecuteIsARun | scripts/process_hyp_011_prospective_shadow.py:384-850 | The sequential live path is one schedule of the interleaved system, with the same directory and events. |
| ShadowProgress.StuckNeverDispatches | src/acash/research/hyp_011/shadow.py:318-342 | A stale target or an orphan file refuses every later invocation. |
| ShadowProgress.StuckForever | scripts/process_hyp_011_prospective_shadow.py:130-138 | Once stuck, and with no invocation in flight that this directory will clear, no run of later invocations changes it or fetches anything. |
| ShadowProgress.CrashBetweenFilesBlocks | src/acash/research/hyp_011/shadow_ops.py:334-405 | A crash between the observation file and the state document blocks every later invocation for good, unless another one is already past reading the directory. |
| ShadowProgress.BetweenFilesIsReached | src/acash/research/hyp_011/shadow_ops.py:334-405 | Every dispatched invocation whose data qualify passes that point. |
| ShadowSerial.WalkOneMore | src/acash/research/hyp_011/shadow_ops.py:733-757 | One more file, linked to the last one, is walked like the others. |
| ShadowSerial.CommitKeepsVerified | src/acash/research/hyp_011/shadow_ops.py:307-405 | A finished commit that continues a verified directory leaves one that verifies again, one session longer. |
| ShadowSerial.DispatchContinues | scripts/process_hyp_011_prospective_shadow.py:657-850 | Every commit of an undisturbed invocation continues the directory it was decided on. |
| ShadowSerial.AttemptSettles | scripts/process_hyp_011_prospective_shadow.py:384-850 | One attempt, crashing anywhere, leaves a directory that verifies if and only if it verified before and the attempt did not die between its two files. |
| ShadowSerial.SerialStateIsContiguous | src/acash/research/hyp_011/shadow_ops.py:307-405 | Main result without overlap: after any invocations one after another with crashes anywhere the state document lists exactly the consecutive sessions and counts their years, whatever the chain check says; and the check passes if and only if no attempt died between its two files. |
| ShadowSerial.SerialIsReached | scripts/process_hyp_011_prospective_shadow.py:384-850 | Every such schedule is a run of the interleaved system. |
| ShadowSerial.FreshTargetCommits | scripts/process_hyp_011_prospective_shadow.py:384-850 | Inside the window of the expected session an unused authority always gets that session committed, and the directory verifies again. |
| ShadowSerial.EveryTimetableIsObserved | scripts/process_hyp_011_prospective_shadow.py:125-138 | Any list of consecutive sessions with a clock reading in each window, and any markets whose ratios are kept, are observed by some schedule: the verified case is inhabited at every length. |
| ShadowSerial.RecoveryCommits | scripts/process_hyp_011_prospective_shadow.py:384-850 | Under a Stage-C binding too the expected session is always committed; the document and the new file then carry the binding. |
| ShadowSerial.MinimumsAreUnreachable | src/acash/research/hyp_011/shadow.py:389-393 | No reachable verified directory satisfies the registered minimums on the 2026 calendar. |
| ShadowRaces.CheckedTargetIsAbsent | src/acash/research/hyp_011/shadow_ops.py:645-812 | When the chain check passes the target's file is absent. |
| ShadowRaces.SkipsExactly | scripts/process_hyp_011_prospective_shadow.py:486-490 | If and only if: an invocation whose target's file was absent exits as already processed exactly when some invocation wrote that file before its file test; the exit changes neither directory nor ledger. |
| ShadowRaces.SkipIsReachable | scripts/process_hyp_011_prospective_shadow.py:486-490 | A run that takes the exit: key unused, file present, state document not yet written. |
| ShadowRaces.MergeIsContiguousExactly | src/acash/research/hyp_011/shadow_ops.py:362-405 | If and only if, in every reachable state: a merge leaves a contiguous state document exactly when the document it reads again lists the sessions its commit was qualified after. |
| ShadowRaces.OverlapBreaksContiguity | src/acash/research/hyp_011/shadow_ops.py:362-405 | Two overlapping first invocations of different segments leave both sessions in the state document, in either order and however far apart; it then verifies for nobody. |
| ShadowRaces.AnotherWriterHeals | src/acash/research/hyp_011/shadow_ops.py:334-405 | A directory left between the two files heals when an invocation already past the file test commits the same session. |
| ShadowRaces.FilesStay | src/acash/research/hyp_011/shadow_ops.py:322-338 | An observation file never changes again, whatever follows, once it is present with nobody between the file test and the write. |
| ShadowRaces.MergesAreCareful | src/acash/research/hyp_011/shadow_ops.py:362-405 | A merge never replaces one recovery authority by another and never lists a session twice. |
| ShadowRaces.OneSessionCanBeFetchedTwice | scripts/process_hyp_011_prospective_shadow.py:472-484 | Single use is per ledger key, not per session: two authorities fetch one session twice. |
| ShadowMain.SearchSession | src/acash/research/hyp_011/shadow.py:302-315 | The cursor loop computes the first session of the searched days, and finds one if and only if there is one and the first day is covered. |
| ShadowMain.ExpectedNext | scripts/process_hyp_011_prospective_shadow.py:125-138 | The target is the activation session, then the next session within fourteen days with none skipped, found if and only if there is one. |
| ShadowMain.WalkFiles | src/acash/research/hyp_011/shadow_ops.py:734-748 | The hash-link loop, against its recursive definition. |
| ShadowMain.SplitSection | scripts/process_hyp_011_prospective_shadow.py:723-735 | The per-symbol loop accepts exactly when there is no baseline or all three ratios are kept, in reals. |
| ShadowMain.BuildCommit | scripts/process_hyp_011_prospective_shadow.py:723-850 | Qualification of the six series: exactly which responses give a commit, and the observation and counter it holds. |
| ShadowMain.StateDirectory.VerifyChainOnDisk | src/acash/research/hyp_011/shadow_ops.py:645-812 | The chain check of a directory: identity, links, bindings and file set, in script order. |
| ShadowMain.StateDirectory.ConsumeDispatchAttempt | src/acash/research/hyp_011/shadow_authority.py:369-401 | Create-once: succeeds exactly when the key is new and then adds only it. |
| ShadowMain.StateDirectory.AppendObservation | src/acash/research/hyp_011/shadow_ops.py:307-405 | Observation file first, then the state document; exactly when it succeeds, and that a later refusal leaves the file behind. |
| ShadowMain.StateDirectory.Preflight | scripts/process_hyp_011_prospective_shadow.py:276-646 | The preflight of an undisturbed directory decides exactly as the specification and changes nothing. |
| ShadowMain.StateDirectory.RunMain | scripts/process_hyp_011_prospective_shadow.py:276-850 | One undisturbed invocation: a stopped one leaves the directory untouched, a failed one only burns its key, a sealed one appends exactly its target and the directory verifies. |
| Hyp009Signals.TenLevels | src/acash/research/hyp_009/signals.py:84-90 | Ten times the average is the sum of a level and the nine before it. |
| Hyp009Signals.FirstPartitionSignal | src/acash/research/hyp_009/signals.py:68-102 | Each first-partition signal: its own date and level, LONG exactly above the average, the state before it, a transition exactly on a change. |
| Hyp009Signals.ComputeSignalStates | src/acash/research/hyp_009/signals.py:68-102 | The first-partition loop computes the chained signals, or refuses fewer than ten month-ends. |
| Hyp009Signals.StitchedSignals | scripts/execute_hyp_009_r2_m2.py:222-255 | The second-partition loop computes the chained signals of the stitched series. |
| Hyp009Signals.StitchedSignalIsNaive | scripts/execute_hyp_009_r2_m2.py:222-255 | The stitched signal at month i is the naive ten-level average's over the whole history. |
| Hyp009Signals.StitchingAgreesWithOneRun | scripts/execute_hyp_009_r2_m2.py:232-238 | One run over the whole history gives the same later signals if and only if its state at the boundary is the frozen LONG. |
| Hyp009Signals.SignalsAreCausal | scripts/execute_hyp_009_r2_m2.py:238-255 | Levels agreeing through month i give identical signals through i. |
| Hyp009Schedule.MonthEndsAreSessions | src/acash/research/hyp_009/partitions.py:49-63 | Month-ends are increasing sessions, ending with the last session. |
| Hyp009Schedule.MonthEndsIncrease | src/acash/research/hyp_009/partitions.py:49-63 | Month-ends have strictly increasing months. |
| Hyp009Schedule.EverySessionHasAMonthEnd | src/acash/research/hyp_009/partitions.py:49-63 | Every session has a month-end of its month that is not before it. |
| Hyp009Schedule.NextSession | src/acash/research/hyp_009/signals.py:118-124 | The search loop finds the first session strictly after a decision. |
| Hyp009Schedule.NextIndexIsMonotone | src/acash/research/hyp_009/signals.py:118-124 | Later decisions on sessions execute strictly later. |
| Hyp009Schedule.TransitionSchedule | scripts/execute_hyp_009_r2_m2.py:258-274 | The transition-only compiler with the injected LONG; it stops exactly when no session follows the frozen decision. |
| Hyp009Schedule.EverySignalSchedule | scripts/execute_hyp_009_r2_m1.py:262-292 | The every-signal compiler; it stops exactly when a signal not decided on the partition end has no next session. |
| Hyp009Schedule.LastSignalIsHeld | scripts/execute_hyp_009_r2_m2.py:258-274 | Either encoding holds, after its last execution, the state of the last signal. |
| Hyp009Schedule.EncodingsDriveTheSamePositions | scripts/execute_hyp_009_r2_m2.py:258-274 | Main result: both encodings give the same position at every session. |
| Hyp009Schedule.EntriesAreNeverOverwritten | scripts/execute_hyp_009_r2_m2.py:265-274 | Every kept runnable signal is found at its own execution with its own state and decision. |
| Hyp009Schedule.EveryEntryIsBound | scripts/execute_hyp_009_r2_m2.py:265-274 | Every entry executes at the first session after its own decision, which is the frozen one or a kept signal's. |
| Hyp009Schedule.OnlyTheLastSessionPends | scripts/execute_hyp_009_r2_m2.py:270-275 | Nothing is pending but a kept signal decided on the last session. |
| Hyp009Schedule.ScheduleIsCausal | scripts/execute_hyp_009_r2_m2.py:265-274 | Entries up to the execution of decision i come from the first i+1 signals. |
| Hyp009Portfolio.RunPortfolio | src/acash/research/hyp_009/accounting.py:160-334 | The simulation method computes the specified book or refusal. |
| Hyp009Portfolio.RunSession | src/acash/research/hyp_009/accounting.py:196-326 | One pass of the loop body. |
| Hyp009Portfolio.Entitle | src/acash/research/hyp_009/accounting.py:204-208 | Shares held at the previous close own the ex-dates of the session. |
| Hyp009Portfolio.Settle | src/acash/research/hyp_009/accounting.py:211-218 | Everything payable on or before the session becomes cash, the rest stays owed. |
| Hyp009Portfolio.BookBalances | src/acash/research/hyp_009/accounting.py:196-334 | Conservation over any run: cash plus receivables equals the start plus dividends less what trades spent; trades alternate and each sale sells the preceding buy. |
| Hyp009Portfolio.BuyIsAffordable | src/acash/research/hyp_009/accounting.py:227-241 | A buy succeeds exactly when one share is affordable; the two later cash checks never fire; less than one fill price is left. |
| Hyp009Portfolio.FillsAreAdverse | src/acash/research/hyp_009/accounting.py:90-99 | Slippage costs a buy and a sale at one open the same non-negative amount per share, the open times the basis points. |
| Hyp009Portfolio.TradesAreExecuted | src/acash/research/hyp_009/accounting.py:220-298 | Every trade is priced at its session's open with slippage, for the whole position, one per session, in session order. |
| Hyp009Portfolio.CurveIsRecorded | src/acash/research/hyp_009/accounting.py:300-326 | At every session the curve holds the value of everything, the return against the record before, and the drawdown from the highest value so far. |
| Hyp009Equity.EquityIsDetermined | src/acash/research/hyp_009/accounting.py:200-326 | Main result: at every session of any run the record holds the session's own close, the shares bought less sold, the dividends owned at the close before their ex-date and not yet payable, and the cash left of the balance, the dividends paid and the trades. |
| Hyp009Equity.EntitledIsFresh | src/acash/research/hyp_009/accounting.py:204-208 | The entitlements of a session are the amounts of its ex-dates for the shares of the previous close. |
| Hyp009Portfolio.PortfolioExactly | src/acash/research/hyp_009/accounting.py:172-182 | Which session lists, balances and dividends are refused before the first session, and that every other run is the simulation. |
| Hyp009Portfolio.FeesAreReported | src/acash/research/hyp_009/accounting.py:266-297 | The fees a run reports are those of its trades. |
| Hyp009Portfolio.DayExactly | src/acash/research/hyp_009/accounting.py:196-315 | If and only if: a session goes through exactly when it has positive prices, its trade can be made and the value before it is positive. |
| Hyp009Portfolio.BookFollowsSchedule | src/acash/research/hyp_009/accounting.py:220-298 | The simulated state is the position the schedule drives. |
| Hyp009Portfolio.OnlyPositionsMatter | src/acash/research/hyp_009/accounting.py:221-225 | Schedules driving the same positions give the same whole result, refusals included. |
| Hyp009Portfolio.EncodingsTradeAlike | scripts/execute_hyp_009_r2_m2.py:258-296 | Main result: over month-ends of any session list both encodings give one and the same portfolio result. |
| Hyp009Portfolio.NoLookAhead | scripts/execute_hyp_009_r2_m2.py:238-296 | Levels after month i change nothing of the run through the execution of decision i. |
| Hyp009Portfolio.BindDecisions | scripts/execute_hyp_009_r2_m2.py:304-321 | The trade list is overwritten in place: each trade keeps its record and gets the decision of its session, if any. |
| Hyp009Portfolio.EveryTradeIsBound | scripts/execute_hyp_009_r2_m2.py:304-321 | Every trade of a compiled schedule has a decision: its session is the first one after it, and the decision is the frozen one or a kept signal's. |
| CanaryClaims.RunKeepsInvariant | scripts/ri01_canary_single_use.py:96-104 | In every interleaving with crashes the files on disk are exactly the claims held, and every request is counted and in its window. |
| CanaryClaims.AtMostOneReachesHttp | scripts/ri01_canary_single_use.py:96-104 | Two processes that issued a request have different roots, and in a shared claims directory different ids and authorities. |
| CanaryClaims.RootBudget | scripts/ri01_canary_single_use.py:44-47 | Of any four requests one did not go to a given evidence root; each has its own clock reading within its authority's scope and validity. |
| CanaryClaims.BeginExactly | scripts/ri01_canary_single_use.py:53-95 | If and only if: a process may start claiming exactly when its authority is in scope and valid, its evidence root is not its claims directory and no file lies in it. |
| CanaryClaims.RecheckExactly | scripts/ri01_canary_single_use.py:105-115 | If and only if: a holder of all four claims goes on to fetch exactly when its authority is valid on a second reading. |
| CanaryClaims.RequestExactly | src/acash/research/ri01/probe.py:610-650 | If and only if: a request leaves exactly when fewer than three were issued and the authority is valid on the reading taken for it. |
| CanaryClaims.BlockerIsAhead | scripts/ri01_canary_single_use.py:96-104 | Whoever blocks a process holds strictly more claims than it. |
| CanaryClaims.ContendersCannotAllBlock | scripts/ri01_canary_single_use.py:96-104 | Progress: when every process has stopped, none crashed and one was validated, one holds all four claims. |
| CanaryClaims.WhoCanBlock | scripts/ri01_canary_single_use.py:96-104 | The hash claim never refuses anyone; the start file refuses only a process of another claims directory. |
| CanaryClaims.CrashSpendsTheAuthority | scripts/ri01_canary_single_use.py:96-104 | A crash after the first claim spends the authority id in that directory for good. |
| CanaryDriver.EvidenceDisk.CreateExclusive | src/acash/evidence/writer.py:38-48 | Exclusive creation succeeds exactly when the file is new and never alters an existing one. |
| CanaryDriver.DispatchWindowTransport.HandleRequest | scripts/ri01_canary_single_use.py:44-47 | A request passes exactly when the authority is in scope and the clock, read for it, lies in its validity. |
| CanaryDriver.Reserve | scripts/ri01_canary_single_use.py:101-104 | The four writes stop at the first taken file, without rollback. |
| CanaryDriver.FetchPages | src/acash/research/ri01/probe.py:610-782 | The page loop: every request at its own in-window reading, every answer but the last goes on, and which of the seven endings it is. |
| CanaryDriver.ExecuteOnce | scripts/ri01_canary_single_use.py:53-125 | One operation: exactly when it is refused, what it creates, and the retrieval it makes. |
| CanaryDriver.SoloAgreesWithDriver | scripts/ri01_canary_single_use.py:101-104 | The driver alone leaves the files and claims of a one-process run of the interleaved model. |
| SoakLedger.ReplayAcceptsExactChains | src/acash/runtime/ledger.py:75-132 | On an exact chain replay accepts all lines when all are whole and otherwise reports corruption. |
| SoakLedger.ReplayExactly | src/acash/runtime/ledger.py:75-132 | If and only if: replay accepts exactly whole lines with sequences 0 to n-1, each event naming the one before it and no cycle twice, and reads them back. |
| SoakLedger.StartupExactly | src/acash/runtime/rehydration.py:117-181 | If and only if: a start is accepted exactly on such a ledger whose last event names the stored snapshot, or on an empty one with a genesis portfolio. |
| SoakLedger.PulsesAreRecorded | scripts/phase13_soak_runner.py:298-341 | The i-th pulse of a run is recorded with the next cycle and sequence, its own clock reading and staleness, and the run's portfolio. |
| SoakLedger.SessionKeepsSound | scripts/phase13_soak_runner.py:275-382 | Every run, ended anywhere including inside a write, keeps the disk sound. |
| SoakLedger.LedgerIsExact | scripts/phase13_soak_runner.py:280-341 | After any sequence of runs and crashes the readable ledger has cycles 1..n, sequences 0..n-1, links and one portfolio; a restart is refused for an unreadable line or snapshot only. |
| SoakLedger.RefusedForever | src/acash/runtime/rehydration.py:117-181 | A refused restart changes nothing and is refused ever after. |
| SoakLedger.SessionIsRecoverable | src/acash/runtime/ledger.py:156-159 | If and only if: when a restart accepts what a session left; then it reads back every committed event. |
| SoakLedger.LostNewlineSpoilsTheLedger | src/acash/runtime/ledger.py:156-159 | A concrete crash losing one newline that makes the next run spoil the ledger. |
| SoakHarness.OperationalLedger.ReplayFromDisk | src/acash/runtime/ledger.py:75-132 | Replay verifies every line before the object changes. |
| SoakHarness.OperationalLedger.AppendEvent | src/acash/runtime/ledger.py:134-166 | Append to file and memory, or refuse without touching either. |
| SoakHarness.Phase13SoakHarness.Rehydrate | src/acash/runtime/rehydration.py:117-181 | Replay, then the head's snapshot or a genesis portfolio, with every refusal. |
| SoakHarness.Phase13SoakHarness.SaveAndAppend | scripts/phase13_soak_runner.py:329-340 | Snapshot before append; the loop's own event is never refused. |
| SoakHarness.Phase13SoakHarness.PulseLoop | scripts/phase13_soak_runner.py:290-382 | The loop leaves memory and disk of exactly the pulses completed, with the last pass broken off where it failed. |
| SoakHarness.Phase13SoakHarness.Run | scripts/phase13_soak_runner.py:275-387 | One run, however it ends, matches the session model and keeps the disk sound. |
| SoakHarness.OwnEventIsAdmitted | scripts/phase13_soak_runner.py:298-305 | The next event always passes the sequence, chain and duplicate checks. |
| PageChain.WalkMeansLinked | src/acash/research/d6/local_alpaca.py:245-265 | The chain walk accepts exactly the linked chains: positions, request tokens, no repeated token. |
| PageChain.VerifyTagExactly | src/acash/research/d6/local_alpaca.py:245-265 | A chain in page order is accepted if and only if linked and ended by a null token. |
| PageChain.VerifyBothTags | src/acash/research/d6/local_alpaca.py:247-250 | A manifest is accepted exactly when each tag's chain is. |
| PageChain.VerifyTagMeans | src/acash/research/d6/local_alpaca.py:245-265 | In whatever order the manifest lists a tag's records, they are accepted if and only if some order of them is one linked ended chain. |
| PageChain.LoaderMeans | scripts/fetch_alpaca_d6_local_data.py:165-178 | If and only if, for any manifest and files: the tag's records can be chained, name exactly the matched files, and each file has the recorded size, digest and next token. |
| PageChain.LoaderExactly | scripts/fetch_alpaca_d6_local_data.py:165-178 | The loader accepts exactly intact files of a linked complete chain and returns the payloads in order. |
| PageChain.TamperingIsDetected | scripts/fetch_alpaca_d6_local_data.py:165-178 | Adding, removing or altering one matched file makes loading fail. |
| PageFetch.KeepPage | scripts/fetch_alpaca_d6_local_data.py:97-111 | A response is written unless refused; then the pages before it are verified. |
| PageFetch.Fetch | scripts/fetch_alpaca_d6_local_data.py:93-125 | If and only if: a fetch succeeds exactly when the first page is the whole answer; at most two requests; files within the byte budget even on failure. |
| PageFetch.EveryLongerChainIsRefused | scripts/fetch_alpaca_d6_local_data.py:111 | Every proper prefix of every chain that goes on is refused as incomplete. |
| PageFetch.TwoPagesCannotBeFetched | scripts/fetch_alpaca_d6_local_data.py:111 | A concrete valid two-page chain whose fetch fails. |
| PageFetch.SealTag | scripts/fetch_alpaca_d6_local_data.py:134-142 | Enumerating a listing from 1 succeeds exactly on the readable pages 1 to n in that order, and infers their records. |
| PageFetch.NamedIsIntact | scripts/fetch_alpaca_d6_local_data.py:136-139 | On the name-ordered listing of a directory that is exactly: the files are pages 1 to n and n is at most 99. |
| PageFetch.SealLegacy | scripts/fetch_alpaca_d6_local_data.py:129-162 | If and only if: a seal succeeds exactly when no manifest exists and both tags' files are pages 1 to at most 99, readable, with distinct tokens that end. |
| PageFetch.SealExactly | scripts/fetch_alpaca_d6_local_data.py:134-142 | Sealing an intact tag succeeds if and only if it has at most 99 pages and its tokens end. |
| PageFetch.LongChainsCannotBeSealed | scripts/fetch_alpaca_d6_local_data.py:136-139 | An intact ended chain of a hundred pages or more is never sealed, although the loader would read it. |
| PageFetch.InferIsLinked | scripts/fetch_alpaca_d6_local_data.py:134-142 | Inferred records are linked and complete exactly when the pages' tokens are distinct and end. |
| PageFetch.SealedPagesLoad | scripts/fetch_alpaca_d6_local_data.py:129-178 | Round trip of a seal: with the manifest it writes the loader gives back the pages of either tag, in page order. |
| PageNames.OrderIsUnique | scripts/fetch_alpaca_d6_local_data.py:136 | A directory has one name-ordered listing. |
| PageNames.NumberedInOrder | src/acash/research/d6/local_alpaca.py:237 | Two-digit names are in page order exactly up to page 99. |
| PageFetch.FetchedPageLoads | scripts/fetch_alpaca_d6_local_data.py:93-178 | Round trip for the fetch. |
| CachedPages.LoadCachedPages | scripts/execute_mec_0014_transaction_contract_probe.py:114-158 | Terminates on every finite directory; accepts exactly the complete chains and returns every page's trades after those of the pages before it; a refusal names the first fault. |
| CachedPages.CompleteIsUnique | scripts/execute_mec_0014_transaction_contract_probe.py:114-158 | A directory holds at most one complete chain. |
| CachedPages.FaultsExclude | scripts/execute_mec_0014_transaction_contract_probe.py:114-158 | A fault anywhere rules out every complete chain. |
| CachedPages.LaterFilesAreIgnored | scripts/execute_mec_0014_transaction_contract_probe.py:148-156 | Only the very next page is looked for after the end. |
| CachedPages.TamperingIsRefused | scripts/execute_mec_0014_transaction_contract_probe.py:114-158 | Removing a page or adding the next one makes loading fail. |
| SeriesQualification.DateIsItsDay | scripts/execute_hyp_011_r3.py:228-231 | A bar belongs to the UTC day its timestamp lies in. |
| SeriesQualification.SortedDatesSort | scripts/execute_hyp_011_r3.py:231 | The sorted distinct dates are increasing and are exactly the bars' dates. |
| SeriesQualification.DistinctDates | scripts/execute_hyp_011_r3.py:231-239 | As many distinct dates as bars, if and only if no two bars share a date. |
| SeriesQualification.QualifiedMeansMatched | scripts/execute_hyp_011_r3.py:231-239 | A series qualifies if and only if bars and sessions correspond one to one. |
| SeriesQualification.QualifySymbol | scripts/execute_hyp_011_r3.py:225-247 | The price maps are total on the sessions and hold every bar; the alignment check cannot fail. |
| SeriesQualification.CheckWindow | scripts/execute_hyp_011_r3.py:257-270 | The whole-window check accepts exactly when every raw/split ratio differs from the first by at most a millionth of it, in reals. |
| SeriesQualification.WindowBoundsEveryPair | scripts/execute_hyp_011_r3.py:257-270 | A whole-window pass bounds every pair of sessions. |
| SeriesQualification.StepsCanLeaveTheWindow | scripts/process_hyp_011_prospective_shadow.py:91-122 | Session-to-session checks do not imply the whole-window one. |
| CensusTrial.Observe | scripts/execute_phase8_5_step_r3_census_htf.py:300-327 | For every valid bar the signal in prices (above the lookback close by the deadband long, below short, else idle) and the next bar's close over open. |
| CensusTrial.SubtractFriction | scripts/execute_phase8_5_step_r3_census_htf.py:343-348 | The in-place masked subtraction. |
| CensusTrial.RunTrial | scripts/execute_phase8_5_step_r3_census_htf.py:271-348 | Every bar of a trial in prices: direction, what it earns less one friction, nothing when idle; the net list is the active bars in order; the sums agree. |
| CensusTrial.FrictionIsPerTrade | scripts/execute_phase8_5_step_r3_census_htf.py:333-338 | The friction charged is the trade count times one friction. |
| CensusTrial.WiderDeadbandTradesLess | scripts/execute_phase8_5_step_r3_census_htf.py:320-334 | A larger deadband is active on a subset with equal signals and trades at most as often. |
| CensusTrial.SignalIsCausal | scripts/execute_phase8_5_step_r3_census_htf.py:308-327 | A signal depends on closes up to its own bar only. |
| Ranking.RankingIgnoresOrder | scripts/run_d6_contribution_study.py:172-175 | Any order of the same runs gives the same ranking. |
| Ranking.RankingIsByReturn | scripts/run_d6_contribution_study.py:172-175 | The ranking holds exactly the portfolios with a finished run in the cell, each with a return of its own runs there, descending, ties by name. |
| Ranking.RankingIsDistinct | scripts/run_d6_contribution_study.py:172-175 | With one run per portfolio and cell a ranking has no repetition. |
| Ranking.RankingOrdersRuns | scripts/run_d6_contribution_study.py:172-175 | With one run per portfolio and cell, a portfolio stands before another if and only if its return is higher, or equal with the smaller name. |
| Ranking.ReversalExactly | scripts/run_d6_contribution_study.py:260-267 | A cell is flagged if and only if two common portfolios stand in opposite orders. |

## Left out

- ShadowGates.DispatchExactly: the schema, starting-AUM and locked-constant checks of `verify_chain` and its comparison of terminal balances are not among the gates; one writer stamps all of these together with the digests that are checked.
- ShadowMain.StateDirectory.VerifyChainOnDisk: the same four checks are left out.
- ShadowMain.BuildCommit: the portfolio and benchmark steps between qualification and the append enter as one flag of the response, saying whether any of them raised; their balances are not modelled.
- ShadowMain.StateDirectory.Preflight: evidence bundles, dispatch authorities and registered intents enter as the booleans their checks return, and the directory does not change during the call; the interleaved form is ShadowRunner.Read.
- ShadowMain.StateDirectory.RunMain: one invocation that nobody disturbs; the interleaved form is ShadowRunner.Step.
- The temporary files behind atomic replacement, and the read of the observation files as several reads: the state document, the file listing and the walk over the files are three steps, but the walk is one.
- SHA-256 collisions, canonical serialization, JSON, CSV and Parquet encoding.
- Decimal and float rounding: arithmetic is over exact reals, so the bounds are those of the formulas.
- The pinned holiday, early-close and daylight-saving tables are parameters of the calendar.
- Credentials, HTTP clients, git checks and query parameters; a provider is the sequence of its answers.
- The total-return index and its continuity check, dividend qualification and the fee schedules: the fee schedule is a parameter that may refuse.
- Hyp009Schedule.MonthEnds: groups neighbouring sessions of one month, which for an ordered list is the source's grouping by key; the source's refusals of unordered input are preconditions.
- Hyp009Portfolio.RunPortfolio: slippage is taken as non-negative, as both registered constants are, and the settling, trading and marking steps return a new book where the source updates local variables.
- CanaryClaims.Act: a path is one directory; overlap of the claims directory and the evidence root is equality, not nesting, and pages written under the root are not listed beside the start file.
- SoakLedger.Startup: broker reconciliation and the UNKNOWN outcome, which the harness never produces; telemetry and the memory limit enter as exceptions after an append.
- One soak harness runs at a time on a directory; two concurrent ones are not modelled.
- PageFetch.Fetch: the provider is one answer for each request the budget allows; the query built from the token is not modelled.
- SoakHarness.Phase13SoakHarness.Run: starts from a sound disk, which every history from an empty directory gives (SoakLedger.SessionsKeepSound); a stop signal that arrives before the loop is a run with no pass.
- CensusTrial.RunTrial: prices are positive, as the dataset gate before it requires; correlation, regression, autocorrelation and Sharpe metrics are not modelled.
- Ranking.RankingIgnoresOrder: portfolio names are their places in the alphabet.
- The dry-run output of the shadow runner, dashboards, registration scripts, audit text, finite grids and pinned digests.
