# Verified model of the loan calculator, the SLIK job queue and their helpers

This project models the parts of the service where correctness is decided by algorithms and protocols, and proves what
they promise. `dafny verify dfyconfig.toml` checks everything.

**The contractual calculator** (`Loan`, `Sorting`, `Balances`, `Timeline`, `Schedule`, `Ledger`, `Calculator`). The
calculator amortises a contract, filters a repayment ledger in which adjacent exact reversals cancel, accrues due
installments between payments, and allocates every payment in the order the collectability of its day asks for. The
methods follow the code: `CalculationState` is a class whose fields the allocation updates, the ledger is compacted inside
its own array, the accrual cursor walks the schedule. They are proved against one specification: a fold over the merged,
date-ordered list of dues and payments, dues first on a tie. `AcceptedLedger` and `Reported` say what that means in terms
of the input alone: which ledgers are accepted, what fell due, which collectability applied on which day, what the trace
counts, and when there is a result at all. `Restart` and `Comparisons` then prove statements about whole
calculations: stopping on any day and restarting from the result is exact, paying more never leaves more owed, balances
depend only on each day's total, reversals are invisible, and the raw ledger is conserved. `ContractSchedule` is the
normalisation of installment evidence in front of the calculator.

**Exact decimals and currency text** (`DecimalText`, `ExactDecimal`, `Currency`, `NormalizedDecimal`). A rational has an
exact decimal text exactly when it is some m/10^k; the text printed reads back as the value, has the fewest decimals and is
no longer than any other accepted text. Currency texts normalise back to the amount they print, and every normalised text
has a value given by its digits and its last separator, or is refused by the money parser, with the exact condition.

**The SLIK job queue** (`SlikStore`, `SlikQueue`, `SlikWorkers`). `Repository` runs each SQL statement or transaction as one
atomic step on the job and account tables. `SlikQueue` interleaves any number of workers, live or stale (a worker that lost
the lock simply keeps stepping), with submissions, cancellations, recovery and expiry, and proves counters, frozen values,
final statuses and the meaning of COMPLETED in every reachable state. `SlikWorkers` is the bounded pool of one lock
holder: producer, workers, channel and cancellation, with deadlock freedom and a step bound.

**Session and lockout** (`Sessions`, `Lockout`). Both are classes holding the fields under the mutex, whose methods are the
critical sections, plus state machines that interleave callers running them.

**Splicing** (`Splice`, `Worksheet`, `SheetWriter`, `RenameModule`). Ordered disjoint edits spliced in one pass or from the
back; the worksheet patcher, proved to print back exactly the rows in which both target cells were put; the boundary-safe
rename of module paths. `Collections` holds two facts about sets and sequences.

**The text of a cell** (`Rewriting`, `CellText`, `CellReading`, `CellFilling`, `OrdinaryCells`, `CellInputs`). The patcher
edits XML with regular expressions. `CellText` has them as matchers over raw text, `CellReading` has a cell as its list of
attributes and its content, and proves that a text has one reading. `CellFilling` defines, independently of the patcher,
what the walk reads from a cell and what the same cell holding an amount is, and proves exactly which cells the patcher
turns into that for every amount. `OrdinaryCells` reads the condition off the attributes and the content.

Where code and intention differ, the code is modelled and the exact condition is proved:

- `normalizeContractSchedule` accepts a due date in year 0000 and a tenor of 0, which `validSchedule` refuses:
  `NormalizedIsValid` says exactly when the two agree, `NormalizedButNotValid` gives both inputs.
- `NormalizeDecimal` takes a plain number with three decimals behind at most three characters for a grouped integer, a
  thousand times larger: `NumeralKeptExactly` says for which numerals, `NumeralMisread` shows "1.234".
- `NormalizeDecimal` succeeds on texts the money parser behind it then refuses: `NormalizedParsesExactly` says for which,
  `TwoCommasRefused` shows "1,2,3".
- `patchCell` reports success for cells it does not fill: `FillsExactly` says for which cells the result is the same cell
  holding the amount, whatever the amount. All of them write the type ` t="…"`, the value element and its end tag without
  prefix or blank, and hold nothing else that looks like a value element (`PlainlyNeeded`, `NothingBeside`); for cells as
  spreadsheet programs write them the first is enough (`OrdinaryExactly`). Cells that fail: `CommentedSlotFails` and
  `PrefixedCellFails` lose the amount, as does `BlankInEndTagFails`; `TwoValuesFail` reads it twice; `BlankedTypeFails` and
  `MarkedTypeFails` keep the old type; `PrefixedEmptyCellFails` gets the wrong end tag. The XML walk delivers such cells: it
  compares local names only and takes comments, blanks around `=` and in end tags, and `>` in attribute values.

Money is Dafny `real`: the calculator only adds, subtracts, multiplies, compares and divides exactly. The rounding hook is an
arbitrary function or absent. Library sorts are modelled by a stable insertion sort; `StableOrderUnique` and
`DistinctOrderUnique` show that the properties used determine the result. Lemmas carry `{:induction false}` wherever Dafny
would otherwise add an induction hypothesis of its own.

## Model

| member | source | states |
|---|---|---|
| Loan.PackedIsCalendarOrder | internal/loan/date.go:51-55 | on calendar dates the packed key orders days as (year, month, day) and equal keys mean the same day |
| Sorting.StableSortCorrect | internal/contractual/calculator.go:107-112 | the sort orders the rows and keeps, for every key, the rows of that key in their order |
| Sorting.StableOrderUnique | internal/contractual/calculator.go:107-112 | ordering and stability leave one result only, so no other choice of the library matters |
| Sorting.SortAppend | internal/contractual/calculator.go:107-112 | sorting a list whose first half never exceeds its second half sorts the halves apart |
| Sorting.DistinctOrderUnique | internal/contractual/calculator.go:172-184 | with distinct keys even an unstable sort has a single result |
| Balances.CalculationState.PayDueBucket | internal/contractual/calculator.go:246-251 | reduces principal and principal due by the same capped amount and returns the rest |
| Balances.CalculationState.Allocate | internal/contractual/calculator.go:233-244 | the fields end as the specified allocation of the amount in the order the collectability asks for |
| Balances.CalculationState.Accrue | internal/contractual/calculator.go:61-74 | while principal is owed, principal due rises by the installment up to what is outstanding and the interest is added; otherwise nothing changes; outstanding and unapplied stay |
| Balances.AccruedMeaning | internal/contractual/calculator.go:61-74 | the amounts an installment makes due, with the cap written out |
| Balances.AllocatedMeaning | internal/contractual/calculator.go:233-263 | order-free meaning of an allocation: what reaches principal lowers outstanding and due alike, down to zero, and only the excess over everything owed stays unapplied |
| Balances.AllocateKeepsWellFormed | internal/contractual/calculator.go:233-263 | an allocation keeps due within outstanding and every balance non-negative |
| Balances.AdvanceNeedsDueStep | internal/contractual/calculator.go:246-257 | the advance step alone keeps that invariant exactly when nothing is due or the payment fits in what is not yet due; the due step before it leaves money only when nothing is due |
| Balances.AllocateTwice | internal/contractual/calculator.go:233-263 | two payments at one collectability act as their sum |
| Balances.AllocateMonotone | internal/contractual/calculator.go:233-263 | a larger payment from balances no worse ends no worse, in both allocation orders |
| Timeline.ValidateTimeline | internal/contractual/calculator.go:286-296 | comparing neighbours accepts exactly the timelines whose points are dated, in range and agree pairwise on each day |
| Timeline.CollectabilityAt | internal/contractual/calculator.go:298-313 | a value is found only for an opening value in range, and is the one recorded last on or before the day, else the opening value |
| Timeline.ValueAtRecorded | internal/contractual/calculator.go:301-308 | the last point that is not after the day gives the value, and the opening value holds where every point is |
| Timeline.RecordedOnce | internal/contractual/calculator.go:301-308 | that determines the value |
| Timeline.LatestGivesValue | internal/contractual/calculator.go:47-51 | over the raw evidence in any order: a point on or before the day with no other one dated in between gives the value |
| Timeline.ValidInAnyOrder | internal/contractual/calculator.go:286-296 | whether evidence is valid depends only on its points: dated, in range, one value a day |
| Timeline.ValueAtRestart | internal/contractual/calculator.go:298-313 | looking up a later day from the value reached on an earlier day gives the same answer as from the start |
| Schedule.CheckNumbering | internal/contractual/calculator.go:175-184 | the neighbour checks accept exactly rows numbered 1..n with strictly rising, non-zero dates |
| Schedule.BuildSchedule | internal/contractual/calculator.go:168-217 | the loop builds the closed-form rows or fails as it says; without a hook every row repays principal/tenor and carries principal * rate / 1200 interest, so that all interest is tenor * principal * rate / 1200 |
| Schedule.BuiltWhen | internal/contractual/calculator.go:168-217 | success, and which error otherwise: contract parameters, a source some ordering numbers 1..n on rising dates, no negative rounded amount, enough principal for the last row |
| Schedule.BuiltWithoutHook | internal/contractual/calculator.go:168-224 | without a hook success is an if-and-only-if over the contract parameters and the numbering of the source |
| Schedule.BuiltExactly | internal/contractual/calculator.go:186-217 | the same amounts for every built schedule without a hook |
| Schedule.BuiltNumbers | internal/contractual/calculator.go:172-184 | row i carries number i+1, and its number and due date are an installment of the source |
| Schedule.MonthlyOfYearly | internal/contractual/calculator.go:190-194 | twelve months' interest is the yearly percentage of the principal |
| Schedule.BuiltHooked | internal/contractual/calculator.go:186-224 | all rows carry the interest the hook returns, all but the last the principal it returns |
| Schedule.BuiltWithin | internal/contractual/calculator.go:186-224 | with a hook off by at most e all rows carry one interest and all but the last one principal, each within e of the exact share |
| Schedule.BuiltAmortises | internal/contractual/calculator.go:168-217 | a built schedule repays exactly the contract principal over non-negative, non-increasing balances ending at zero, on rising dates |
| Schedule.BuiltIgnoresOrder | internal/contractual/calculator.go:172-174 | any permutation of the source rows gives the same outcome |
| Schedule.LastRowWithinRounding | internal/contractual/calculator.go:186-224 | a hook off by at most e moves the last principal at most (n-1)e from principal/n |
| Schedule.TimesIsProduct | internal/contractual/calculator.go:201-215 | the repeated sum used in the bounds is the product n*x |
| Schedule.SmallRoundingNeverExhausts | internal/contractual/calculator.go:186-217 | with a hook that keeps non-negatives and n(n-1)e within the principal, "exhausts principal" cannot happen and the build succeeds exactly on well-numbered rows |
| Schedule.ExactNeverExhausts | internal/contractual/calculator.go:186-224 | without a hook it never happens |
| AcceptedLedger.OrderedByDay | internal/contractual/calculator.go:100-112 | the ordered ledger holds exactly the raw rows dated after cutoff and not after as-of, by day and then by recorded order |
| AcceptedLedger.AcceptedExactly | internal/contractual/calculator.go:113-166 | a ledger is accepted exactly when it is made of all-zero rows, rows that add to their total with no negative allocable amount, and same-day pairs negating each other; kept are the rows of the second kind |
| AcceptedLedger.RefusedAtFirst | internal/contractual/calculator.go:113-145 | any other ledger fails at the first row that begins none of these, with the error its amounts call for |
| Ledger.Compact | internal/contractual/calculator.go:113-145 | the compaction over the shared backing array leaves exactly the pure filter of the old contents, or its first error: no unread row is overwritten |
| Ledger.EffectiveRepayments | internal/contractual/calculator.go:100-146 | collecting, sorting and compacting gives the filter of the ordered window |
| Ledger.EffectiveRows | internal/contractual/calculator.go:113-146 | every kept row comes from the ledger, is sound and keeps its place in the order |
| Ledger.ReversalLeavesNoTrace | internal/contractual/calculator.go:122-141 | inserting a row and its exact same-day inverse before a row that is not negative leaves the outcome unchanged, errors included |
| Ledger.EffectiveKeepsMoney | internal/contractual/calculator.go:113-146 | dropping zero rows and cancelled pairs drops no money |
| Ledger.SortKeepsMoney | internal/contractual/calculator.go:107-112 | sorting the ledger changes no total |
| Ledger.EffectiveSplit | internal/contractual/calculator.go:113-146 | split at a change of day, the whole ledger is accepted exactly when both halves are, and keeps the rows of both |
| Calculator.MergeIsTheTimeline | internal/contractual/calculator.go:57-90 | the event list holds exactly both streams, in date order, dues before payments on a tie |
| Calculator.AccrueThrough | internal/contractual/calculator.go:57-75 | moving the due cursor only consumes due events: the outcome of the remaining list does not change |
| Calculator.ApplyRepayments | internal/contractual/calculator.go:76-98 | the cursor-driven loop equals the fold over the merged event list and keeps the balances sound |
| Calculator.PlayKeepsWellFormed | internal/contractual/calculator.go:57-98 | any run of sound events keeps due within outstanding and every balance non-negative |
| Calculator.Calculate | internal/contractual/calculator.go:17-98 | the whole calculation, success and error alike, is the specified one; in particular the final check never rejects what the earlier checks accepted |
| Reported.HistoryIsTrue | internal/contractual/calculator.go:47-98 | a result is reached from the opening balances by one closed-form move per event: the rows falling due between cutoff and as-of and the effective repayments, in date order, dues first |
| Reported.PaymentsReported | internal/contractual/calculator.go:76-88 | the payments are the effective repayments in order, each with principal plus interest and the collectability the raw evidence records for its day |
| Reported.RecordedForOnce | internal/contractual/calculator.go:301-308 | for every day the raw evidence and the opening record exactly one value |
| Reported.CollectabilityReported | internal/contractual/calculator.go:92-96 | the reported collectability is the one recorded for as-of; on the cutoff day the opening one |
| Reported.DueWithoutRepayments | internal/contractual/calculator.go:57-91 | without effective repayments principal due is the smaller of the opening principal and opening due plus the principals falling due, interest due likewise uncapped while principal is owed |
| Reported.TraceIsTrue | internal/contractual/calculator.go:28-91 | periods and repayments are counted, and the last of each dated, as the schedule and the effective ledger have them; opening, as-of and schedule are the input's |
| Reported.AtCutoff | internal/contractual/calculator.go:25-36 | on the cutoff day the result is the opening itself, with an empty schedule and trace |
| Reported.ResultExactly | internal/contractual/calculator.go:17-55 | success is an if-and-only-if over dates, opening, contract, evidence and ledger |
| Reported.ErrorsInOrder | internal/contractual/calculator.go:17-55 | a failure is that of the first check that does not pass |
| Restart.LedgerSplit | internal/contractual/calculator.go:100-112 | the ordered ledger of (c, a2] is that of (c, a1] followed by that of (a1, a2], stability included |
| Restart.EffectiveLedgerSplit | internal/contractual/calculator.go:100-146 | filtering commutes with that split, acceptance included |
| Restart.HistorySplit | internal/contractual/calculator.go:47-98 | the events of the whole run are those of the first leg followed by those of the second, with the collectability each payment had |
| Restart.ReachedIsValid | internal/contractual/calculator.go:265-284 | the result of an accepted calculation is a valid opening for the next one |
| Restart.RestartIsExact | internal/contractual/calculator.go:17-146 | for any day between cutoff and as-of, calculating through succeeds exactly when both legs do; balances and collectability agree, unapplied money and counters add up, last dates are right |
| Comparisons.PayingMoreNeverHurts | internal/contractual/calculator.go:57-98 | with same-day repayments at least as large, or extra ones, principal, principal due and interest due end no larger and unapplied no smaller |
| Comparisons.SettleByDay | internal/contractual/calculator.go:57-98 | two payment streams with equal daily totals settle every schedule to the same balances |
| Comparisons.OnlyDailyTotalsMatter | internal/contractual/calculator.go:57-146 | calculations whose effective repayments have equal daily totals end with equal balances |
| Sorting.PairSortsTogether | internal/contractual/calculator.go:107-112 | two rows inserted anywhere in a list, with no key between theirs, stand side by side once it is sorted |
| Comparisons.ReversalIsInvisible | internal/contractual/calculator.go:100-146 | a payment and its exact same-day reversal recorded anywhere in the raw ledger change nothing in the whole result: outside the window always, inside it with no row sorting between them and no negative row next |
| Comparisons.RawLedgerIsConserved | internal/contractual/calculator.go:76-146 | the net of all raw rows in the window is principal reduction plus interest settled plus money unapplied |
| ContractSchedule.NormalizeContractSchedule | internal/position/service.go:242-279 | the collecting loop with its seen-map and the order checks compute the specified outcome |
| ContractSchedule.NormalizedExactly | internal/position/service.go:242-279 | success is exactly: usable rows, as many distinct numbers as the tenor, dates rising by number |
| ContractSchedule.NormalizedWhen | internal/position/service.go:242-279 | success over the raw rows: numbers between 0 and the tenor, a date on every numbered row, exactly one row for each number 1..tenor, dates rising with the numbers |
| ContractSchedule.MissingInstallmentUnreachable | internal/position/service.go:270-277 | by pigeonhole, once the count matches no number is missing |
| ContractSchedule.EveryInstallmentPresent | internal/position/service.go:242-279 | on success every installment 1..tenor has its evidence row and date |
| ContractSchedule.NormalizedIgnoresOrder | internal/position/service.go:242-279 | the outcome does not depend on the order of the rows |
| ContractSchedule.NormalizedIsValid | internal/position/service.go:227-279 | the result passes `validSchedule` exactly when the tenor is positive and no date lies in year 0, and then meets the calculator's numbering |
| ContractSchedule.NormalizedButNotValid | internal/position/service.go:227-279 | a year-0 date and an empty contract are accepted by the one and refused by the other |
| DecimalText.NumeralRoundTrip | internal/loan/money.go:11-28 | reading a printed numeral gives back sign, digits and scale |
| DecimalText.MoneyIsNumeral | internal/loan/money.go:11-28 | whatever is read is, trimmed, an optional sign, digits, and possibly a point with more digits, and its value is that of the digits, signed |
| DecimalText.NumeralIsMoney | internal/loan/money.go:11-28 | every such text is read |
| DecimalText.DigitsShortest | internal/loan/money.go:120-121 | no digit string of a number is shorter than the printed one |
| ExactDecimal.StripFactor | internal/loan/money.go:102-111 | the dividing loop ends with the number written as factor^count times a part free of the factor |
| ExactDecimal.LeftoverNeverTerminates | internal/loan/money.go:112-114 | a denominator with another factor left equals no m/10^k, so the error is right |
| ExactDecimal.PlacesNeeded | internal/loan/money.go:115-119 | every decimal of the value needs at least max(two, five) places |
| ExactDecimal.Print | internal/loan/money.go:115-133 | padding, point and trimming produce the sign, digits and point of the numeral with that scale: trimming removes nothing |
| ExactDecimal.ExactDecimal | internal/loan/money.go:99-134 | a text exists exactly when the value is some m/10^k; it reads back as the value, with the fewest decimals, and no accepted text is shorter |
| Currency.FormatCurrency | internal/features/loaninquiry/handler.go:250-261 | the countdown loop groups the digits in threes from the right behind the sign |
| Currency.GroupedInThrees | internal/features/loaninquiry/handler.go:257-259 | from the right every fourth character is a comma and the others are the digits in order, with (n - 1) / 3 commas in all |
| Currency.NormalizeDecimal | internal/fincloud/loan.go:322-368 | the loops compute the function `Normalized`, whose meaning the next two rows state |
| NormalizedDecimal.NormalizedWhen | internal/fincloud/loan.go:322-334 | a text is normalised exactly when, percent signs and outer white space removed, it is neither empty nor a lone minus, uses only digits, commas, points, blanks and minus, and has a minus at most in front |
| NormalizedDecimal.NormalizedReads | internal/fincloud/loan.go:302-368 | the money parser reads every normalised text as the digits of the packed text, its sign, and the places behind its last separator, none if its dots are grouping, or refuses it |
| NormalizedDecimal.NormalizedParsesExactly | internal/fincloud/loan.go:302-368 | it accepts the text exactly when the packed text has digits around one decimal mark, grouping dots, or digits alone |
| NormalizedDecimal.TwoCommasRefused | internal/fincloud/loan.go:302-368 | "1,2,3" is normalised to "1.2.3", which the money parser refuses |
| Currency.CurrencyRoundTrip | internal/fincloud/loan.go:322-368 | normalising a printed currency text without its unit gives back the two-place numeral and its value |
| Currency.NumeralKeptExactly | internal/fincloud/loan.go:322-368 | a plain numeral, with or without decimals, survives exactly unless three decimals stand behind at most three characters, and then reads a thousandfold |
| Currency.NumeralMisread | internal/fincloud/loan.go:322-368 | "1.234" is normalised to "1234" |
| SlikStore.Repository.Create | internal/slik/repository.go:58-87 | inserts the queued job with the given fields and one pending row per account and touches no other job, or, on a repeated id or account, nothing at all |
| SlikStore.Repository.Save | internal/slik/repository.go:157-188 | gives the pending account of a running job exactly this primary and these values, raises the counter by one and changes nothing else, or changes nothing |
| SlikStore.Repository.Terminal | internal/slik/repository.go:210-228 | gives a running job this terminal status, account, reason and output, and changes nothing else |
| SlikStore.Repository.Cancel | internal/slik/repository.go:230-243 | turns a queued or running job of that owner into CANCELED and changes nothing else; answers whether the job is visible |
| SlikStore.SavedCompletes | internal/slik/repository.go:157-188 | what a save does to the tables, read off before and after |
| SlikStore.Repository.Recover | internal/slik/repository.go:119-122 | every running job, and no other, goes back to the queue |
| SlikStore.Repository.ClearFiles | internal/slik/repository.go:259-263 | clears both file columns of an expired ended job and changes nothing else |
| SlikStore.SaveKeeps | internal/slik/repository.go:157-188 | counters stay true and no completed value changes, whoever saves |
| SlikStore.CreateKeeps | internal/slik/repository.go:58-87 | a new job starts with true counters and touches no other job |
| SlikStore.StatusStepKeeps | internal/slik/repository.go:119-148 | a step that only moves statuses, leaving terminal ones, keeps counters, rows and final statuses |
| SlikQueue.InvStep | internal/slik/manager.go:448-525 | every step of every worker, stale ones included, keeps the queue invariant |
| SlikQueue.PageAdvances | internal/slik/repository.go:190-208 | one page of the keyset scan extends the values read up to its last account |
| SlikQueue.PagesExhaust | internal/slik/repository.go:190-208 | an empty page ends the scan with exactly the completed accounts and their values |
| SlikQueue.ReachableIsSound | internal/slik/repository.go:157-188 | in every reachable state the counter is the number of completed accounts and COMPLETED means all of them |
| SlikQueue.FinishedIsFinal | internal/slik/repository.go:157-243 | from any reachable state on, completed values are frozen and a terminal status is final |
| SlikQueue.OnlyCompleteCompletes | internal/slik/manager.go:480-525 | only a worker that passed the completeness check and patched its output makes a job COMPLETED |
| SlikQueue.OutputHoldsEveryValue | internal/slik/manager.go:480-525 | what a worker has patched into its output equals the stored values of all accounts after any further events |
| SlikQueue.StoredWasSaved | internal/slik/repository.go:157-188 | in every reachable state a completed account holds the primary and the values of a save event of that run by a worker of its job |
| SlikQueue.OutputWasSaved | internal/slik/manager.go:480-525 | so the values a worker patches into its output are, account by account, values that were saved for it |
| SlikQueue.QueuedJobCanComplete | internal/slik/manager.go:371-525 | from every reachable state an idle worker can take a queued job to COMPLETED, with what was fetched for every pending account and what was stored before kept |
| SlikQueue.FailureIsRecorded | internal/slik/manager.go:528-547 | a failing worker ends its job with account and reason, or, the job lost, changes nothing |
| SlikWorkers.InvStep | internal/slik/manager.go:371-447 | every step of producer, workers and cancellation keeps the pool invariant |
| SlikWorkers.HandedOnce | internal/slik/manager.go:421-447 | accounts are handed out in strictly rising order and no two workers hold the same one |
| SlikWorkers.EarlyExitMeansCancelled | internal/slik/manager.go:371-447 | a worker gone before the channel closed, or a recorded failure, means the job context was cancelled |
| SlikWorkers.FirstFailureStays | internal/slik/manager.go:375-386 | a failure is recorded only when there is none, and is the producer's or that of the account the worker held |
| SlikWorkers.FirstFailureIsFinal | internal/slik/manager.go:375-386 | the failure recorded first stays to the end of the run |
| SlikWorkers.CleanRunSavesAll | internal/slik/manager.go:390-486 | a run that ends without cancellation has no failure and no pending account |
| SlikWorkers.NeverStuck | internal/slik/manager.go:390-447 | until everything has finished some step of the pool itself is possible |
| SlikWorkers.RunEnds | internal/slik/manager.go:390-447 | an unfinished run can go on and has taken fewer than 5 per account plus one per worker plus two steps |
| Sessions.SessionManager.Enter | internal/fincloud/session.go:31-62 | the first critical section reuses the session, waits for the login in flight or becomes it |
| Sessions.SessionManager.Publish | internal/fincloud/session.go:64-91 | publishes the login, frees the slot and hands back the retired id |
| Sessions.InvStep | internal/fincloud/session.go:31-111 | every step keeps: a live session implies no login in flight and an empty retired slot, the slot is taken exactly while one caller logs in, every id is accounted for |
| Sessions.OneLoginInFlight | internal/fincloud/session.go:31-62 | two callers logging in are the same caller, and no session is live meanwhile |
| Sessions.NoIdIsLost | internal/fincloud/session.go:63-111 | every issued id is current, retired, logged out, closed or reissued unchanged, and retiring never overwrites an id |
| Sessions.WaitersWake | internal/fincloud/session.go:31-91 | a waiter can wake now, or will when the login in flight returns with any outcome |
| Sessions.WaiterGetsTheError | internal/fincloud/session.go:38-55 | a waiter woken by a failed login that reads the outcome before the next login begins ends with that very error, or tries again after an interruption that was not its own |
| Sessions.LoginGivesSession | internal/fincloud/session.go:64-91 | a login that succeeds publishes its id, which every caller entering next gets, and hands the retired id to the clean-up logout unless there is none or the server returned that very id |
| Sessions.WaiterGetsTheSession | internal/fincloud/session.go:31-55 | a waiter on a login that succeeds wakes, finds no error and gets its id |
| Sessions.RejectedOnceRetries | internal/fincloud/client.go:151-180 | in every reachable state a caller is in its first or second attempt, and a rejection sends it back exactly in the first |
| Sessions.StaleRejectionIsHarmless | internal/fincloud/client.go:151-190 | a rejected request discards the session exactly when it is the one it used; with fresh ids a newer session survives |
| Lockout.LoginFailures.Cleanup | internal/browserauth/security.go:50-64 | the sweep over the keys leaves the table as the next row says |
| Lockout.CleanedSweeps | internal/browserauth/security.go:50-64 | nothing happens while neither a minute nor the window nor the lockout has passed since the last sweep; otherwise exactly the entries go whose lock, or without a lock whose window, is over |
| Lockout.LoginFailures.Blocked | internal/browserauth/security.go:66-75 | answers whether an entry with a lock still running stands; no entry of that user with a lock that has run out remains, and no other entry changes |
| Lockout.LoginFailures.Fail | internal/browserauth/security.go:77-96 | counts the failure, restarts an old window, locks at the maximum, and adds no entry to a full table |
| Lockout.MaximumLocks | internal/browserauth/security.go:66-96 | fewer failures than the maximum within a window do not block; the one that reaches it blocks from then on until exactly the lockout has passed, whatever other operations come between and afterwards |
| Lockout.OneFailureLocks | internal/browserauth/security.go:77-96 | the same where one failure is the maximum |
| Lockout.TableStaysSound | internal/browserauth/security.go:25-96 | after any run the table holds at most 10000 entries, each locked exactly when its count has reached the maximum |
| Lockout.CleanupIsInvisible | internal/browserauth/security.go:50-102 | below the cap, `blocked` answers every run as a per-user model that never removes anything |
| Lockout.CountedRateIsBounded | internal/browserauth/security.go:50-96 | in a run without `clear`, any span L counts at most max * (L / min(window, lockout) + 2) failures of a user |
| Splice.SpliceBackwards | cmd/rename-module/main.go:211-214 | applying ordered edits from the back equals the one-pass splice |
| Splice.SplicedSplit | internal/slik/xlsx.go:828-845 | splicing a document is splicing its halves apart when no span crosses the cut |
| Worksheet.ColumnIndex | internal/slik/xlsx.go:442-448 | the accumulating loop computes the base-26 index |
| Worksheet.IndexInjective | internal/slik/xlsx.go:442-448 | different letters have different indices |
| Worksheet.IndexOrder | internal/slik/xlsx.go:442-448 | comparing indices orders columns by length and then alphabetically |
| Worksheet.IndexOfLetters | internal/slik/xlsx.go:442-448 | A to Z count 1 to 26, and one more letter multiplies by 26 |
| Worksheet.LineIsTheText | internal/slik/xlsx.go:450-537 | reading a row as cells and gaps and printing it gives the bytes back |
| Worksheet.PutTwo | internal/slik/xlsx.go:792-827 | the two edits of a row never overlap, and splicing them reads as the row with both targets put, in every case of replacing, inserting and crossing |
| Worksheet.PutCommutes | internal/slik/xlsx.go:792-827 | which target is put first makes no difference |
| Rewriting.OnlyChangeExactly | internal/slik/xlsx.go:760-763 | replacing every match puts the new text in place of one given piece and leaves the rest exactly when that piece is the first and only match that does not read the new text already |
| Rewriting.OnlyMatchNeeded | internal/slik/xlsx.go:765-780 | if replacing every match by a long text put it in place of one given piece and left the rest, that piece was the only match |
| CellReading.ReadingIsUnique | internal/slik/xlsx.go:450-537 | a text is the text of at most one cell: tag, attributes with their blanks and quotes, comments, sections, instructions, elements and end tag are all determined |
| CellFilling.AttributeMatches | internal/slik/xlsx.go:33 | at an attribute the type expression matches exactly when it is called `t`, comes behind a blank and has no blanks around `=`, and then it matches the whole attribute |
| CellFilling.TypeExactly | internal/slik/xlsx.go:760-763 | the type attribute alone becomes inline string exactly when no `>` stands up to its end and, up to the first `>` behind it, nothing else is changed by the expression |
| CellFilling.HoldingSeen | internal/slik/xlsx.go:488-513 | in the cell with the new element the walk collects the amount exactly when it collects nothing in front of and behind that element |
| CellFilling.HeldReadsBack | internal/slik/xlsx.go:450-537 | a text that holds an amount is again a cell, in one reading only, and under the type it then has the walk reads the amount from it |
| CellFilling.FillsExactly | internal/slik/xlsx.go:751-781 | the patched text is the same cell holding the amount, which the walk reads back with the right type, for all amounts exactly when type attribute and value element are the only things its expressions find, or there is nothing to find and the cell ends with its first `</c>`, and nothing else in the cell is read as a value |
| OrdinaryCells.SlotEnds | internal/slik/xlsx.go:31-32 | an element called `v` or `is`, without `>` in its start tag and its end tag inside, is matched as a whole, or not at all when its end tag holds a blank |
| OrdinaryCells.PlainlyNeeded | internal/slik/xlsx.go:751-781 | every cell that takes amounts writes the type ` t="…"`, its value element without prefix, and the end tag without blank |
| OrdinaryCells.NothingBeside | internal/slik/xlsx.go:765-780 | no comment, section, instruction or element beside the value element of such a cell holds anything the expression matches |
| OrdinaryCells.OrdinaryExactly | internal/slik/xlsx.go:751-781 | with no blank or `>` in attribute values and plain text around at most one value element, being written plainly is also enough: an if-and-only-if over the attributes and the content |
| CellInputs.CommentedSlotFails | internal/slik/xlsx.go:765-780 | `<c r="…"><!--<v/>--></c>`: the amount lands in the comment and the walk reads nothing |
| CellInputs.TwoValuesFail | internal/slik/xlsx.go:777-779 | `<c r="…"><v>…</v><v>…</v></c>`: both are replaced and the walk reads the amount twice |
| CellInputs.BlankedTypeFails | internal/slik/xlsx.go:760-763 | `<c r="…" t = "s"><v>…</v></c>`: the type stays over an inline string, of which the walk then reads nothing |
| CellInputs.MarkedTypeFails | internal/slik/xlsx.go:760-763 | `<c r="…" x=">" t="s"><v>…</v></c>`: so it does behind a `>` in an attribute value |
| CellText.AmountDropped | internal/slik/xlsx.go:767-780 | a cell without an element to replace, whose end tag has a prefix or a blank, keeps its content: the amount is dropped |
| CellText.EndTagMismatched | internal/slik/xlsx.go:756-758 | a self-closing cell always gets the end tag `</c>`, whatever its own tag is |
| CellText.PrefixedCellFails | internal/slik/xlsx.go:751-781 | `<x:c r="B2"></x:c>` comes back unchanged for every amount |
| CellText.BlankInEndTagFails | internal/slik/xlsx.go:751-781 | `<c r="B2"></c >` comes back unchanged for every amount |
| CellText.PrefixedEmptyCellFails | internal/slik/xlsx.go:756-758 | `<x:c r="B2"/>` comes back with the end tag `</c>` |
| SheetWriter.TargetEdit | internal/slik/xlsx.go:799-823 | the two scans find the edit of the target: the span of its own cell, else an empty span |
| SheetWriter.EditReplacesCell | internal/slik/xlsx.go:802-811 | the edit of a column the row has spans the first cell of that column |
| SheetWriter.InsertionPoint | internal/slik/xlsx.go:813-821 | a new cell goes to the start of the first cell of a greater column, else to the end of the row |
| SheetWriter.NewCellReads | internal/slik/xlsx.go:821 | a new cell is the text of one cell only, whose reference is the column followed by the row number, whose type is the default, and from which the walk reads exactly the amount, for every column, row and amount |
| SheetWriter.AccountIsLast | internal/slik/xlsx.go:784-787 | a row number stands for the account of its last entry in the workbook |
| SheetWriter.AccountIsNone | internal/slik/xlsx.go:784-793 | and for none when there is no entry |
| SheetWriter.WriteChanges | internal/slik/xlsx.go:831-845 | the splice loop fails exactly on edits that are not in order and otherwise writes the splice |
| SheetWriter.PartSpliced | internal/slik/xlsx.go:783-845 | all edits of all rows, sorted by offset, are in order, and splicing them prints every row as it must be with all other bytes kept |
| SheetWriter.WriteSheet | internal/slik/xlsx.go:783-845 | the part written is the printed rows, or the first missing result or unpatchable cell; never an overlap |
| SheetWriter.WrittenExactly | internal/slik/xlsx.go:751-827 | writing succeeds exactly when every account row has a result and no target cell is a formula or of another type |
| SheetWriter.RowRefusedWhy | internal/slik/xlsx.go:788-812 | a row without an account stays as it is; a row is refused for a missing result, a formula, or the type of a cell in a target column |
| SheetWriter.NeverOverlapping | internal/slik/xlsx.go:798-835 | with ordered spans and different target columns the overlap error cannot occur |
| SheetWriter.AccountRowCarriesBoth | internal/slik/xlsx.go:792-827 | both target columns read their account's texts; other cells, the text between cells and ascending column order are kept |
| SheetWriter.AccountRowReadsExactly | internal/slik/xlsx.go:751-827 | in each target column a new cell is one from which the walk reads the amount at that place; a cell the row already had, in its one reading, comes back holding the amount under the condition of `FillsExactly`, and without it some amount would not be held |
| SheetWriter.RowIsWritten | internal/slik/xlsx.go:783-845 | in the part written every row stands, between what precedes and follows it, as its outcome |
| RenameModule.ReplaceDocumentModule | cmd/rename-module/main.go:217-239 | the scanning loop always moves on and computes the rename |
| RenameModule.RewritesExactlyOccurrences | cmd/rename-module/main.go:217-243 | the rename replaces precisely the boundary-delimited occurrences and nothing else |
| RenameModule.ModuleCharactersListed | cmd/rename-module/main.go:241-243 | the bytes of a module path, listed |
| RenameModule.RenameRoundTrip | cmd/rename-module/main.go:217-243 | renaming there and back restores any document without a boundary-delimited occurrence of the target |
| RenameModule.ReplaceGoImports | cmd/rename-module/main.go:179-215 | every import of the module is rewritten once, in place, and nothing else changes |
| RenameModule.ImportsRewritten | cmd/rename-module/main.go:179-215 | the spliced file keeps every byte but the literals of imports that are the module path or lie below it, which are the quoted renamed paths |
| RenameModule.RenamedWhen | cmd/rename-module/main.go:200-207 | a path that ends or goes on with a slash behind the module path is renamed, every other path is kept |
| RenameModule.ImportRoundTrip | cmd/rename-module/main.go:200-207 | an import path survives renaming there and back unless it already belonged to the target |

## Left out

- HTTP, JSON envelopes, SQL text and drivers, zip and XML decoding, the file system, cookies, templates, PDF, logging, audit rows and configuration: libraries outside the model.
- LPS row builders, pagination, navigation, migration prefixes, permission sets and the branches of `resolvePosition`: little invariant structure.
- Calendar arithmetic, time zones and date parsing: dates are ordered triples, evidence rows carry the outcome of parsing.
- `big.Rat` representation: money is `real`; only `ExactDecimal` works on numerator and denominator in lowest terms.
- Sorting in place: library sorts are functions on sequences, so the model does not show the mutation of the sorted slice.
- Schedule rows, normalised installments and collected edits are built as sequences; growth of Go slices is not modelled.
- `ClaimNext` takes any queued job: the oldest-first choice and the lock inside its statement are not used by any property.
- The deduplication of accounts in `Submit`: `Create` is modelled for every list of accounts, a repeated one rolling back.
- At most one PROCESSING job and the existence of the output file: not claimed, since both fail once the lock is lost.
- Account and job keys are ranks in the column's collation; the collation itself is not modelled.
- Select order in the worker pool: any enabled step may come next; the step bound holds for every order.
- Sessions.NoIdIsLost: counts ids handed to the logout call, not whether the remote logout succeeds.
- A nil logout function of the session manager: the model hands ids over at the same points, where the code then drops them.
- Forwarded login attempts: `blocked` and `fail` are separate lock sections, so no bound on concurrent attempts is claimed.
- Saturation of Go durations and times before the zero time in the lockout table.
- Spans delivered by the XML walk and by the Go parser are preconditions: ordered, disjoint, cells ending with a tag.
- Cells with another cell or a directive inside; cells that are no XML the walk would accept have no reading here.
- Character references: attribute values and text are compared as written, so a type such as `&#115;` is read as it stands.
- `$` in an amount, which a regular-expression replacement would expand: the amounts are decimal numerals.
- `Inspect`: that the two target columns differ (headers come from different cells of one row) is a precondition of `WriteSheet`.
- Write errors of the output stream in `writeSheet`.
- `validateModulePath` and `moduleDirective`: the round trip holds for every path of module characters, which valid paths are.
- Rounding inside `Format(2)`: `FormatCurrency` starts from the sign and digits of the two-place text.
