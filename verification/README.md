# Verification of the arbitration platform's engines and services

A Dafny model of the back end's two computing engines and of the services that keep its records, with proofs of
what those engines and services promise. `dafny verify dfyconfig.toml` checks all of it.

## How it is organised

The pure engines are modelled as functions, and their loops as methods proved against them:

- `civil_date.dfy`, `day_counting.dfy`, `business_days.dfy`, `date_keys.dfy`, `deadline_engine.dfy`, `reminders.dfy`: civil dates as
  `Date.UTC` and `setUTCDate` define them (section 21.4.1 of ECMA-262), counting of business days, the deadline rule
  of article 2(6) of the UNCITRAL Arbitration Rules, and reminder schedules.
- `allocation.dfy`: the largest-remainder split of a sum in cents, filled into an array in place.

Each service is a pair of files. The first holds the tables as values, a function `Step` that says what each call
does to them, the answers and errors of the call (`Outcome`), runs of calls (`Run`), and the lemmas about all runs.
The second holds a class whose fields are the stored tables and whose methods, statement by statement, do what the
service does; each method ensures that it leaves the tables `Step` gives and answers what `Outcome` does.

| subject | specification and lemmas | class |
|---|---|---|
| rules engine | `rule_engine.dfy`, `rule_engine_reach.dfy`, `pinned_book.dfy` | `rule_engine_service.dfy` |
| rule versions, review, activation, pinning | `rule_versions.dfy`, `rule_review.dfy` | `rule_review_service.dfy` |
| tribunal appointments and deliberation access | `tribunal_protocol.dfy` | `appointments_service.dfy` |
| deposits and the case ledger | `deposit_ledger.dfy` | `deposits_service.dfy` |
| deadline changes, reminders, escalation | `deadline_lifecycle.dfy`, `reminders_once.dfy` | `deadlines_service.dfy` |
| service of notices and email delivery | `notice_protocol.dfy`, `notice_mail.dfy`, `notice_invariants.dfy`, `notice_receipt.dfy`, `notice_failures.dfy`, `notice_issue.dfy` | `notices_service.dfy` |
| filings and corrections | `filing_register.dfy` | `filings_service.dfy` |
| retention policy, holds and sweeps | `retention.dfy` | `retention_service.dfy` |

`wrappers.dfy`, `sums.dfy` and `decimals.dfy` hold options, results, sums and decimal numbers, `rule_book.dfy` the definitions and the pinning that the
engine and the review share. Row numbers stand for ids, each service call is one atomic step, and the clock, the mail
provider's answers (silence is a temporary failure) and compliance clearances are inputs of the calls.

## Where the code falls short of its own comments

Each of these is shown by lemmas, on an input, a run or all inputs, beside a lemma with the exact condition.

- Adding days is not additive across the years 0 to 99, which `Date.UTC` moves to 1900 to 1999
  (`PlusDaysActionFails`, `PlusDaysAction`).
- A due moment can miss its civil date when the zone's offset changes between the first guess and the result
  (`CutoffMissedAcrossClockChange`, `DueMomentKeepsDate`, `CutoffFallsOnDate`).
- The allocation header says the rounding remainder goes to the largest share; the code hands it out by the size of
  the fraction cut off (`SmallerShareGetsTheCent`, `WholeRemainderToLargest`).
- A rule edited after sign-off goes live without a new review: the gate looks at chapters, and an edit touches only
  the rule's own review item (`RewordedRuleGoesLive`, `EditKeepsSignOff`, `RuleReviewsDoNotGate`, `SignedTextStays`).
- A tribunal secretary gets a seat but no deliberation access, because the shared role list
  (`packages/shared/src/roles.ts:76-79`) has two roles where the appointments service has three
  (`SecretaryHasNoAccess`, `AccessFollowsTrail`).
- A tribunal can stay constituted without being complete, after a later acceptance
  (`AcceptanceCanBreakCompleteness`, `AcceptanceKeepsCompleteness`, `OnlySuchAcceptancesBreakCompleteness`).
- A deposit request of nothing stays REQUESTED although its shares are covered (`ZeroRequestDisagrees`,
  `StatusesAlwaysAgree`).
- Suspending a deadline after it fell due gives it more than the pause, and extending a suspended one ends the pause
  (`LateSuspensionGivesMore`, `SuspendResumeConservesTime`, `ExtensionEndsPause`).
- A bounce reported after access marks the recipient as failed, and so does a retry refused for good after access
  (`BounceAfterAccess`, `RetryAfterAccess`; which calls do so is `ReceiptTakenAway`, and which undo completed service
  is `CompletionUndone`).
- One acknowledgement marks the whole notice, and a certificate drawn up early keeps service from ever being completed
  (`OneAcknowledgementMarksTheNotice`, `AcknowledgementMarksTheNotice`; `EarlyCertificatePreventsCompletion`,
  `CertificateDecidesCompletion`).
- Of two pending corrections of a filing the second can never be approved: the unique index on the superseded filing
  (`apps/api/prisma/schema.prisma:2725`) refuses it, so the versions of a filing form a line
  (`SecondApprovalFails`, `OvertakenCorrectionNeverApproved`, `ApprovedExactlyWhenCurrent`).
- A deleted case that is put under a hold and released reads as active (`ReleasedHoldRevivesDeletedCase`,
  `DeletedReadsDeletedUnlessHeld`).

## Model

| member | source | states |
|---|---|---|
| CivilDates.DayNumberBijection | apps/api/src/deadlines/deadline-engine.ts:121-131 | every integer is the day number of exactly one valid date, and every valid date has one |
| CivilDates.DayNumberOrder | apps/api/src/deadlines/deadline-engine.ts:121-131 | day numbers order valid dates exactly as year, month and day do |
| CivilDates.AddCivilDays | apps/api/src/deadlines/deadline-engine.ts:121-126 | the mutated Date reads back as the date n days on |
| CivilDates.PlusDaysStepsTheCalendar | apps/api/src/deadlines/deadline-engine.ts:121-126 | adding n days is stepping an independently defined calendar n times |
| CivilDates.PlusDaysMonotone | apps/api/src/deadlines/deadline-engine.ts:121-126 | results stay valid, adding is strictly monotone in n, and zero days change nothing |
| CivilDates.SubtractingUndoesAdding | apps/api/src/deadlines/deadline-engine.ts:121-126 | subtracting undoes adding exactly when the year reached is not one of 0 to 99 |
| CivilDates.PlusDaysAction | apps/api/src/deadlines/deadline-engine.ts:121-126 | add(add(d, a), b) is add(d, a + b) exactly when the year reached in between is not one of 0 to 99 |
| CivilDates.PlusDaysActionFails | apps/api/src/deadlines/deadline-engine.ts:121-126 | a date at the end of the year 99 on which that law fails |
| CivilDates.WeekdayAdvances | apps/api/src/deadlines/deadline-engine.ts:129-131 | the weekday moves by n modulo 7 exactly while the resulting year is taken at face value |
| CivilDates.ForwardStaysModern | apps/api/src/deadlines/deadline-engine.ts:121-126 | from the year 100 on, going forward never meets a remapped year |
| Decimals.DecimalInjective | apps/api/src/deadlines/deadline-engine.ts:66-68 | different whole numbers have different decimal texts |
| CivilDates.CivilToKeyInjective | apps/api/src/deadlines/deadline-engine.ts:66-68 | two valid dates share a holiday key only when they are the same date |
| DateKeys.KeyReadsBack | apps/api/src/deadlines/deadline-engine.ts:62-68 | the text of a date, read by a separate parser as year, month and day, gives the date back |
| DateKeys.PlainIsKey | apps/api/src/deadlines/deadline-engine.ts:66-68 | a text that reads as a date and has no leading zeros in the year is the text of that date and of no other |
| DateKeys.BusinessDayMeans | apps/api/src/deadlines/deadline-engine.ts:128-138 | a date is a business day exactly when its weekday is outside the weekend, Saturday and Sunday by default, and no listed text reads as it |
| DayCounting.NthUnique | apps/api/src/deadlines/deadline-engine.ts:168-176 | the day the counting loop stops on is the only open day with n open days up to it, and the least with that many |
| DayCounting.NthMonotone | apps/api/src/deadlines/deadline-engine.ts:168-176 | a later start or a larger n never gives an earlier n-th open day |
| DayCounting.NthMonotoneInDays | apps/api/src/deadlines/deadline-engine.ts:168-176 | closing days never brings the n-th open day forward |
| BusinessDays.HolidayClosesOneDay | apps/api/src/deadlines/deadline-engine.ts:133-138 | one more holiday closes at most one day |
| BusinessDays.WeeksSuffice | apps/api/src/deadlines/deadline-engine.ts:133-149 | 7 * m consecutive days hold at least m business days less the number of holidays |
| BusinessDays.BusinessDaysExist | apps/api/src/deadlines/deadline-engine.ts:133-181 | a business day lies ahead of every day exactly when some weekday is outside the weekend |
| BusinessDays.NthBusinessDay | apps/api/src/deadlines/deadline-engine.ts:168-176 | the n-th business day exists within 7 * (n + holidays) days and is the n-th open day |
| BusinessDays.NthBusinessDayMonotone | apps/api/src/deadlines/deadline-engine.ts:168-176 | later triggers, longer periods and more holidays never bring the n-th business day forward |
| BusinessDays.NthBusinessDayAdds | apps/api/src/deadlines/deadline-engine.ts:168-176 | a period of a + b business days is one of a followed by one of b |
| DeadlineEngine.RollToNextBusinessDay | apps/api/src/deadlines/deadline-engine.ts:141-149 | the loop ends on the least business day at or after its start and reports whether it moved |
| DeadlineEngine.RollForwardLeast | apps/api/src/deadlines/deadline-engine.ts:141-149 | rolling forward gives the least business day at or after a day |
| DeadlineEngine.RollsOnlyOffClosedDays | apps/api/src/deadlines/deadline-engine.ts:141-149 | rolling moves a day exactly when it is not a business day |
| DeadlineEngine.CountBusinessDays | apps/api/src/deadlines/deadline-engine.ts:168-176 | the counting loop ends, on the n-th business day after the trigger |
| DeadlineEngine.ComputeDeadline | apps/api/src/deadlines/deadline-engine.ts:154-194 | rejects periods below one day; otherwise the three texts read as the trigger date, the day after it and the due day, and the due moment is the specified one |
| DeadlineEngine.StartIsNextDay | apps/api/src/deadlines/deadline-engine.ts:161-163 | the period begins on the civil day after the trigger |
| DeadlineEngine.DueDayInRange | apps/api/src/deadlines/deadline-engine.ts:164-181 | the due day is a business day between n and 7 * (n + holidays) days after the trigger |
| DeadlineEngine.BusinessDueCounts | apps/api/src/deadlines/deadline-engine.ts:168-176 | a business-day period has exactly n business days after the trigger up to its due day, and no earlier day has |
| DeadlineEngine.CalendarNotAfterBusiness | apps/api/src/deadlines/deadline-engine.ts:164-181 | the same period never falls due later in calendar days than in business days |
| DeadlineEngine.DueDayMonotone | apps/api/src/deadlines/deadline-engine.ts:154-194 | the due day is monotone in the trigger, the period and the holidays |
| DeadlineEngine.CutoffFallsOnDate | apps/api/src/deadlines/deadline-engine.ts:71-118 | read back in the zone the due moment shows the due date and cut-off exactly when the zone offset there is the one at the first guess |
| DeadlineEngine.CutoffShowsOnClock | apps/api/src/deadlines/deadline-engine.ts:71-83 | where the offset stays, a clock in the zone shows the due date and the hour, minute and second of the cut-off |
| DeadlineEngine.DaysAre24Hours | apps/api/src/deadlines/deadline-engine.ts:104-118 | instants 24 hours apart fall on successive dates at the same time of day where the offset stays |
| DeadlineEngine.DueMomentKeepsDate | apps/api/src/deadlines/deadline-engine.ts:71-118 | the due moment falls on the due date in the zone exactly when the change of offset between the first guess and the due moment does not carry the cut-off over midnight |
| DeadlineEngine.CutoffMissedAcrossClockChange | apps/api/src/deadlines/deadline-engine.ts:71-81 | a zone going from four hours behind UTC to three, in which the default cut-off of one day lands in the first hour of the next |
| Reminders.DurationParsesGrammar | apps/api/src/deadlines/deadline-engine.ts:201-205 | the parser accepts exactly the tokens PnW, PnD and PnWnD after trimming and upper-casing, with the days they denote |
| Reminders.DurationRoundTrip | apps/api/src/deadlines/deadline-engine.ts:201-205 | printing weeks and days as a token and parsing it gives the days back |
| Reminders.SortSorts | apps/api/src/deadlines/deadline-engine.ts:230-233 | sorting the slots orders them by time and keeps their members |
| Reminders.ComputeReminderSchedule | apps/api/src/deadlines/deadline-engine.ts:217-234 | the loop over the pieces of the rule builds the specified schedule |
| Reminders.ScheduleMembers | apps/api/src/deadlines/deadline-engine.ts:217-234 | a schedule holds, in ascending order, exactly the slots that the pieces of the rule denote and that are still ahead |
| Reminders.RuleSchedules | apps/api/src/deadlines/deadline-engine.ts:217-234 | a rule of day tokens joined by commas, with or without spaces, schedules exactly the slots so many days of 24 hours before the due moment that are still ahead |
| Reminders.SortIsStable | apps/api/src/deadlines/deadline-engine.ts:233 | slots at the same time keep the order of the rule |
| Reminders.SmallLettersRead | apps/api/src/deadlines/deadline-engine.ts:201-205 | tokens may be written in small letters |
| Allocation.Distribute | apps/api/src/fees/allocation-engine.ts:46-65 | the array filled in place is the largest-remainder split |
| Allocation.HandOut | apps/api/src/fees/allocation-engine.ts:55-63 | handing out the leftover gives one cent to each of the first parties in service order |
| Allocation.Allocate | apps/api/src/fees/allocation-engine.ts:67-102 | rejects a negative total and no parties; otherwise the shares are the split of the total and follow the method |
| Allocation.SplitFollowsMethod | apps/api/src/fees/allocation-engine.ts:75-101 | by claim methods on the claim values, by agreement and custom on the weights: less than a cent from the figure's part, never less for a larger figure, nothing without one; by the equal methods, or without figures, at most a cent apart |
| Allocation.RankOfOrder | apps/api/src/fees/allocation-engine.ts:55-60 | the k-th party served is the one with exactly k parties before it by remainder and then position |
| Allocation.LeftoverBelowParties | apps/api/src/fees/allocation-engine.ts:50-63 | fewer cents are left over than there are parties |
| Allocation.SplitSum | apps/api/src/fees/allocation-engine.ts:46-65 | the shares sum exactly to the total |
| Allocation.SplitShape | apps/api/src/fees/allocation-engine.ts:46-65 | exact sum, each share its quota rounded down or up, nothing for a zero weight |
| Allocation.HeavierGetsNoLess | apps/api/src/fees/allocation-engine.ts:46-65 | a heavier party never gets less, nor does the first listed of two equal ones |
| Allocation.WholeQuotaExact | apps/api/src/fees/allocation-engine.ts:55-63 | whole quotas are met exactly |
| Allocation.EvenSplit | apps/api/src/fees/allocation-engine.ts:67-102 | equal or all-zero weights give the first parties the odd cents, one each |
| Allocation.SplitOptimal | apps/api/src/fees/allocation-engine.ts:46-65 | no other integer split of the total has a smaller sum of squared distances to the exact quotas |
| Allocation.WholeRemainderToLargest | apps/api/src/fees/allocation-engine.ts:9-10 | giving the whole remainder to the first party of greatest weight is what the engine does exactly when nothing is left over, or one cent is and that party also has the largest fraction cut off, listed first among equals |
| Allocation.SmallerShareGetsTheCent | apps/api/src/fees/allocation-engine.ts:9-10 | ten cents over 5 and 2: the smaller share takes the odd cent |
| Allocation.NothingOutstanding | apps/api/src/fees/allocation-engine.ts:119-137 | the total outstanding is zero exactly when every share is covered |
| RuleEngineServices.RuleEngineService.ApplyEvent | apps/api/src/rules/rule-engine.service.ts:48-100 | the nested loops over triggers and actions leave the rows, results and throw of the specification |
| RuleEngineServices.RuleEngineService.ExecuteAction | apps/api/src/rules/rule-engine.service.ts:122-162 | one action does what the specification says, its existence guards included |
| RuleEngineServices.RuleEngineService.StoreDeadline | apps/api/src/rules/rule-engine.service.ts:164-249 | creates, skips or refuses a deadline as specified |
| RuleEngineServices.RuleEngineService.StoreExecution | apps/api/src/rules/rule-engine.service.ts:252-284 | an execution and its audit row are stored together |
| RuleEngineServices.RuleEngineService.RecordEvent | apps/api/src/rules/rules.service.ts:243-278 | an event is stored and processed under its own type |
| RuleEngineServices.RuleEngineService.AssignToCase | apps/api/src/rules/rules.service.ts:93-125 | a pin once set is kept |
| RuleEngine.PerformOnTrace | apps/api/src/rules/rule-engine.service.ts:122-249 | an action looks only at the rows of its own event |
| RuleEngine.PerformElsewhere | apps/api/src/rules/rule-engine.service.ts:122-249 | an action leaves the rows of every other event alone |
| RuleEngine.AllSettled | apps/api/src/rules/rule-engine.service.ts:122-249 | after an event's actions each of them would find its own guard |
| RuleEngine.ReplayAddsNothing | apps/api/src/rules/rule-engine.service.ts:48-100 | processing an event again leaves the same deadlines and EXECUTED rows for it, and throws exactly when the first time did |
| RuleEngine.ExactlyOnce | apps/api/src/rules/rule-engine.service.ts:48-249 | after any calls, in any order and with any repeats, each event's trace is that of one delivery if it was ever delivered to a pinned case, and empty otherwise |
| RuleEngine.OrderAndRepeatsDoNotMatter | apps/api/src/rules/rule-engine.service.ts:48-249 | runs ending with the same events and pins that handled the same events leave the same traces |
| RuleEngine.DeadlinesComeFromPinnedVersion | apps/api/src/rules/rule-engine.service.ts:176-249 | at most one engine deadline per event and definition key, always from a definition of the version the case is pinned to, and due when the deadline engine says for the event's date |
| RuleEngineReach.WorkWasAskedFor | apps/api/src/rules/rule-engine.service.ts:48-118 | over every run each executed row and each deadline of an event comes from an action of an active trigger of the case's pinned version, for the event's own type, with every key of the guard equal in the metadata; the event was delivered while its case was pinned |
| RuleEngineReach.AskedForWorkIsDone | apps/api/src/rules/rule-engine.service.ts:80-170 | over every run a delivered event none of whose actions throws has an executed row for every advisory action asked for and a deadline for every deadline action with a definition in the pinned version |
| RuleEngineReach.EngineDueMoment | apps/api/src/rules/rule-engine.service.ts:202-212 | the engine's deadlines fall due at 23:59:59 UTC from Monday to Friday, on the first such day in calendar days and after exactly so many of them in business days |
| RuleEngine.PinsOnlyGrow | apps/api/src/rules/rules.service.ts:93-125 | a pin never changes in an engine run |
| PinnedBook.PinnedDefinitionsStay | apps/api/src/rules/rule-engine.service.ts:181-184 | whatever happens to rule versions meanwhile, looking up a key in a version finds the same definition, so the engine's book may be taken as fixed |
| RuleVersions.CloneIsIsomorphic | apps/api/src/rules/rule-review.service.ts:115-169 | a draft has its source's chapters, rules, placement of rules and deadline definitions, in the same order |
| RuleVersions.EntriesSay | apps/api/src/rules/rule-review.service.ts:214-228 | an entry exists for every number of either version and says removed, added or changed exactly when the rule is missing there, missing here, or reads differently in some field |
| RuleVersions.FieldsDiffer | apps/api/src/rules/rule-review.service.ts:216-224 | a field differs as compared exactly when its values differ, a missing text counting as empty |
| RuleVersions.CountsAddUp | apps/api/src/rules/rule-review.service.ts:228-233 | the four counts of the summary add up to the number of entries |
| RuleVersions.CountsCoverVersions | apps/api/src/rules/rule-review.service.ts:228-233 | removed, changed and unchanged rules are as many as the base has, added, changed and unchanged ones as many as the target has |
| RuleVersions.DiffMirrors | apps/api/src/rules/rule-review.service.ts:205-235 | swapping the versions turns additions into removals, mirrors the entries, and keeps the other counts |
| RuleVersions.PairedDiff | apps/api/src/rules/rule-review.service.ts:205-235 | between versions whose rules pair off, every entry compares two rules at one position |
| RuleVersions.ChangedAmong | apps/api/src/rules/rule-review.service.ts:224 | the fields reported are exactly those whose rendered texts differ |
| RuleReview.ClearCountsMeanCleared | apps/api/src/rules/rule-review.service.ts:281-300 | the counts are clear exactly when there is a chapter and each was reviewed without a blocking status |
| RuleReview.LoadedInv | apps/api/src/rules/rule-review.service.ts:281-320 | unreviewed versions as first loaded satisfy the invariant |
| RuleReview.StepKeepsInv | apps/api/src/rules/rule-review.service.ts:115-452 | every call keeps states, names, numbers, the single active version and the pins consistent |
| RuleReview.SignedOffMeansCleared | apps/api/src/rules/rule-review.service.ts:304-386 | over every run a sign-off is recorded exactly in state APPROVED, and then every chapter is cleared |
| RuleReview.ReviewStateMeans | apps/api/src/rules/rule-review.service.ts:304-320 | over every run the review state of a version without sign-off is blocked, changes requested, not started or under review exactly as its reviews are |
| RuleReview.ActivationNeverStale | apps/api/src/rules/rule-review.service.ts:396-411 | over every run the re-check at activation never refuses, and a draft goes live exactly when it is signed off |
| RuleReview.RunEvolves | apps/api/src/rules/rule-review.service.ts:115-452 | over every run statuses only move forward, rule sets stay live, published content and reviews are final, and pins stay |
| RuleReview.LiveStaysExactlyOne | apps/api/src/rules/rule-review.service.ts:413-423 | a rule set with a live version has exactly one, for ever after |
| RuleReview.PinnedRulesNeverChange | apps/api/src/rules/rules.service.ts:93-125 | a pinned case keeps its version, which never is a draft, and its chapters, rules and definitions never change |
| RuleReview.UnclearedNeverGoesLive | apps/api/src/rules/rule-review.service.ts:17-25 | whatever went live in a run was signed off and has every chapter cleared |
| RuleReview.WordingIsItsEdits | apps/api/src/rules/rule-review.service.ts:180-200 | a rule reads as its accepted edits left it, and nothing else touches it |
| RuleReview.FieldsAreLastEdits | apps/api/src/rules/rule-review.service.ts:180-200 | over every run each field of a rule is what the last accepted edit that mentions the field made it |
| RuleReview.DriftComesFromEdits | apps/api/src/rules/rule-review.service.ts:115-235 | after a clone and any calls, comparing adds and removes nothing, and a rule shows as changed only if one of the pair was edited |
| RuleReview.FreshCloneUnchanged | apps/api/src/rules/rule-review.service.ts:115-235 | right after a clone every entry of the comparison is unchanged |
| RuleReview.SignedTextStays | apps/api/src/rules/rule-review.service.ts:178-200 | a version still has its text at sign-off exactly when its accepted edits since come to nothing |
| RuleReview.EditKeepsSignOff | apps/api/src/rules/rule-review.service.ts:178-200 | an edit leaves every sign-off and the readiness to go live as they were |
| RuleReview.RuleReviewsDoNotGate | apps/api/src/rules/rule-review.service.ts:396-411 | the rule-level review items have no influence on activation |
| RuleReview.RewordedRuleGoesLive | apps/api/src/rules/rule-review.service.ts:178-200 | a run of a version as loaded, through chapter review, rule review, sign-off and a rewording, that goes live with the rule's review item pending |
| RuleReviewServices.RuleReviewService.CreateDraftVersion | apps/api/src/rules/rule-review.service.ts:115-176 | draft, copies and pending items are stored, or the failing check is answered and nothing changes |
| RuleReviewServices.RuleReviewService.CloneChapters | apps/api/src/rules/rule-review.service.ts:139-145 | the loop copies the chapters and maps each to its copy |
| RuleReviewServices.RuleReviewService.CloneRules | apps/api/src/rules/rule-review.service.ts:146-167 | the loop copies the rules into the copied chapters with definitions and a pending item each |
| RuleReviewServices.RuleReviewService.UpdateRuleText | apps/api/src/rules/rule-review.service.ts:180-200 | accepted exactly on a draft with something to edit and no null for a required column; field by field the edit is applied and the item goes back to pending |
| RuleReviewServices.RuleReviewService.RecordReview | apps/api/src/rules/rule-review.service.ts:244-261 | only a draft's rule is reviewed |
| RuleReviewServices.RuleReviewService.RecomputeReviewState | apps/api/src/rules/rule-review.service.ts:304-320 | state and sign-off become what the chapter reviews call for |
| RuleReviewServices.RuleReviewService.RecordChapterReview | apps/api/src/rules/rule-review.service.ts:323-344 | the chapter's review is stored and the state recomputed, on drafts only |
| RuleReviewServices.RuleReviewService.SignOff | apps/api/src/rules/rule-review.service.ts:366-386 | succeeds only on a draft whose chapters are all cleared |
| RuleReviewServices.RuleReviewService.ActivateVersion | apps/api/src/rules/rule-review.service.ts:396-429 | succeeds exactly on a signed-off draft, which becomes active while the active one of its rule set is superseded |
| RuleReviewServices.RuleReviewService.ArchiveVersion | apps/api/src/rules/rule-review.service.ts:436-452 | refuses the active version and leaves an archived one alone |
| RuleReviewServices.RuleReviewService.Diff | apps/api/src/rules/rule-review.service.ts:205-235 | answers the comparison, or nothing when neither version has a rule |
| RuleReviewServices.RuleReviewService.AssignToCase | apps/api/src/rules/rules.service.ts:93-125 | pins a case once and never to a draft |
| TribunalProtocol.StepKeepsInv | apps/api/src/appointments/appointments.service.ts:97-654 | every call keeps seats, team rows, trail and constitutions consistent |
| TribunalProtocol.AccessFollowsTrail | apps/api/src/authz/case-access.service.ts:41-92 | over every run a user is seated exactly when the trail shows an acceptance since the last vacancy, exactly when a tribunal team row is active, and has deliberation access exactly when such an acceptance was not as secretary |
| TribunalProtocol.AccessImpliesDueProcess | apps/api/src/appointments/appointments.service.ts:414-492 | deliberation access implies a past acceptance of an invitation preceded by the arbitrator's own disclosure on the case, not vacated since |
| TribunalProtocol.ConstitutedIsComplete | apps/api/src/appointments/appointments.service.ts:514-548 | over every run a constituted tribunal is complete if the trail shows no acceptance since its constitution |
| TribunalProtocol.ConstitutedExactly | apps/api/src/appointments/appointments.service.ts:514-541 | constitution succeeds exactly when compliance is cleared, no challenge is undecided, and one user alone sits as sole arbitrator, or one is the only chair and two others the only co-arbitrators |
| TribunalProtocol.OnlyUnsettledIsIncomplete | apps/api/src/appointments/appointments.service.ts:439-548 | over every run a constituted tribunal is complete unless an acceptance since its constitution did not keep the counted seats |
| TribunalProtocol.AcceptanceKeepsCompleteness | apps/api/src/appointments/appointments.service.ts:473-482 | a complete tribunal stays complete after an acceptance exactly when the user confirms the present role, or neither the present nor the accepted role is one the composition counts |
| TribunalProtocol.OnlySuchAcceptancesBreakCompleteness | apps/api/src/appointments/appointments.service.ts:439-654 | of all calls that leave a complete tribunal constituted, exactly the other acceptances on its case leave it incomplete |
| TribunalProtocol.ConstitutedKeepsMembers | apps/api/src/appointments/appointments.service.ts:514-559 | while a tribunal stays constituted nobody on it loses the seat |
| TribunalProtocol.ClosedInvitationsStay | apps/api/src/appointments/appointments.service.ts:259-294 | expired and withdrawn invitations stay so, and invitations, challenges and trail only grow |
| TribunalProtocol.UpheldChallengeRemoves | apps/api/src/appointments/appointments.service.ts:621-654 | an upheld challenge leaves the user without seat, access or open invitation, and de-constitutes the tribunal |
| TribunalProtocol.SecretaryHasNoAccess | apps/api/src/appointments/appointments.service.ts:50 | a run in which an accepted secretary has a seat but no deliberation access |
| TribunalProtocol.AcceptanceCanBreakCompleteness | apps/api/src/appointments/appointments.service.ts:478-482 | a run from empty tables that ends with a constituted sole-arbitrator tribunal of two sole arbitrators |
| AppointmentsServices.AppointmentsService.CreateInvitation | apps/api/src/appointments/appointments.service.ts:97-149 | the invitation is stored with its response window |
| AppointmentsServices.AppointmentsService.SubmitConflictDisclosure | apps/api/src/appointments/appointments.service.ts:414-437 | stores the disclosure and moves the invitation on, for the invited arbitrator only |
| AppointmentsServices.AppointmentsService.Respond | apps/api/src/appointments/appointments.service.ts:439-507 | a decline, or an acceptance that seats the arbitrator and opens the team row, as specified |
| AppointmentsServices.AppointmentsService.Constitute | apps/api/src/appointments/appointments.service.ts:514-548 | constitutes exactly a tribunal whose seats are filled, told user by user |
| AppointmentsServices.AppointmentsService.VacateMember | apps/api/src/appointments/appointments.service.ts:553-559 | empties the seat, strips the team rows and de-constitutes |
| AppointmentsServices.AppointmentsService.RecordVacancy | apps/api/src/appointments/appointments.service.ts:562-576 | vacates an active member |
| AppointmentsServices.AppointmentsService.RaiseChallenge | apps/api/src/appointments/appointments.service.ts:602-613 | stores a pending challenge against an arbitrator |
| AppointmentsServices.AppointmentsService.DecideChallenge | apps/api/src/appointments/appointments.service.ts:621-654 | decides a pending challenge once, removing the arbitrator when upheld |
| AppointmentsServices.AppointmentsService.ExpireStaleInvitations | apps/api/src/appointments/appointments.service.ts:259-294 | the sweep expires exactly the open invitations past their window |
| DepositLedger.EngineSharesAdd | apps/api/src/fees/deposits.service.ts:83-121 | the shares stored for a request are not negative and sum to its total |
| DepositLedger.StepKeepsInv | apps/api/src/fees/deposits.service.ts:71-304 | every call keeps ledger, payments, shares, defaults and statuses in agreement |
| DepositLedger.LedgerConserved | apps/api/src/fees/deposits.service.ts:71-304 | over every run shares sum to their request, paid amounts to their payments, and the negated balance is what is still owed plus refunds |
| DepositLedger.StatusesAlwaysAgree | apps/api/src/fees/deposits.service.ts:164-260 | over every run a request has its derived status unless it is an untouched zero request, and a share is in default exactly when exactly one open default records what it owes |
| DepositLedger.StatusesMean | apps/api/src/fees/deposits.service.ts:212-225 | over every run, on the shares themselves: paid when every share is covered, else in default when a share is, else partially paid when something was paid, else requested |
| DepositLedger.ZeroRequestDisagrees | apps/api/src/fees/deposits.service.ts:71-136 | a request of nothing is stored as REQUESTED though its shares call for PAID |
| DepositLedger.BalanceIsOutstanding | apps/api/src/fees/deposits.service.ts:138-150 | the negated balance of a case is the engine's total outstanding plus refunds exactly when no share of the case is overpaid |
| DepositsServices.DepositsService.CreateRequest | apps/api/src/fees/deposits.service.ts:71-136 | stores the request, unpaid shares that add up to its total and follow the allocation method, and the charge |
| DepositsServices.DepositsService.RecomputeDepositStatus | apps/api/src/fees/deposits.service.ts:212-225 | the status says what the request's shares are, in the order paid, in default, partially paid, requested |
| DepositsServices.DepositsService.RecordPayment | apps/api/src/fees/deposits.service.ts:155-210 | the payment, the share's amount and status, the ledger entry, the cured defaults and the request status are exactly those of a party or a substitute payment |
| DepositsServices.DepositsService.DeclareDefaults | apps/api/src/fees/deposits.service.ts:232-276 | the loop flags exactly the overdue shares and records what each owes |
| DepositsServices.DepositsService.Refund | apps/api/src/fees/deposits.service.ts:278-304 | a refund within its payment is booked, a larger one refused |
| DepositsServices.DepositsService.CaseBalance | apps/api/src/fees/deposits.service.ts:138-150 | the loop adds up the case's ledger |
| DeadlineLifecycle.RemindersAlwaysPlanned | apps/api/src/deadlines/deadlines.service.ts:51-58 | over every run each unsent plain reminder is one the rule plans for the present due moment, and there is at most one escalation a deadline |
| DeadlineLifecycle.NoReminderMissing | apps/api/src/deadlines/deadlines.service.ts:51-58 | over every run each reminder planned for the present due moment and later than the last creation, extension or resumption is stored, unless the deadline was waived since |
| DeadlineLifecycle.EscalateIdempotent | apps/api/src/deadlines/deadlines.service.ts:347-373 | a second escalation sweep at the same moment changes nothing |
| DeadlineLifecycle.RunDueIdempotent | apps/api/src/deadlines/deadlines.service.ts:380-401 | a second dispatch at the same moment or earlier sends nothing |
| DeadlineLifecycle.SentStaysSent | apps/api/src/deadlines/deadlines.service.ts:51-58 | the row of a sent reminder is never altered, removed or sent again |
| RemindersOnce.ScheduleCopies | apps/api/src/deadlines/deadline-engine.ts:217-234 | a schedule holds a slot still ahead exactly as often as the rule names its token, and no other slot |
| RemindersOnce.RemindedOnce | apps/api/src/deadlines/deadlines.service.ts:51-58 | over every run with a clock that does not run backwards, rescheduled and dispatched in any order, a deadline's reminder with one token and time is stored and sent at most as often as the rule names the token |
| DeadlineLifecycle.LogReplays | apps/api/src/deadlines/deadlines.service.ts:234-340 | over every run the log only grows, replaying it gives the due moment, and each row records the one before it |
| DeadlineLifecycle.ResumeAddsPause | apps/api/src/deadlines/deadlines.service.ts:301-323 | resuming never brings a deadline forward and adds exactly the pause exactly when that began by the due moment |
| DeadlineLifecycle.TimeConserved | apps/api/src/deadlines/deadlines.service.ts:234-323 | over every run the due moment is that of an independent stop clock, or later after a late suspension |
| DeadlineLifecycle.PausesAddUp | apps/api/src/deadlines/deadlines.service.ts:277-323 | the stop clock moves by the sum of alternating pauses |
| DeadlineLifecycle.SuspendResumeConservesTime | apps/api/src/deadlines/deadlines.service.ts:277-323 | alternating suspensions and resumptions add the sum of the pauses exactly when each suspension comes by the then due moment, and never less |
| DeadlineLifecycle.LateSuspensionGivesMore | apps/api/src/deadlines/deadlines.service.ts:301-323 | a run in which a suspension after the due moment gives the deadline more than the pause |
| DeadlineLifecycle.ExtensionEndsPause | apps/api/src/deadlines/deadlines.service.ts:254-257 | extending a suspended deadline makes the later resumption fail |
| DeadlinesServices.DeadlinesService.ScheduleReminders | apps/api/src/deadlines/deadlines.service.ts:51-58 | unsent reminders are replaced by those of the present due moment |
| DeadlinesServices.DeadlinesService.Create | apps/api/src/deadlines/deadlines.service.ts:29-44 | the deadline and its reminders are stored |
| DeadlinesServices.DeadlinesService.Extend | apps/api/src/deadlines/deadlines.service.ts:234-270 | due moment, status, log and reminders change together |
| DeadlinesServices.DeadlinesService.Suspend | apps/api/src/deadlines/deadlines.service.ts:277-294 | a suspension is stamped and logged, once |
| DeadlinesServices.DeadlinesService.Resume | apps/api/src/deadlines/deadlines.service.ts:301-323 | the due moment moves by the rest of the period, with log and reminders |
| DeadlinesServices.DeadlinesService.Waive | apps/api/src/deadlines/deadlines.service.ts:326-340 | waived with its unsent reminders dropped |
| DeadlinesServices.DeadlinesService.MarkComplete | apps/api/src/deadlines/deadlines.service.ts:414-424 | marked met, nothing else touched |
| DeadlinesServices.DeadlinesService.EscalateOverdue | apps/api/src/deadlines/deadlines.service.ts:347-373 | the loop flags exactly the case's open or extended deadlines due before now and raises one escalation for each without one |
| DeadlinesServices.DeadlinesService.RunDueReminders | apps/api/src/deadlines/deadlines.service.ts:380-401 | the loop marks exactly the due, unsent reminders as sent |
| NoticeInvariants.StepKeepsInv | apps/api/src/service/service.service.ts:69-473 | every call keeps recipients, receipts, failures, certificates and mail consistent |
| NoticeReceipt.DispatchIsQuiet | apps/api/src/service/service.service.ts:33-39 | issuing, sending, retrying, provider events and substitute orders make nobody a receiver, add no evidence of receipt and complete no service |
| NoticeReceipt.DispatchIsNeverReceipt | apps/api/src/service/service.service.ts:260-350 | over every run a recipient counts as having received a notice only if that recipient's own user accessed or acknowledged it |
| NoticeReceipt.CompletedMeansEveryoneReceived | apps/api/src/service/service.service.ts:425-442 | completed service implies a certificate and an access or acknowledgement by every recipient's own user |
| NoticeReceipt.CertificateIsFinal | apps/api/src/service/service.service.ts:399-400 | a certificate never changes, and receipt after it never completes the service |
| NoticeReceipt.CertificateDecidesCompletion | apps/api/src/service/service.service.ts:399-442 | over every run service of a notice was completed at some time, lastingly or not, exactly when its certificate shows every recipient's receipt |
| NoticeFailures.CompletionUndone | apps/api/src/service/service.service.ts:317-370 | over every run and every call, completed service of a notice is undone exactly by an accepted acknowledgement, a substitute order, or a failure of one of its recipients by an event or a retry |
| NoticeReceipt.EarlyCertificatePreventsCompletion | apps/api/src/service/service.service.ts:399-442 | a run that certifies, then has the only recipient open the notice, then asks for the certificate again, and whose continuations never complete the service |
| NoticeReceipt.SendsArePaced | apps/api/src/deliverability/email-delivery.service.ts:81-123 | over every run an email is handed over at most four times, each time after a temporary failure and at least 2, 5 and 15 minutes later |
| NoticeReceipt.FailedMailIsRetriedOrRaised | apps/api/src/deliverability/email-delivery.service.ts:96-119 | a failed email to a recipient may be retried exactly from 2, 5 or 15 minutes on after its first three temporary failures, or its failure is on record |
| NoticeMail.EventFindsItsDelivery | apps/api/src/deliverability/email-delivery.service.ts:132-137 | a message id finds the delivery it was handed over for and no other |
| NoticeFailures.RetryFails | apps/api/src/deliverability/email-delivery.service.ts:184-205 | the loop of retries fails exactly the recipients whose emails it loses for good, judged by the rows before it, and changes no other older recipient or notice status |
| NoticeFailures.EventFailsWhom | apps/api/src/deliverability/email-delivery.service.ts:151-156 | over every run an event fails a recipient exactly when it is a bounce, a complaint or a failure of an email to that recipient |
| NoticeFailures.RetryFailsWhom | apps/api/src/deliverability/email-delivery.service.ts:96-119 | a retry fails a recipient exactly when it is refused for good, or for the time being at the fourth attempt |
| NoticeFailures.MailFails | apps/api/src/deliverability/email-delivery.service.ts:81-178 | issuing, sending, events and retries change older recipients and notices by such failures alone |
| NoticeFailures.ReceiptTakenAway | apps/api/src/deliverability/email-delivery.service.ts:96-178 | over every run and every call, a recipient's received status ends exactly by a hard failure event about an email to that recipient, or by a retry of one that is refused with no attempt left |
| NoticeReceipt.BounceAfterAccess | apps/api/src/deliverability/email-delivery.service.ts:151-178 | a run in which a bounce after access marks the recipient failed |
| NoticeFailures.RetryAfterAccess | apps/api/src/deliverability/email-delivery.service.ts:96-119 | a run in which a retry refused after access marks the recipient failed, without any provider event |
| NoticeReceipt.AcknowledgementMarksTheNotice | apps/api/src/service/service.service.ts:317-325 | over every run an acknowledgement marks its notice acknowledged, and everyone has received it then exactly when every other recipient had before |
| NoticeReceipt.OneAcknowledgementMarksTheNotice | apps/api/src/service/service.service.ts:317-325 | a run in which one acknowledgement marks the notice acknowledged while another recipient has not received it |
| NoticeReceipt.SubstituteClosesFailures | apps/api/src/service/service.service.ts:365-370 | a substitute service order takes over every open failure of its notice and no other |
| NoticesServices.NoticesService.IssueNotice | apps/api/src/service/service.service.ts:69-226 | each recipient's status and attempts follow the provider's answer, and the notice needs substitute service exactly when an email was refused for good |
| NoticeIssue.IssueReads | apps/api/src/service/service.service.ts:90-220 | the rows a notice is issued with: statuses by answer, portal and email attempts with their outcomes, older rows unchanged |
| NoticesServices.NoticesService.Serve | apps/api/src/service/service.service.ts:112-203 | one recipient is put on the portal and mailed, with the outcome recorded as it is |
| NoticesServices.NoticesService.RecordAccess | apps/api/src/service/service.service.ts:264-297 | after an accepted call the user's recipient counts as having received the notice, with an access event and the first access time kept |
| NoticesServices.NoticesService.Acknowledge | apps/api/src/service/service.service.ts:300-350 | after an accepted call the notice is acknowledged and the user's recipient has received it, with an acknowledgement on record |
| NoticesServices.NoticesService.OrderSubstituteService | apps/api/src/service/service.service.ts:353-380 | the notice is marked and no failure of it stays open |
| NoticesServices.NoticesService.GenerateCertificate | apps/api/src/service/service.service.ts:387-473 | a certificate is made once and returned ever after |
| NoticesServices.NoticesService.SendTracked | apps/api/src/deliverability/email-delivery.service.ts:64-78 | the email has one attempt, its status and retry time follow the answer, and its recipient is marked failed when no retry is left |
| NoticesServices.NoticesService.AttemptSend | apps/api/src/deliverability/email-delivery.service.ts:81-123 | one attempt is recorded with its retry time, or the fallback is raised |
| NoticesServices.NoticesService.RaiseManualFallback | apps/api/src/deliverability/email-delivery.service.ts:161-178 | recipient failed, failure recorded, notice marked for substitute service |
| NoticesServices.NoticesService.HandleProviderEvent | apps/api/src/deliverability/email-delivery.service.ts:132-158 | an event changes the status of the one delivery with its message id; a bounce, complaint or failure fails its recipient, the other five do not, and unknown ids change nothing |
| NoticesServices.NoticesService.RetryDue | apps/api/src/deliverability/email-delivery.service.ts:184-205 | the loop attempts only deliveries whose retry is due, and all of them below the limit |
| FilingRegister.NumbersUnique | apps/api/src/filings/filings.service.ts:42-43 | no two filings of a case bear the same number, originals and corrected versions alike |
| FilingRegister.SubmitNeverCollides | apps/api/src/filings/filings.service.ts:36-66 | a new filing passes the unique indexes exactly when no document is listed twice |
| FilingRegister.CorrectionInsertable | apps/api/src/filings/filings.service.ts:196-214 | a corrected version passes the unique indexes exactly when its filing is current and no document repeats |
| FilingRegister.StepKeepsInv | apps/api/src/filings/filings.service.ts:36-223 | every call keeps numbers, versions, statuses, receipts and corrections consistent |
| FilingRegister.HistoryIsKept | apps/api/src/filings/filings.service.ts:20-25 | over every run filings keep everything but their status, and receipts stay as issued |
| FilingRegister.ApprovedExactlyWhenCurrent | apps/api/src/filings/filings.service.ts:166-223 | over every run an approval succeeds exactly when the correction is pending, its filing current and no document repeats |
| FilingRegister.OvertakenCorrectionNeverApproved | apps/api/src/filings/filings.service.ts:177-215 | a correction pending when its filing was superseded is never approved later |
| FilingRegister.ExactlyOneCurrentVersion | apps/api/src/filings/filings.service.ts:195-215 | every filing has exactly one descendant that nothing has superseded |
| FilingRegister.SecondApprovalFails | apps/api/src/filings/filings.service.ts:177-215 | a run with two pending corrections of one filing, of which the second cannot be approved |
| FilingsServices.FilingsService.Submit | apps/api/src/filings/filings.service.ts:36-86 | the filing, numbered after the case's filings in at least four digits, is stored with its receipt |
| FilingsServices.FilingNumberReads | apps/api/src/filings/filings.service.ts:42-43 | a filing number is "F-" and digits that read as the number |
| FilingsServices.VersionNumberReads | apps/api/src/filings/filings.service.ts:199 | a version number is the earlier number, "-v" and digits that read as the version |
| FilingsServices.FilingsService.IssueReceipt | apps/api/src/filings/filings.service.ts:89-112 | one receipt a filing |
| FilingsServices.FilingsService.RequestCorrection | apps/api/src/filings/filings.service.ts:137-159 | refused for a superseded filing, otherwise a pending correction of the next version |
| FilingsServices.FilingsService.DecideCorrection | apps/api/src/filings/filings.service.ts:166-223 | rejection, approval with a superseding version and receipt, or no change at all |
| Retention.SweepDeletesExactly | apps/api/src/retention/retention.service.ts:319-385 | over every run a sweep deletes exactly the closed cases without an active hold that were closed more than the policy's days of 24 hours ago, ten years of 365 days by default, only when confirmed, asked for and allowed |
| Retention.HeldCaseIsNotDeleted | apps/api/src/retention/retention.service.ts:361-371 | over every run no call deletes a case under an active hold |
| Retention.SecondSweepDeletesNothing | apps/api/src/retention/retention.service.ts:361-385 | a second sweep at the same instant deletes nothing |
| Retention.SafeguardHolds | apps/api/src/retention/retention.service.ts:94-109 | awards, audit logs and certificates of service, and nothing else, are kept for ever under all stored overrides |
| Retention.DefaultsRead | apps/api/src/retention/retention-policy.ts:62-74 | without overrides, which records a sweep may delete and after how many years |
| Retention.StepKeepsInv | apps/api/src/retention/retention.service.ts:250-277 | every call keeps a case flagged exactly while a hold on it is active |
| Retention.ActivationTakesEffect | apps/api/src/retention/retention.service.ts:217-230 | activation changes the effective policy exactly where the draft says something, safeguards aside |
| Retention.OnlyReviewedPolicyIsActive | apps/api/src/retention/retention.service.ts:159-246 | over every run the active overrides are the merge of the activated drafts, which are approved drafts in order, one approval for one activation |
| Retention.DeletedReadsDeletedUnlessHeld | apps/api/src/retention/retention.service.ts:250-277 | over every run a deleted case reads as deleted exactly when no hold was placed on it since, and a case reads as held exactly while a hold on it is active |
| Retention.ReleasedHoldRevivesDeletedCase | apps/api/src/retention/retention.service.ts:262-277 | a run that ends with a deleted case of active status |
| RetentionServices.RetentionService.GetPolicy | apps/api/src/retention/retention.service.ts:94-109 | the loops give the effective policy of every category |
| RetentionServices.RetentionService.DraftPolicy | apps/api/src/retention/retention.service.ts:159-185 | the last entry for each category becomes the draft unless an entry would let a safeguarded category go |
| RetentionServices.RetentionService.ReviewPolicy | apps/api/src/retention/retention.service.ts:188-210 | decides a draft pending review |
| RetentionServices.RetentionService.ActivatePolicy | apps/api/src/retention/retention.service.ts:217-246 | merges an approved draft into the overrides and clears it |
| RetentionServices.RetentionService.PlaceLegalHold | apps/api/src/retention/retention.service.ts:250-260 | the hold is stored and the case flagged |
| RetentionServices.RetentionService.ReleaseLegalHold | apps/api/src/retention/retention.service.ts:262-277 | the case is freed when no other hold is active |
| RetentionServices.RetentionService.SoftDeleteEligibleCases | apps/api/src/retention/retention.service.ts:361-385 | the loop deletes, skips, records and counts exactly the closed cases past the period, by whether they are held |
| RetentionServices.RetentionService.ExecuteSweep | apps/api/src/retention/retention.service.ts:319-359 | the loop over categories acts on case records under SOFT_DELETE only and says what it refused |

## Left out

- Trigger dates in the years 0 to 99, and dates more than a hundred million days from 1970: `Date.UTC` remaps the first and answers NaN for the second.
- The time zone database: a zone is any function from instants to offsets.
- DeadlineEngine.RollToNextBusinessDay: requires a weekday outside the weekend, because otherwise the loop does not end, and a date after 1 January 100.
- DeadlineEngine.CountBusinessDays: requires a weekday outside the weekend, because otherwise the loop does not end, and a trigger date from the year 100 on.
- DeadlineEngine.ComputeDeadline: requires some weekday outside the weekend, because otherwise the code's loops do not end (`BusinessDaysExist`), and a trigger date from the year 100 on.
- Floating point: amounts are whole cents, weights whole numbers and quotients exact; the conversions `toCents` and `toMajor` are not modelled.
- DepositsServices.DepositsService.CreateRequest: takes the claim values and weights of the parties as inputs; the service adds up the claims, or the counterclaims, of the case for them.
- Overpayments: a comment says a payment is clamped, the code does not clamp, and the model follows the code; there is no bound on the sum of refunds of one payment, only on each.
- Permissions and case membership checks of the callers, and the audit log, notifications, documents, hashes and receipts' random numbers.
- The order of the entries of a version comparison, which the service sorts by number; comments on reviews; change summaries and the dates of publication.
- Rule triggers, which `createDraftVersion` does not copy (`apps/api/src/rules/rule-review.service.ts:115-169`); the engine's rule book is a fixed input of its runs.
- Guards and metadata of the rules engine that are JSON but not objects, of which `null` throws; event types other than the event's own, which neither caller passes; deadlines from `generateFromDefinition`, which the engine's guard does not look for.
- RuleEngine.ExactlyOnce: speaks of deadlines and EXECUTED rows only, because a replay adds a SKIPPED row whenever a definition key is missing or unknown.
- RuleEngineServices.RuleEngineService.ApplyEvent: requires events dated from the year 100 on, like the deadline engine it calls.
- RuleEngineServices.RuleEngineService.ExecuteAction: requires an event dated from the year 100 on, like the deadline engine it calls.
- RuleEngineServices.RuleEngineService.StoreDeadline: requires an event dated from the year 100 on, like the deadline engine it calls.
- RuleEngineServices.RuleEngineService.RecordEvent: requires events dated from the year 100 on, like the deadline engine it calls.
- AppointmentsServices.AppointmentsService.CreateInvitation: takes the response window as an input; the service has the rules engine compute it, with a fallback of 14 days.
- RuleEngineServices.RuleEngineService.AssignToCase: covers the pin alone; the checks for unknown versions and drafts are in RuleReviewServices.RuleReviewService.AssignToCase.
- The guards of `nominateChair`, reminders to arbitrators, the challenge statuses UNDER_REVIEW and WITHDRAWN, stage changes, and compliance screening, whose result is an input of the acceptance.
- The audit trail of appointments is reduced to invitations, disclosures, acceptances, vacancies and constitutions; a vacancy and an upheld challenge leave the same entry.
- Loading of holiday calendars (`loadCalendar`), and the statuses MISSED and CANCELLED and the change SHORTENING, which no service call sets.
- DeadlineLifecycle.TimeConserved: with an extension the clock restarts at the new due moment, because the code ends a pause there.
- NoticesServices.NoticesService.IssueNotice: leaves out the branch for an exception out of `sendTracked`, which handles the provider's errors itself and throws only on database errors.
- NoticesServices.NoticesService.Serve: leaves out the same branch.
- Fallbacks that fail half-way: `raiseManualFallback` and the error branch of the issuing loop swallow database errors, which the model does not have.
- The text, addresses and attachments of notices and emails, the PDF of a certificate, and emails sent by notifications, which count as other mail.
- The stage and closing time of a case: no service in the repository writes `closedAt`, so both are inputs of the retention model; a case returns to a sweep's view only through them.
- Dry runs, exports and the other categories' evaluation of the retention service, which change nothing.
- The fee calculator, dashboards, user administration, hearings, awards, the web application and the remaining services: plumbing, or claims over finite tables.
