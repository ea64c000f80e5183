# Verified model of the NGO membership system

The system registers members of an NGO, collects fees, keeps a wallet of reward points that can be
paid out, follows referrals, and numbers and dates everything. This project models the parts where
an algorithm or a protocol carries the weight, and proves what they keep for all inputs, all runs
and all interleavings.

| File | Models |
|---|---|
| `Similarity.dfy`, `ScoreLaws.dfy` | the Jaro–Winkler name matcher: two in-place passes over boolean arrays, and the scores as arithmetic on the names |
| `Payments.dfy`, `PaymentRuns.dfy`, `PaymentSteps.dfy` | payment, activation, upgrade, edits, lifecycle and expiry: transactions on a database object, any interleaving of any number of callers, counters and sweeps, and what each step does |
| `PaymentRaces.dfy`, `Activation.dfy`, `Edits.dfy`, `StatusHistory.dfy`, `Removal.dfy` | what such interleavings lead to: who gets an error in a race, what an activation gives, what an edit overwrites, what the status history tells, what deleting a draft takes along |
| `Wallet.dfy`, `WalletLaws.dfy`, `WalletLimits.dfy`, `Payouts.dfy`, `Credits.dfy`, `Sums.dfy` | earning and withdrawing points: operations on a service object, conservation and spending laws over all runs, and what becomes of each request and donation |
| `Events.dfy` | places at events under changing capacities |
| `ReferralGraph.dfy`, `ReferralRules.dfy` | the referrer cycle check, the writes to the referral graph, the downline tree, and who may refer whom |
| `Upgrades.dfy` | plan upgrades and tier rewards |
| `Calendar.dfy`, `Reminders.dfy` | clamped month addition on the ECMA-262 day-number model, India-time reminder windows |
| `Numbering.dfy` | counters and formatted numbers, with the replacement patterns of `String.prototype.replace` |
| `Csv.dfy` | the CSV printer against a reader for section 2 of RFC 4180 |
| `ResetCodes.dfy`, `ResetRaces.dfy`, `ResetRates.dfy` | SMS reset codes, request by request and with requests and confirmations that overlap; the wrong tries these allow in a span of time |
| `Throttle.dfy` | the sliding-window gate of the end-to-end tests |
| `Membership.dfy`, `Wrappers.dfy`, `Clock.dfy` | shared types, and events in the order of one clock |

Where the source changes rows or fields step by step there is a class whose methods do the same,
each proved equal to a function on the old state; the laws are then proved about these functions
over sequences of steps. A database is a set of maps and sequences, a row's id being its key or
position. One transaction or statement is one atomic step, and so is the draw of a number from a
counter. Clock readings, random codes, gateway ids, settings and the outcome of checks made
elsewhere (jurisdiction, KYC, signatures) are parameters.

## Findings

What the source, its comments or its constants promise and the code does not keep, or what a caller
would not expect of it. Each comes with the input or run that shows it and, for all inputs, the
exact condition or an attained bound.

- `recordGatewayPaymentInternal` is to return the winner's row when browser and webhook report a payment,
  "instead of surfacing an error" (apps/api/src/payments/payments.service.ts:270-280). It does so only
  for a caller that gets as far as the unique constraint. The usual loser fails the compare-and-swap on
  the member's status before that and gets a conflict error, although its payment is recorded
  (`SecondReportFails`). The loser gets the row exactly if the member still has the status that it
  saw and, for a renewal, a term (`LateCallerExactly`); between two callers that saw the same status,
  exactly if that was ACTIVE, with a term (`RaceExactly`).
- Only members from whom no fee was collected are to be deleted
  (apps/api/src/members/members.service.ts:541-543), but the status is read before the transaction
  that deletes, and not tested in it. A draft submitted and paid for in between loses its payment
  (`PaidDraftLost`). Payments are lost exactly if one was recorded between read and deletion
  (`RemovalLosesExactly`).
- A first fee is taken, and the member activated and numbered, also when the term counted from a joining
  date entered earlier is over by then; the next sweep expires the member (`PaidAndExpired`). The new
  membership is over at once exactly if the member had a joining date of its own and the plan's months
  from there end before the payment (`OverdueAtOnceExactly`).
- Once a registration is submitted its plan is not to drift
  (apps/api/src/members/members.service.ts:214-219), but an edit is checked against the member as read
  and written without a test. An edit read before the submission changes the plan after it
  (`PlanDrifts`). Past DRAFT a plan changes exactly by an upgrade, or by an edit that was read as a DRAFT
  or before the last change of plan (`PlanChangesExactly`). An activation goes by the row it read, and a
  joining date entered in between is lost (`JoiningDateLost`, `OverdueAtOnceExactly`).
- The expiry job's comment (apps/api/src/members/member-expiry.scheduler.ts:26-28) says that a
  renewal cannot be overwritten. That holds for every step off ACTIVE, but a renewal of an ACTIVE
  member leaves the status ACTIVE, so the update still matches and the paid-up member ends EXPIRED
  (`SweepClobbersRenewal`). A swept member is still overdue exactly when it has not been renewed
  since the job's read (`SweepExactly`).
- A failed payout releases its points (apps/api/src/withdrawals/withdrawals.service.ts:22) but may be
  paid or sent again without a balance check (lines 233 and 266), so points can be spent twice
  (`OverspendHappens`). No member overspends exactly when every such retry happens while its points
  are available (`OverspendExactly`), and never by more than the points retried (`OverdraftBound`).
- Five wrong tries per reset code are enforced for confirmations that do not overlap; in general the
  limit is four plus the number in flight at once, and this is attained (`TriesBounded`,
  `TriesAttained`). A code ends with at most five exactly if each wrong confirmation was let past while
  fewer than five were counted or on their way (`FiveExactly`).
- Code requests check the cooldown, retire the old codes and add a new one in separate statements. With
  n requests in flight at once up to n codes are live, possibly sent in the same instant
  (`LiveBounded`, `LiveAttained`), and only any n + 1 consecutive codes are sure to span the 60 s
  (`CodesSpaced`). One live code and 60 s between codes hold when requests do not overlap
  (`OneAtATime`).
- `markDeceased` writes the old status it read before its compare-and-swap, and `submitInternal` and
  the expiry job write the history row in a statement after the update. A suspension in between, or a
  payment, breaks the member's history (`StaleDeathBreaks`, `LateSweepRowBreaks`). A history is
  connected exactly if no row overtakes one that is due and no death row carries another status than
  the member's at the time of the write (`HistoryExactly`).
- Upgrades need a higher tier, but the check is skipped when either plan has none. A member can be
  upgraded for ever exactly when it is on a plan and two plans are active one of which has no tier;
  otherwise there are at most four upgrades (`UpgradesEndExactly`, `FourUpgrades`), and three over
  tiered plans (`UpgradesBounded`).
- The comment at apps/api/src/events/events.service.ts:430-432 says that an event's capacity is never
  exceeded. That holds for registrations, but editing the event may set the capacity below the number
  registered (`EditOverbooks`). An event is never overbooked exactly if no edit does so
  (`NeverOverbookedExactly`), and every such edit overbooks it (`StepFits`).
- Membership, registration and receipt numbers are unique over all organisations
  (prisma/schema.prisma:339, 344, 661), but each organisation counts for itself, and the first numbers
  of two organisations with the default settings are the same (`OrganisationsMeet`). Where a format
  reads `stem-{YYYY}-{SEQ}` once its prefix is in, as the default does, two numbers are equal exactly
  if stem, year and counter are, so series with different stems never meet (`SeriesMeetExactly`).
- `daysInMonth` builds its date with a constructor that reads years 0 to 99 as 1900 to 1999. This
  gives the wrong length for February of year 0 and for no other month (`DaysInMonthIsGregorian`).
- The CSV export does not escape headers, and a single column ending in an empty cell loses its last
  record to the optional final line break. In all other cases with a column everything comes back
  (`RoundTrip`).
- Comments in apps/api/src/referrals/referrals.service.ts:37 and
  apps/api/src/members/member-activation.util.ts:17 mention a manual approval path. The applications
  service has none, and the model follows the code.

## Model

| member | source | states |
|---|---|---|
| `Similarity.FindPartner` | apps/api/src/common/string-similarity.util.ts:16-24 | The inner scan finds the least unmarked equal character inside the window, and none only if there is none. |
| `Similarity.MarkMatches` | apps/api/src/common/string-similarity.util.ts:10-25 | The arrays end up marking exactly the two sides of the greedy pairing, and `matches` is its size. |
| `Similarity.CountMismatches` | apps/api/src/common/string-similarity.util.ts:28-35 | The unguarded inner `while` stays in bounds, and the count is the number of places where the matched characters of the two strings, in order, differ. |
| `Similarity.JaroSimilarity` | apps/api/src/common/string-similarity.util.ts:4-39 | The whole computation returns the score defined from the pairing. |
| `Similarity.JaroWinklerSimilarity` | apps/api/src/common/string-similarity.util.ts:41-55 | The prefix loop finds the longest common prefix up to four characters, and the result is the boosted score. |
| `ScoreLaws.MatchesAreMost` | apps/api/src/common/string-similarity.util.ts:10-25 | The matches are as many pairs as can be formed of equal characters at positions whose distance, plus one, fits twice into the longer length. |
| `ScoreLaws.PickedAt` | apps/api/src/common/string-similarity.util.ts:28-34 | Each kept character stands at the place its position has among the kept ones. |
| `ScoreLaws.MismatchesCount` | apps/api/src/common/string-similarity.util.ts:28-35 | The count is the number of positions at which the kept characters differ. |
| `ScoreLaws.ScoreExactly` | apps/api/src/common/string-similarity.util.ts:36-38 | With m matches in lengths x and y and t disagreements, 6 m x y times the score is 2 m m (x + y) + (2 m - t) x y. |
| `ScoreLaws.ScoreZeroExactly` | apps/api/src/common/string-similarity.util.ts:4-26 | The score is zero exactly for distinct strings without equal characters at close positions. |
| `ScoreLaws.SwapCosts` | apps/api/src/common/string-similarity.util.ts:4-39 | Two different neighbours swapped in a name of n >= 4 characters, repeated ones or not, cost exactly 1 / (3 n). |
| `ScoreLaws.SwapReported` | apps/api/src/members/members.service.ts:456 | Names that differ by such a swap are always over the duplicate threshold. |
| `ScoreLaws.BoostExactly` | apps/api/src/common/string-similarity.util.ts:41-55 | Ten times the boost is n times what is missing to 1, for the first n <= 4 characters in common. |
| `Similarity.GreedyIsStable` | apps/api/src/common/string-similarity.util.ts:15-25 | Every candidate pair is kept or blocked by an earlier choice on one of its sides, a condition that does not depend on which string was scanned. |
| `Similarity.MatchingMirror` | apps/api/src/common/string-similarity.util.ts:15-25 | Scanning from the second string picks the same pairs, position by position. |
| `Similarity.MatchingIsMaximum` | apps/api/src/common/string-similarity.util.ts:10-25 | No injective pairing of equal characters inside the window has more pairs, whatever the lengths (window -1 included). |
| `Similarity.PickedSizes` | apps/api/src/common/string-similarity.util.ts:28-34 | Both strings have as many marked positions as there are matches. |
| `Similarity.JaroSymmetric` | apps/api/src/common/string-similarity.util.ts:4-39 | The score of (a, b) is the score of (b, a), for all strings. |
| `Similarity.JaroRange` | apps/api/src/common/string-similarity.util.ts:4-39 | The score lies in [0, 1] and is 1 exactly for equal strings. |
| `Similarity.WinklerSymmetric` | apps/api/src/common/string-similarity.util.ts:41-55 | The boosted score is symmetric, for any normalisation. |
| `Similarity.WinklerRange` | apps/api/src/common/string-similarity.util.ts:41-55 | 0 <= Jaro <= Winkler <= 1, and 1 exactly when the normalised names are equal. |
| `Similarity.MatchForcesLengthRatio` | apps/api/src/members/members.service.ts:456 | A pair of names over the duplicate threshold has lengths within a factor of 2/5. |
| `Payments.EndOfTerm` | apps/api/src/payments/payments.service.ts:332-335 | The end of a membership: calendar months after its start, or open-ended. |
| `Payments.Database.ActivateMemberOnce` | apps/api/src/members/member-activation.util.ts:30-61 | A lost compare-and-swap changes nothing and takes no number; a won one gives the next number, the term and one history row. |
| `Payments.Database.FinalizePayment` | apps/api/src/payments/payments.service.ts:299-380 | One transaction: rows appear together or not at all, while the counters stay advanced after a rollback. |
| `Payments.RecordedTerm` | apps/api/src/payments/payments.service.ts:306-343 | A recorded payment leaves the member ACTIVE, with the number drawn on activation, and with a term of exactly the plan's calendar months: from the payment on renewal, and on activation from the joining date, which is the payment's if there was none. It is open-ended exactly for a lifetime plan or, on activation only, a plan without configured months. Without a joining date or on renewal the term is not over. No other member changes, and the payment row is the caller's. |
| `Payments.Database.ChangeStatus` | apps/api/src/applications/applications.service.ts:87-117 | Status and history row change together, exactly if the member is in the expected status. |
| `Payments.Database.SwapStatus` | apps/api/src/members/members.service.ts:362-368 | The status changes exactly if it is the expected one, and nothing else does. |
| `Payments.Database.UpdateMember` | apps/api/src/members/members.service.ts:211-279 | The check goes by the member as read; the update changes the fields given and no others. |
| `Payments.Database.UpgradeMember` | apps/api/src/payments/payments.service.ts:141-177 | Still ACTIVE and on the plan that was read: new plan, one history row, and a payment with the next receipt if charged. |
| `Payments.Database.RecordDeath` | apps/api/src/applications/applications.service.ts:65-83 | From ACTIVE or SUSPENDED only, with the status read earlier in the history row. |
| `Payments.Database.ExpireOverdueMembers` | apps/api/src/members/member-expiry.scheduler.ts:40-73 | Undisturbed, the loop expires exactly the overdue ACTIVE members, with one row each, and counts them. |
| `PaymentRuns.FinalizeKeepsPaired` | apps/api/src/payments/payments.service.ts:306-380 | A payment transaction keeps gateway ids unique, receipts distinct, and the k-th payment with the k-th charge. |
| `PaymentRuns.UpgradeKeepsPaired` | apps/api/src/payments/payments.service.ts:141-177 | An upgrade keeps them too: its payment, if any, matches its own history row. |
| `PaymentRuns.LifeKeepsPaired` | apps/api/src/applications/applications.service.ts:103-115 | Neither a status update nor its history row, together or apart, disturbs payments and charges. |
| `PaymentRuns.FinalizeKeepsOnce` | apps/api/src/members/member-activation.util.ts:38-58 | Whatever stale member a caller holds, nobody is activated or numbered twice. |
| `PaymentRuns.LifeKeepsOnce` | apps/api/src/applications/applications.service.ts:103-115 | Nor does it lead back before the activation, also with its row written later. |
| `PaymentRuns.UpgradeKeepsOnce` | apps/api/src/payments/payments.service.ts:141-177 | Nor does an upgrade. |
| `PaymentRuns.FinishKeepsCredits` | apps/api/src/payments/payments.service.ts:382-407 | An activation hands the referral credit to one caller only. |
| `PaymentRuns.FinishKeepsInv` | apps/api/src/payments/payments.service.ts:299-407 | The transaction of any caller, however late, keeps the whole invariant. |
| `PaymentSteps.RecordedExactly` | apps/api/src/payments/payments.service.ts:299-380 | A payment is recorded exactly if the member has the status that was seen, the gateway payment is new and a renewal has a term; otherwise no row changes. |
| `PaymentSteps.RecordedHistory` | apps/api/src/payments/payments.service.ts:361-377 | An activation leaves one history row, a renewal two. |
| `PaymentSteps.SerialCounters` | apps/api/src/payments/payments.service.ts:306-352 | Alone, a transaction takes the next receipt, and an activation the next number, unless it fails before it gets there. |
| `PaymentSteps.LoadExactly` | apps/api/src/payments/payments.service.ts:284-297 | A caller goes on exactly for a member on a plan that is AWAITING_PAYMENT, SUBMITTED, ACTIVE or EXPIRED, with the row as it is. |
| `PaymentSteps.LookupExactly` | apps/api/src/payments/payments.service.ts:232-249 | A gateway payment that is recorded is returned as it is. |
| `PaymentSteps.FinishExactly` | apps/api/src/payments/payments.service.ts:259-285 | Only a caller that activated goes on to the referral credit. |
| `PaymentSteps.AwardExactly` | apps/api/src/payments/payments.service.ts:382-407 | A credit is noted exactly if the caller may and the member has a referrer. |
| `PaymentSteps.UpgradeExactly` | apps/api/src/payments/payments.service.ts:141-177 | An upgrade goes through exactly if the member is ACTIVE on the plan that was read, and changes the plan and nothing else of the member. |
| `PaymentSteps.EditExactly` | apps/api/src/members/members.service.ts:211-279 | An edit is refused by the member as read, and else writes its fields whatever the row has become. |
| `PaymentSteps.PlanChangesExactly` | apps/api/src/members/members.service.ts:214-231 | Past DRAFT a plan changes exactly by an upgrade or by an edit read as a DRAFT or before the last change of plan. |
| `PaymentSteps.StatusExactly` | apps/api/src/applications/applications.service.ts:62-115 | Which step changes a status, from which to which, and that it does whenever it can. |
| `PaymentSteps.ExpireExactly` | apps/api/src/members/member-expiry.scheduler.ts:49-61 | A sweep is done with a member after one update, and owes a history row exactly if it went through. |
| `PaymentSteps.NoteExactly` | apps/api/src/members/member-expiry.scheduler.ts:59-61 | That row is then written as it was noted. |
| `PaymentSteps.SweepReadExactly` | apps/api/src/members/member-expiry.scheduler.ts:41-44 | A sweep finds exactly the ACTIVE members whose membership has ended. |
| `PaymentSteps.SweptExactly` | apps/api/src/members/member-expiry.scheduler.ts:41-58 | Undisturbed, it expires exactly these. |
| `PaymentSteps.SweepRowsExactly` | apps/api/src/members/member-expiry.scheduler.ts:59-68 | It notes one row for each of them and no other. |
| `PaymentSteps.CountersCount` | apps/api/src/common/numbering.service.ts:43-47 | In every run the counters have advanced once for each draw. |
| `PaymentRuns.NextKeepsInv` | apps/api/src/payments/payments.service.ts:101-407 | So does every step of every caller: reads, counters, transactions, upgrades, edits, deaths, submissions and any number of sweeps, with single statements apart. |
| `PaymentRuns.PaymentSafety` | apps/api/src/payments/payments.service.ts:101-407 | In every interleaving of unboundedly many callers: one row per gateway payment id, distinct receipts, payments one to one and in order with activations, renewals and charged upgrades, at most one activation and one referral credit per member, distinct numbers. |
| `PaymentRuns.LoserFindsWinner` | apps/api/src/payments/payments.service.ts:270-280 | The lookup after the unique constraint has failed always finds the winner's row for the same gateway payment. |
| `PaymentRaces.LateCallerExactly` | apps/api/src/payments/payments.service.ts:259-285 | A caller whose gateway payment is recorded meanwhile gets that row exactly if the member still has the status it saw and a renewal has a term, and else an error; it changes no rows. |
| `PaymentRaces.RaceExactly` | apps/api/src/payments/payments.service.ts:270-280 | Of two callers for one gateway payment that saw the same status, the second gets the first one's row exactly if that status is ACTIVE with a term, and else an error. |
| `PaymentRaces.SecondReportFails` | apps/api/src/payments/payments.service.ts:270-285 | A run from an empty database in which the second report of an activation's payment ends with an error although the payment is recorded. |
| `PaymentRuns.RunLaws` | apps/api/src/applications/applications.service.ts:62-115 | In every run without deletions DECEASED is final, no member returns to a status before activation, and numbers, payments and credits are never lost. |
| `Activation.RunFresh` | apps/api/src/members/member-activation.util.ts:38-44 | In every run a caller about to activate holds the member's row as it still is, up to edits, unless another has activated the member. |
| `Activation.UneditedStays` | apps/api/src/members/member-activation.util.ts:30-61 | Without an edit in between, a row awaiting activation stays exactly as it is until then. |
| `Activation.NumberedExactly` | apps/api/src/members/member-activation.util.ts:51-55 | In every run whoever was activated has a number, and nobody has one before. |
| `Activation.OverdueAtOnceExactly` | apps/api/src/members/member-activation.util.ts:46-55 | After any run, an activation goes by the row as the caller read it: it joins a member without a joining date at the payment, and the membership is over at once exactly if a joining date of its own plus the plan's months lies before it. |
| `Activation.PaidAndExpired` | apps/api/src/members/member-activation.util.ts:46-55 | A run in which a member pays the first fee, is activated and numbered, and expired by the next sweep. |
| `Edits.TimelyEditKeepsPlan` | apps/api/src/members/members.service.ts:214-231 | An edit written while the row is as it was read leaves the plan alone, past DRAFT. |
| `Edits.PlanDrifts` | apps/api/src/members/members.service.ts:211-279 | A run in which an edit read before the submission changes the plan whose fee is due. |
| `Edits.JoiningDateLost` | apps/api/src/members/member-activation.util.ts:46-55 | A run in which an activation overwrites a joining date entered while the payment was under way. |
| `PaymentRaces.SweepExactly` | apps/api/src/members/member-expiry.scheduler.ts:41-58 | With any number of sweeps at once, a member reached by one is overdue still exactly when not renewed since that sweep's read, while the update goes by status alone. |
| `PaymentRaces.SweepClobbersRenewal` | apps/api/src/members/member-expiry.scheduler.ts:24-58 | A run in which an ACTIVE member pays between read and update and ends EXPIRED although paid up. |
| `Removal.RemovalKeepsOthers` | apps/api/src/members/members.service.ts:558-574 | Deleting a member, in any state, keeps the payments of all others matched with their charges, and activations and numbers single. |
| `Removal.RemovedExactly` | apps/api/src/members/members.service.ts:558-574 | The member goes with exactly its own rows, and nobody names it as referrer any more. |
| `Removal.RemovalLosesExactly` | apps/api/src/members/members.service.ts:541-574 | Whatever runs between the read of a DRAFT and its deletion, payments are lost exactly if one of these actions recorded a payment of the member; none are from a member still a DRAFT. |
| `Removal.PaidDraftLost` | apps/api/src/members/members.service.ts:546-571 | A run in which a draft is submitted and paid for in between, and its payment deleted. |
| `StatusHistory.DieChain` | apps/api/src/applications/applications.service.ts:62-82 | With the status read earlier, a death row fits the history exactly if that is the status at the time of the write, and no other row is due. |
| `StatusHistory.ChainStep` | apps/api/src/payments/payments.service.ts:336-377 | Any step keeps a member's history connected exactly if it does not write out of turn. |
| `StatusHistory.HistoryExactly` | apps/api/src/applications/applications.service.ts:62-115 | In every interleaving, a member's history leads step by step from the first status to the present one, or to the one before a row that is still due, exactly if no row was written out of turn. |
| `StatusHistory.HistoryIsChain` | apps/api/src/applications/applications.service.ts:62-115 | It always does if death reports, submissions and sweep updates do not overlap other requests, however payments and upgrades interleave. |
| `StatusHistory.StaleDeathBreaks` | apps/api/src/applications/applications.service.ts:51-81 | A run in which a suspension between the read and the death row breaks the history. |
| `StatusHistory.LateSweepRowBreaks` | apps/api/src/members/member-expiry.scheduler.ts:52-61 | A run in which a payment between the sweep's update and its row breaks the history. |
| `Wallet.WalletService.CreditPoints` | apps/api/src/referrals/referrals.service.ts:200-223 | Balance and ledger move together. |
| `Wallet.WalletService.AwardPointsForApproval` | apps/api/src/referrals/referrals.service.ts:83-132 | Credits what the lifetime cap leaves, nothing when it is used up. |
| `Wallet.WalletService.CreditEventPoints` | apps/api/src/referrals/referrals.service.ts:225-268 | A credited registration is left alone, an open row is accepted in place, else a new row is added. |
| `Wallet.WalletService.SubmitEventEvidence` | apps/api/src/events/events.service.ts:309-376 | Evidence is accepted once, by compare-and-swap against the status read earlier, with its credit. |
| `Wallet.WalletService.SubmitMine` | apps/api/src/donations/donations.service.ts:23-43 | A claimed donation waits, and so do its points. |
| `Wallet.WalletService.RecordApprovedDonation` | apps/api/src/donations/donation-gateway.service.ts:231-281 | A redelivered payment changes nothing, a new one is credited at once. |
| `Wallet.WalletService.MarkReviewed` | apps/api/src/donations/donations.service.ts:118-152 | Only one verdict on a waiting donation wins. |
| `Wallet.WalletService.Resolve` | apps/api/src/referrals/referrals.service.ts:318-342 | The waiting row is credited with the balance, or rejected. |
| `Wallet.ChargeRange` | apps/api/src/withdrawals/withdrawals.service.ts:53-67 | The charge never exceeds the gross amount, also for percentages over 100. |
| `Wallet.WalletService.IsTooSoon` | apps/api/src/withdrawals/withdrawals.service.ts:158-171 | Comparing with the latest request decides for all requests that were not rejected. |
| `Wallet.WalletService.CreateWithdrawal` | apps/api/src/withdrawals/withdrawals.service.ts:136-200 | Every refusal in the source's order, else one APPROVED request with its amounts. |
| `Wallet.WalletService.ApplyPaidSideEffects` | apps/api/src/withdrawals/withdrawals.service.ts:322-349 | Converted points, withdrawn money and the conversion row move together. |
| `Wallet.WalletService.MarkRequestPaid` | apps/api/src/withdrawals/withdrawals.service.ts:220-244 | Manual payment from APPROVED or PAYOUT_FAILED only, with its side effects. |
| `Wallet.WalletService.MarkPayoutProcessing` | apps/api/src/withdrawals/withdrawals.service.ts:252-279 | Sending from APPROVED or PAYOUT_FAILED only, under a payout id nobody else holds. |
| `Wallet.WalletService.MarkPaidFromPayout` | apps/api/src/withdrawals/withdrawals.service.ts:286-304 | A repeated or stale confirmation changes nothing. |
| `Wallet.WalletService.MarkPayoutFailed` | apps/api/src/withdrawals/withdrawals.service.ts:306-316 | A repeated or stale failure changes nothing. |
| `WalletLaws.ApplyKeepsInv` | apps/api/src/withdrawals/withdrawals.service.ts:136-349 | Every operation keeps the cached columns equal to the ledger and the requests. |
| `Payouts.RequestExactly` | apps/api/src/withdrawals/withdrawals.service.ts:220-316 | A request moves exactly by being sent, paid or reported failed from the statuses that allow it, and otherwise stays as it is. |
| `Payouts.PaidEffects` | apps/api/src/withdrawals/withdrawals.service.ts:322-349 | Paying, by hand or by confirmation, adds the request's points to those converted and its net to the money withdrawn, with one row that takes the points. |
| `Payouts.OnlyPaying` | apps/api/src/withdrawals/withdrawals.service.ts:322-349 | Nothing else changes what was converted or withdrawn. |
| `Payouts.PaidExactly` | apps/api/src/withdrawals/withdrawals.service.ts:220-349 | In every run a request is PAID exactly if a payment by hand met it approved or failed or a confirmation met it under way; it then has exactly one conversion row, and else none. Payout ids stay unique. |
| `Payouts.PaidForGood` | apps/api/src/withdrawals/withdrawals.service.ts:220-316 | Once PAID, a request stays so. |
| `Payouts.PayoutErrors` | apps/api/src/withdrawals/withdrawals.service.ts:220-279 | The refusals of manual payment and sending, which change nothing. |
| `Payouts.CreatedExactly` | apps/api/src/withdrawals/withdrawals.service.ts:136-187 | When a withdrawal is granted, and otherwise the first of the conditions that is missing, on the amount by the ratio and the points earned less those converted or held. |
| `WalletLaws.WalletConserved` | apps/api/src/withdrawals/withdrawals.service.ts:220-349 | In every reachable state, for any order and repetition of events and with members and registrations added at any time: balance = sum of credited rows, converted = points of PAID requests = minus the conversion rows, withdrawn = net of PAID requests. |
| `WalletLaws.EarningAvailable` | apps/api/src/referrals/referrals.service.ts:200-342 | Earning and reviewing never lower what a member can spend. |
| `WalletLaws.CreatedRequest` | apps/api/src/withdrawals/withdrawals.service.ts:136-200 | A request is created only for available points, which it locks, with an amount by the ratio and within the limits; charge and net are not negative and add up to the gross; a refusal changes nothing. |
| `WalletLaws.WithdrawalAvailable` | apps/api/src/withdrawals/withdrawals.service.ts:136-316 | A retry of a failed payout takes exactly its points; no other withdrawal step makes the available points negative or more negative. |
| `WalletLaws.OverdraftBound` | apps/api/src/withdrawals/withdrawals.service.ts:72-85 | In every run earned - converted - locked is at least minus the points that re-entered from PAYOUT_FAILED. |
| `WalletLaws.OverspendExactly` | apps/api/src/withdrawals/withdrawals.service.ts:220-279 | It stays at least 0 throughout a run exactly when each retry fits the points available at its time. |
| `WalletLaws.OverspendHappens` | apps/api/src/withdrawals/withdrawals.service.ts:229-235 | A run in which 100 earned points are converted to 200. |
| `WalletLimits.ReferralStep` | apps/api/src/referrals/referrals.service.ts:122-132 | A referral award ends within its cap or adds nothing, and nothing else changes the referral total. |
| `WalletLimits.CapFilled` | apps/api/src/referrals/referrals.service.ts:122-132 | An award is cut to fill the cap exactly, and never cut further. |
| `Credits.AwardExactly` | apps/api/src/referrals/referrals.service.ts:83-132 | An award is worth its points, or under a cap what is left of it if that is less; balance and row say so, and one worth nothing leaves no trace. |
| `WalletLimits.CapRespected` | apps/api/src/referrals/referrals.service.ts:122-132 | Under a fixed cap no run takes a member's referral points above it. |
| `WalletLimits.EventKeepsOnce` | apps/api/src/referrals/referrals.service.ts:225-268 | Crediting a registration again, from any state of its rows, adds no second credit. |
| `WalletLimits.EvidenceCredits` | apps/api/src/referrals/referrals.service.ts:225-268 | Accepted evidence for points always ends in a credited row. |
| `Credits.EvidenceExactly` | apps/api/src/events/events.service.ts:309-376 | Evidence counts exactly if the registration is as it was read and not accepted yet, and the refusals. |
| `Credits.CreditedEventStays` | apps/api/src/referrals/referrals.service.ts:225-240 | A credited registration is left alone. |
| `Credits.OpenEventCredited` | apps/api/src/referrals/referrals.service.ts:241-258 | Else the first open row is credited, with its own points if it was waiting and the given ones if it was rejected. |
| `Credits.NewEventCredited` | apps/api/src/referrals/referrals.service.ts:259-268 | Else a new row and the balance get the points. |
| `Credits.NewcomersExactly` | apps/api/src/events/events.service.ts:428-460 | New members have nothing, and new registrations no evidence. |
| `WalletLimits.ResolveDecides` | apps/api/src/referrals/referrals.service.ts:318-342 | A resolved review leaves no row of its donation waiting, and its row is credited exactly if the donation was accepted. |
| `Credits.ClaimExactly` | apps/api/src/donations/donations.service.ts:23-43 | A claim waits with the percentage of its amount, rounded down, and nothing is credited. |
| `Credits.ReceivedExactly` | apps/api/src/donations/donation-gateway.service.ts:231-281 | Confirmed money is credited with these points, unless its gateway payment is there already. |
| `Credits.ReviewExactly` | apps/api/src/donations/donations.service.ts:118-152 | A verdict counts exactly for a waiting donation, which gets it. |
| `Credits.DonationsFollow` | apps/api/src/donations/donations.service.ts:118-152 | In every run a donation worth points has exactly one row, of its member and points, which waits until the verdict is carried out and is then credited exactly if the donation was accepted. |
| `Credits.VerdictStays` | apps/api/src/donations/donations.service.ts:118-152 | The first verdict is final. |
| `WalletLimits.ReceivedKeepsOnce` | apps/api/src/donations/donation-gateway.service.ts:241-279 | A gateway payment id never has two donations, nor a donation two ledger rows. |
| `WalletLimits.CreditedOnce` | apps/api/src/donations/donation-gateway.service.ts:228-281 | In every run no donation, gateway payment or event registration is credited twice. |
| `Events.EventTable.CreateRegistration` | apps/api/src/events/events.service.ts:428-460 | Refused for a missing event, a full one or a second registration, in this order; else one registration more. |
| `Events.JoinExactly` | apps/api/src/events/events.service.ts:428-460 | A place is given exactly at an event that exists, with fewer seats taken than there are, to a member who has none; and the refusals. |
| `Events.LeaveExactly` | apps/api/src/events/events.service.ts:417-426 | Leaving gives up exactly one's own place. |
| `Events.SeatsAdd` | apps/api/src/events/events.service.ts:436-447 | Seats are counted per event, one for each registration. |
| `Events.CapacityExactly` | apps/api/src/events/events.service.ts:119-132 | An edit sets the capacity as asked and touches no registration. |
| `Events.RunKeepsInv` | apps/api/src/events/events.service.ts:448-457 | In every run nobody is registered twice for an event. |
| `Events.StepFits` | apps/api/src/events/events.service.ts:429-447 | One step overbooks an event exactly if it sets the capacity below the number registered. |
| `Events.NeverOverbookedExactly` | apps/api/src/events/events.service.ts:429-447 | In every run, an event is never overbooked exactly if no edit does that. |
| `Events.EditOverbooks` | apps/api/src/events/events.service.ts:428-460 | A run: one place taken, a registration refused, let in after the capacity is raised to 2, and the event overbooked when it is set back to 1. |
| `ReferralGraph.ChainLoops` | apps/api/src/members/members.service.ts:655-666 | The walk ends on every finite graph, also a cyclic one, and answers exactly whether the member is met above the referrer or the chain repeats. |
| `ReferralGraph.MemberTable.AssertReferrerValid` | apps/api/src/members/members.service.ts:631-667 | The verdict on a proposed referrer, with every error in the source's order. |
| `ReferralGraph.MemberTable.Register` | apps/api/src/member-auth/member-auth.service.ts:73-108 | A fresh member under an eligible referrer of the same organisation. |
| `ReferralGraph.MemberTable.Update` | apps/api/src/members/members.service.ts:211-275 | The referrer column changes only past all checks; an absent field leaves it, null clears it. |
| `ReferralGraph.MemberTable.Remove` | apps/api/src/members/members.service.ts:544-576 | Only a DRAFT is removed, and its referrals are unlinked. |
| `ReferralGraph.CycleExactly` | apps/api/src/members/members.service.ts:626-630 | A new edge closes a cycle exactly when the referrer is the member or lies below it. |
| `ReferralGraph.LoopExactly` | apps/api/src/members/members.service.ts:655-666 | On a forest the check raises "loop" exactly when the new edge would close a cycle. |
| `ReferralRules.VerdictExactly` | apps/api/src/members/members.service.ts:631-667 | On a forest, the verdict on a referrer in terms of the two members and the forest with the new edge; a SUSPENDED, DECEASED or REJECTED one is refused. |
| `ReferralRules.RegisterExactly` | apps/api/src/member-auth/member-auth.service.ts:73-108 | A registration goes through exactly without a referrer or under an eligible one of the organisation. |
| `ReferralRules.UpdateExactly` | apps/api/src/members/members.service.ts:211-275 | An update goes through exactly for an editable member of theirs whose referrer is kept, cleared, or set to an eligible member of the organisation whose edge closes no cycle. |
| `ReferralRules.RemoveExactly` | apps/api/src/members/members.service.ts:544-576 | A removal goes through exactly for a DRAFT of theirs; its edges go with it, and nothing else changes. |
| `ReferralRules.OthersStay` | apps/api/src/members/members.service.ts:211-275 | Organisations never change, statuses by a status change only, and new members are drafts. |
| `ReferralRules.NewEdgeEligible` | apps/api/src/members/members.service.ts:652-654 | On any graph, an operation makes an edge only to a member that is eligible at that time. |
| `ReferralRules.EdgesEligible` | apps/api/src/members/members.service.ts:631-667 | In every run, each edge was there at the start or was made at a step at which its referrer was eligible. |
| `ReferralGraph.ApplyKeepsForest` | apps/api/src/members/members.service.ts:247-275 | Register, update, remove and status changes keep a same-organisation forest. |
| `ReferralGraph.AlwaysForest` | apps/api/src/members/members.service.ts:631-667 | So does every run. |
| `ReferralGraph.NetworkCounts` | apps/api/src/referrals/referrals.service.ts:456-475 | On any graph, cyclic or not, the tree ends and shows a member once per chain of at most five edges up to the root. |
| `ReferralGraph.NetworkUnderReferrer` | apps/api/src/referrals/referrals.service.ts:460-473 | Every node hangs below its own referrer. |
| `ReferralGraph.NetworkExactly` | apps/api/src/referrals/referrals.service.ts:445-475 | On a forest the tree holds exactly the members within five referral edges of the root, each once. |
| `ReferralRules.ChildrenInOrder` | apps/api/src/referrals/referrals.service.ts:460-473 | The children of a node are in the order of the table. |
| `ReferralRules.NodeChildren` | apps/api/src/referrals/referrals.service.ts:456-475 | Above the depth limit a node has exactly these children, in this order. |
| `Upgrades.TiersUpTo` | apps/api/src/referrals/volunteer-batch.util.ts:25-27 | Exactly the tiers of no higher rank. |
| `Upgrades.TierLadder` | apps/api/src/referrals/volunteer-batch.util.ts:25-27 | The tiers in their order, written out. |
| `Upgrades.MemberAccount.AwardBatchRewardForTier` | apps/api/src/referrals/referrals.service.ts:103-118 | The upsert loop adds the missing tiers only. |
| `Upgrades.MemberAccount.UpgradePlan` | apps/api/src/payments/payments.service.ts:101-186 | Checks on the member as read, then a compare-and-swap on status and plan with charge and rewards. |
| `Upgrades.CommitExactly` | apps/api/src/payments/payments.service.ts:101-160 | When an upgrade goes through, and the refusals, over the member as read and as it is. |
| `Upgrades.ChargedExactly` | apps/api/src/payments/payments.service.ts:137-186 | It costs what the target's fee exceeds the fee agreed with the member, or else its plan's, with no row at 0; the agreed fee lapses, and the rewards up to the new tier are there once. |
| `Upgrades.AwardedFrom` | apps/api/src/referrals/referrals.service.ts:103-118 | From the rewards of one tier, awarding a higher one gives exactly the rewards of that tier, without duplicates. |
| `Upgrades.FinishKeepsInv` | apps/api/src/payments/payments.service.ts:126-186 | A commit from any earlier read keeps rewards, charges and rank in step. |
| `Upgrades.UpgradesBounded` | apps/api/src/payments/payments.service.ts:126-186 | Over tiered plans, in every interleaving: at most three upgrades, charges add up to at least the rise from the first agreed or plan fee to the last and to exactly that when no upgrade was to a cheaper plan, rewards exactly those of the current tier. |
| `Upgrades.BackAndForth` | apps/api/src/payments/payments.service.ts:126-134 | With two active plans one of which has no tier, there is a run with any number of upgrades from any plan. |
| `Upgrades.UpgradesEndExactly` | apps/api/src/payments/payments.service.ts:126-134 | Unboundedly many upgrades are possible exactly for a member on a plan when there are two such plans; otherwise no run has more than four. |
| `Upgrades.FourUpgrades` | apps/api/src/payments/payments.service.ts:126-134 | Four are reached, from an untiered plan no longer on offer through all tiers. |
| `Calendar.SetDate` | apps/api/src/common/date.util.ts:10 | Day of the month changes, time of day stays. |
| `Calendar.SetMonth` | apps/api/src/common/date.util.ts:8 | From the first of a month, exactly the first of the month asked for. |
| `Calendar.AddMonths` | apps/api/src/common/date.util.ts:4-12 | The three in-place steps compute the clamped date. |
| `Calendar.DayNumbersOrdered` | apps/api/src/common/date.util.ts:14-16 | The day-number model orders dates as the calendar does and is injective. |
| `Calendar.FirstOfYear` | apps/api/src/common/date.util.ts:14-16 | Days are counted from 1 January 1970, and years begin on 1 January. |
| `Calendar.DaysInMonthIsGregorian` | apps/api/src/common/date.util.ts:14-16 | Day 0 of the next month gives the Gregorian length exactly unless the month is February of year 0. |
| `Calendar.MovedDate` | apps/api/src/common/date.util.ts:4-12 | The month index moves by exactly n, the day is clamped, the time of day stays. |
| `Calendar.MovedMonotone` | apps/api/src/common/date.util.ts:4-12 | Monotone on calendar days. |
| `Calendar.MovedTwice` | apps/api/src/common/date.util.ts:4-12 | Two moves reach at most the day of one move and no more than three days before it, equal for days up to 28, and equal exactly when the month in between is long enough. |
| `Calendar.MovedTwiceGap` | apps/api/src/common/date.util.ts:9-10 | The gap of three days occurs. |
| `Calendar.MovedLater` | apps/api/src/common/date.util.ts:4-12 | A positive number of months always leads to a later time. |
| `Reminders.WindowsPartition` | apps/api/src/members/member-expiry.scheduler.ts:19-22 | The windows cut time into India days. |
| `Reminders.WindowTimes` | apps/api/src/members/member-expiry.scheduler.ts:19-22 | Windows begin at 18:30 UTC and last a day, and the first holds the present. |
| `Reminders.SendExpiryReminders` | apps/api/src/members/member-expiry.scheduler.ts:79-101 | The nested loops send what one run is to send, and count it. |
| `Reminders.RunCount` | apps/api/src/members/member-expiry.scheduler.ts:79-101 | In one run a member is reminded once, exactly if ACTIVE with an end 30, 7 or 1 India days ahead, and else not at all. |
| `Reminders.NobodyElse` | apps/api/src/members/member-expiry.scheduler.ts:79-101 | Only members of the table are reminded. |
| `Reminders.EachReminderOnce` | apps/api/src/members/member-expiry.scheduler.ts:75-101 | With one run per India day, each of the three reminders reaches a member who stays ACTIVE with unchanged end exactly once if its day is among the runs; members not ACTIVE or without an end get none, and there are no other reminders. |
| `Numbering.ParseDecimal` | apps/api/src/common/numbering.service.ts:50 | A decimal numeral parses back to the counter. |
| `Numbering.PadExactly` | apps/api/src/common/numbering.service.ts:50 | Padding puts zeros in front up to the width, and no more. |
| `Numbering.DoubledStands` | apps/api/src/common/numbering.service.ts:52-55 | Any text with its dollar signs doubled is put in as it is. |
| `Numbering.Patterns` | apps/api/src/common/numbering.service.ts:52-55 | The other replacement patterns stand for the text before, the token, and the text after. |
| `Numbering.NoLeadingZero` | apps/api/src/common/numbering.service.ts:50 | No numeral but that of 0 begins with a zero. |
| `Numbering.NumberingService.Next` | apps/api/src/common/numbering.service.ts:37-56 | One counter advances by one and the number is its format, a missing row being created with the defaults. |
| `Numbering.SeqSurvives` | apps/api/src/common/numbering.service.ts:52-54 | Replacing the prefix or year placeholder, by whatever text, leaves a `{SEQ}`. |
| `Numbering.SameFrame` | apps/api/src/common/numbering.service.ts:52-54 | In four-digit years the text around the sequence number keeps its extent on both sides. |
| `Numbering.SeqSlice` | apps/api/src/common/numbering.service.ts:50-55 | Cutting off that text and parsing gives the counter back. |
| `Numbering.FormatInjective` | apps/api/src/common/numbering.service.ts:49-55 | Two equal numbers come from one counter value, whatever the years, prefix and valid format. |
| `Numbering.CountersGrow` | apps/api/src/common/numbering.service.ts:43-47 | A counter strictly grows with each of its calls, and no call touches another's. |
| `Numbering.NumbersNeverRepeat` | apps/api/src/common/numbering.service.ts:33-56 | Over any calls for any organisations and kinds, no number of one series is issued twice. |
| `Numbering.DefaultFormatValid` | prisma/schema.prisma:62-73 | The default format passes the settings check. |
| `Numbering.DefaultStem` | prisma/schema.prisma:62-73 | The default format has its prefix for a stem, for every prefix without a brace or dollar sign. |
| `Numbering.DefaultNumber` | prisma/schema.prisma:62-73 | What a default number of each kind looks like. |
| `Numbering.KindsApart` | prisma/schema.prisma:62-73 | Default numbers of different kinds are never the same. |
| `Numbering.SeriesMeetExactly` | apps/api/src/common/numbering.service.ts:37-56 | Whatever the organisations and kinds of two calls, over formats with a stem their numbers are equal exactly if stem, four-digit year and counter are. |
| `Numbering.OrganisationsMeet` | prisma/schema.prisma:339 | Two new organisations start a kind with the same number, whose column is unique over all. |
| `Csv.ReadCell` | apps/web/src/lib/csv.ts:7-11 | A reader gets an escaped cell back, with quotes, commas and line feeds. |
| `Csv.ReadRecord` | apps/web/src/lib/csv.ts:12 | ... and a printed line. |
| `Csv.ReadTable` | apps/web/src/lib/csv.ts:12 | ... and all data lines, except that an empty last line reads as the final line break. |
| `Csv.CellExactly` | apps/web/src/lib/csv.ts:7-12 | An exported cell is empty without a value, the text as it is without quote, comma and line feed, and else quoted. |
| `Csv.ReadIsLong` | apps/web/src/lib/csv.ts:10 | No text shorter than the escaped form reads as given records: the escaping is needed. |
| `Csv.RoundTrip` | apps/web/src/lib/csv.ts:4-13 | Headers and cells all come back exactly when no header needs escaping, there is a column, and a single column does not end in an empty cell. |
| `ResetCodes.MemberPasswordReset.RequestCode` | apps/api/src/member-auth/member-password-reset.service.ts:43-66 | As one step: a new code, with all older ones retired, exactly when the account may have one and none was sent within the cooldown. |
| `ResetCodes.MemberPasswordReset.Confirm` | apps/api/src/member-auth/member-password-reset.service.ts:80-118 | Checks the latest usable code: counts a wrong try, or uses the code up and sets the password. |
| `ResetCodes.RequestKeepsInv` | apps/api/src/member-auth/member-password-reset.service.ts:51-66 | A request keeps codes spaced and all but the last used up. |
| `ResetCodes.GuessKeepsInv` | apps/api/src/member-auth/member-password-reset.service.ts:88-113 | A confirmation keeps the limits on tries and successes. |
| `ResetCodes.CodeLimits` | apps/api/src/member-auth/member-password-reset.service.ts:51-113 | In every run of requests and confirmations that do not overlap: at most one live code, no code succeeds twice or takes more than five wrong tries, codes at least 60 s apart. |
| `ResetCodes.AnswerExactly` | apps/api/src/member-auth/member-password-reset.service.ts:80-118 | In such runs a confirmation succeeds exactly with the latest code, unused, younger than ten minutes, with fewer than five wrong tries; a wrong guess is told how many of the five are left, and all else that the code has expired. |
| `ResetCodes.SentExactly` | apps/api/src/member-auth/member-password-reset.service.ts:51-66 | In such runs a code is sent, good for ten minutes and the only usable one, exactly if the latest is a minute old. |
| `ResetCodes.WrongTryRate` | apps/api/src/member-auth/member-password-reset.service.ts:51-104 | In such runs wrong tries within any T ms number at most 5 * (T / 60000 + 2). |
| `ResetRaces.StepKeepsTries` | apps/api/src/member-auth/member-password-reset.service.ts:51-113 | With every statement apart, counters still equal the wrong tries made, and confirmations in flight bound their excess. |
| `ResetRates.CheckExactly` | apps/api/src/member-auth/member-password-reset.service.ts:51-58 | A request gets past its check exactly if no code is less than a minute old. |
| `ResetRates.CreateExactly` | apps/api/src/member-auth/member-password-reset.service.ts:60-66 | Its code is good until ten minutes from its start. |
| `ResetRates.RetireExactly` | apps/api/src/member-auth/member-password-reset.service.ts:60-63 | Retiring marks exactly the unused codes as used. |
| `ResetRates.ReadExactly` | apps/api/src/member-auth/member-password-reset.service.ts:80-92 | A confirmation gets past its lookup exactly with the latest usable code and fewer than five tries counted. |
| `ResetRates.WriteExactly` | apps/api/src/member-auth/member-password-reset.service.ts:93-113 | It counts a wrong guess, and a right one resets the password exactly if the code is still unused. |
| `ResetRaces.SucceedsOnce` | apps/api/src/member-auth/member-password-reset.service.ts:106-113 | However requests and confirmations overlap, no code succeeds twice. |
| `ResetRaces.TriesBounded` | apps/api/src/member-auth/member-password-reset.service.ts:88-97 | A code takes at most 4 wrong tries more than the greatest number of confirmations in flight; 5 when none overlap. |
| `ResetRaces.TriesAttained` | apps/api/src/member-auth/member-password-reset.service.ts:88-97 | For every number in flight the bound is reached. |
| `ResetRaces.TotalTries` | apps/api/src/member-auth/member-password-reset.service.ts:51-97 | All wrong tries of a run whose codes span T ms number at most n * (T / 60000 + 1) * (4 + c), with at most n requests and c confirmations in flight at once. |
| `ResetRaces.StepKeepsLive` | apps/api/src/member-auth/member-password-reset.service.ts:60-66 | Live codes and requests past their retiring statement together stay within the requests in flight. |
| `ResetRaces.LiveBounded` | apps/api/src/member-auth/member-password-reset.service.ts:51-66 | There are never more live codes than requests in flight at once. |
| `ResetRaces.LiveAttained` | apps/api/src/member-auth/member-password-reset.service.ts:51-66 | For every number in flight the bound is reached, with all codes sent at once. |
| `ResetRaces.CodesSpaced` | apps/api/src/member-auth/member-password-reset.service.ts:51-66 | With at most n requests in flight, any n + 1 consecutive codes span 60 s. |
| `ResetRaces.OneAtATime` | apps/api/src/member-auth/member-password-reset.service.ts:51-66 | Requests that do not overlap leave at most one live code, and codes 60 s apart. |
| `ResetRates.FiveExactly` | apps/api/src/member-auth/member-password-reset.service.ts:88-97 | With nothing in flight at the end, a code took at most five wrong tries exactly if each wrong confirmation was let past while the counter and those in flight against the code were below five. |
| `ResetRates.WindowRate` | apps/api/src/member-auth/member-password-reset.service.ts:51-97 | Whatever overlaps, wrong tries looked up within any T ms number at most n * (T / 60000 + 2) * (4 + c), with at most n requests and c confirmations in flight at once. |
| `Throttle.RecentIsSuffix` | apps/e2e/e2e/support/api.ts:112 | The filter drops a prefix of sorted timestamps. |
| `Throttle.FilterKeeps` | apps/e2e/e2e/support/api.ts:111-112 | What the gate keeps are always its latest acquisitions, and all others have left the window. |
| `Throttle.GrantKeeps` | apps/e2e/e2e/support/api.ts:113-116 | A granted pass keeps any `limit + 1` consecutive acquisitions at least `windowMs` apart. |
| `Throttle.OldestLeaves` | apps/e2e/e2e/support/api.ts:118 | After the computed wait fewer than `limit` timestamps remain. |
| `Throttle.ThrottleGate.constructor` | apps/e2e/e2e/support/api.ts:103-107 | A new gate satisfies the invariant with nothing acquired. |
| `Throttle.ThrottleGate.Attempt` | apps/e2e/e2e/support/api.ts:111-119 | Any caller's pass, whatever the interleaving, keeps the spread of all acquisitions; it is granted or gets its wait. |
| `Throttle.ThrottleGate.Acquire` | apps/e2e/e2e/support/api.ts:109-121 | A lone waiter succeeds after at most one computed wait. |

## Left out

- Web pages, controllers, guards, audit, notices, lookups, documents, OCR, notifications: they pass data on and hold no invariant over several operations.
- Payment and SMS gateways, signatures, hashing, encryption: foreign calls; a verified callback or webhook is an input event, and hash equality stands for a right code.
- Money movement: a transfer is created before its compare-and-swap, so only what the rows record is claimed.
- Interleaving inside `createRequest`, the referral cap, the referrer check with its write, and a donation claim with its ledger row: no lock or transaction joins their parts, and each is one step here.
- Wallet.WalletService.AwardPointsForApproval: the eligibility checks before the cap and the tier-dependent points are parameters.
- Wallet.WalletService.RecordApprovedDonation: the lookup and the unique constraint are one step, and receipt numbers are not modelled; staff-recorded donations are the case without a gateway id.
- Wallet.WalletService.CreateWithdrawal: amounts are reals, without rounding to two decimals; payout details copied to the request are left out.
- Wallet.WalletService.MarkPayoutProcessing: repeats of one payout id count as the unique constraint does, and the failure reason is not kept.
- Payments.Database.FinalizePayment: amounts, modes and the remarks of fees are left out, one clock reading stands for the two that the source takes within a request, and the tier rewards given on activation (apps/api/src/payments/payments.service.ts:312-318) are in `Upgrades`, whose runs start from them.
- Payments.Database.UpgradeMember: the checks on plans and tiers, the amount and the rewards are in `Upgrades`; here a flag tells whether there is a charge.
- Payments.Database.ExpireOverdueMembers: the members' order is a parameter; members registered or removed during the job are in `PaymentRuns` or left out.
- PaymentRuns.PaymentSafety: the members and counters are one organisation's; members are not removed within these runs, edits are of the joining date and the plan only, a plan standing for its terms, and the row locks that transactions take are not modelled, which leaves more interleavings than there are.
- PaymentRuns.RunLaws: what a deletion takes along is in `Removal`, for one deletion after any run; requests of a deleted member that go on afterwards are left out.
- Gap-freeness of receipts: a renewal that loses on the unique constraint still consumes a number, so only uniqueness is claimed.
- ReferralGraph.MemberTable.Update: roles are one flag (creator or admin), and columns other than the referrer are left out.
- ReferralGraph.MemberTable.Register: the identity checks on mobile and Aadhaar number before the referrer lookup are left out, and so is finding the referrer by code.
- ReferralGraph.MemberTable.Remove: read and deletion are one step here; apart, with the payments and history that hang on the draft, they are in `Removal`.
- Upgrades.MemberAccount.UpgradePlan: fees are reals, plans stay as they are during a run, and the receipt and history rows are in `Payments`.
- Calendar.AddMonths: local time has a fixed offset, without daylight saving, and dates beyond the range of a Date object are not cut off.
- Similarity.JaroWinklerSimilarity: reals instead of floating point, and `trim().toLowerCase()` is an arbitrary function on strings.
- Filling the result map of `dedupeCheck`, legacy writers of pending event points and the retired PENDING withdrawals as a starting status.
- Events.EventTable.CreateRegistration: the checks on the event's status and the member's before the transaction are left out, and the lock on the event row is why it is one step.
- Numbering.FormatInjective: years of four digits.
- Numbering.SeriesMeetExactly: formats that do not come to `stem-{YYYY}-{SEQ}` are left to `FormatInjective`, within one series.
- Csv.RoundTrip: a line feed is the record break, and carriage returns are ordinary characters; keys of a row object are in insertion order.
- ResetCodes.MemberPasswordReset.RequestCode: the availability checks and the SMS itself are left out, and its statements are apart in `ResetRaces` only.
- ResetCodes.CodeLimits: each request and confirmation is one step on a clock that does not go back; what holds when they overlap is in `ResetRaces`.
- ResetCodes.WrongTryRate: the rate is for requests and confirmations that do not overlap; `ResetRates.WindowRate` is the one for those that do.
- Throttle.ThrottleGate.Acquire: a gate with limit 0, which never grants, is excluded; other waiters are covered by `Attempt`.
