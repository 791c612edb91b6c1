# NetCam: a model of its hard parts

NetCam runs a paid WiFi hotspot: an API keeps payments, vouchers, devices, sessions and
withdrawals; an agent on the gateway enforces who is online and meters traffic. This
project models the state machines behind it and proves what they keep over whole runs.
`dafny verify dfyconfig.toml` checks everything.

| file | what it models |
|---|---|
| `payouts.dfy` | withdrawals, the balance and the payout protocol with an unreliable provider |
| `ssentezo.dfy` | the provider's client: retries and the sure/uncertain classification |
| `fees.dfy` | the fee schedule, its table and the dashboard's search |
| `payments.dfy` | mobile-money payments reconciled from stale reads |
| `money.dfy` | payments and withdrawals in one run |
| `entitlement.dfy`, `entitlement_runs.dfy`, `entitlement_steps.dfy` | vouchers, device slots, sessions, billing, sweeps; what each step does, row by row |
| `api_list.dfy` | the list the agent syncs to |
| `class_ids.dfy`, `admission.dfy`, `admission_runs.dfy`, `admission_steps.dfy` | class IDs, registry, firewall set, byte counters, sync; what each command does |
| `syncs.dfy` | what repeated syncs write, and whom the firewall lets through after one |
| `networks.dfy`, `firewall.dfy` | router segments and the generated firewall |
| `walled_garden.dfy` | API list, sync and firewall together: which packets pass |
| `metering.dfy` | traffic from the gateway's counters to the vouchers' bills |
| `usage.dfy`, `dns_log.dfy`, `dns_attribution.dfy` | attribution of bytes to apps; the DNS index and log reader; which answers go to the name asked for |
| `presence.dfy` | router presence and the router tree |
| `tallies.dfy`, `earnings.dfy`, `ledger.dfy`, `book_rows.dfy`, `ledger_windows.dfy` | reports over sales and the books, which rows they count, and how far back they reach |
| `trackers.dfy` | the up/down trackers and the alert cooldown |
| `ordered_maps.dfy`, `sets.dfy`, `options.dfy` | JavaScript's Map as a sequence of pairs; set sizes; stock types |

Code that updates state in place is a class or a method with loops, proved equal to a
specification function; what that function does is stated in the tables' own terms, and
the theorems are about it and about runs of events. A
database statement or transaction is one atomic step, and in the payout and payment
protocols every await is a point where other steps, or a crash, may come between.
Redemptions, logins, suspensions and sweeps are one step each, because the code protects
nothing smaller. Amounts are integers, byte shares and megabytes are reals.

## What turned out false

The code is modelled as it is. Where a natural claim fails, the project holds a concrete
failing case and the exact condition.

- A payout can be refunded although it was paid: the age of a "not found" answer is
  taken when it is acted on, not when it was asked for (`Payouts.PayoutsAreSafeExactlyWhen`).
- A paid payment can be overwritten as FAILED by the write that follows a timed-out
  deposit call (`Payments.MatchedSurvivesExactlyWhen`); the earnings it takes back may
  already be withdrawn, and the balance then no longer adds up
  (`Money.WithdrawnWasEarnedExactlyWhen`, `Payouts.NeverOverdrawn`).
- The dashboard's largest withdrawable amount can be zero although something fits
  (`Fees.MaxWithdrawable`), and the fee table can show a row below the minimum
  (`Fees.TableShowsOnlyAllowedAmounts`).
- An admission that finds no class ID leaves the device in the firewall and out of the
  registry (`AdmissionRuns.BackedSurvivesExactlyWhen`).
- A phone that redeemed two vouchers is listed twice. Unless its two sessions agree on
  segment and speeds and expire less than five minutes apart, or were both served already,
  the gateway still rewrites it at the next sync (`ApiList.ListIsDistinctExactlyWhen`,
  `Syncs.PairsSettleExactlyWhen`); ten minutes apart or more it does at every sync
  (`Syncs.ConflictNeverSettles`), and what one sync does not settle none does
  (`Syncs.SettlesAfterOneOrNever`).
- Unblocking a device, or lowering a package's device limit, can leave a voucher with more
  devices than its limit (`EntitlementRuns.CapForever`).
- Bytes of a device that leaves before they are drained are never reported
  (`Usage.NothingIsLostExactlyWhen`).
- Upload device names can collide although the configuration check passes
  (`Networks.UploadDevicesDistinctExactlyWhen`).
- Routers on or below a cycle of parents vanish from the tree (`Presence.ShownExactlyWhen`).
- A DNS question under a serial used again keeps its old place and can be forgotten after
  one new question (`DnsAttribution.FoundAgainExactlyWhen`).
- A DNS log line longer than the read limit stops the reader
  (`DnsLog.PollMovesOnExactlyWhen`), emptying the log throws away what was not read yet
  (`DnsLog.TruncationLosesNothingExactlyWhen`), and when emptying fails the lines of the
  first window are parsed twice (`DnsLog.FailedTruncationRereads`).
- A summary from "2026-02-31", read as 3 March, misses sales of 1 March. A range misses
  nothing exactly when its start is read at most a day past the first local time in it
  (`LedgerWindows.MissesNothingExactlyWhen`), as for every date that exists.
- A "recovered" alert can be recorded without its "down" (`Trackers.RecordedAlternatesExactlyWhen`).

## Model

| member | source | states |
|---|---|---|
| Payouts.PayoutsAreSafeExactlyWhen | apps/api/src/finance/withdrawals.service.ts:282-375 | over every interleaving of request, claim, send, lost or late delivery, poll, webhook, manual resolve and crash, no withdrawal reaches the provider twice and none that ended FAILED, REJECTED or CANCELLED was paid, if and only if delivery delay plus answer latency is at most five minutes |
| Payouts.RefundedYetPaidIsUnsafe | apps/api/src/finance/withdrawals.service.ts:341-353 | for every timing past five minutes, a concrete run in which "not found" is answered before the request lands and acted on after it was paid, so paid money is also refunded |
| Payouts.RunKeepsInv | apps/api/src/finance/withdrawals.service.ts:282-375 | the inductive invariant behind it, tying rows, requests in flight, status answers in hand and the provider's record, holds along every run from a state that has it |
| Payouts.InvImpliesSafe | apps/api/src/finance/withdrawals.service.ts:282-375 | that invariant implies safety while delivery and latency together stay within five minutes |
| Payouts.TerminalForever | apps/api/src/finance/withdrawals.service.ts:224-268 | once a withdrawal is SUCCESS, FAILED, REJECTED or CANCELLED, no run of any events changes its row |
| Payouts.NeverOverdrawn | apps/api/src/finance/withdrawals.service.ts:102-130 | what is held stays within what was earned at every moment of a run exactly when no succeeded payment is overwritten while its money is held or paid out; then the clip at zero never acts and earned = available + on hold + withdrawn + fees |
| Payouts.CoveredSurvivesExactlyWhen | apps/api/src/finance/withdrawals.service.ts:102-130 | at each step that cover is lost exactly by the loss of a payment larger than the available balance |
| Payouts.LostEarningOverdraws | apps/api/src/finance/withdrawals.service.ts:102-130 | 3,000 earned and withdrawn, the payment then overwritten as failed: 3,000 is held, nothing is earned and the parts no longer add up |
| Payouts.BalanceAddsUp | apps/api/src/finance/withdrawals.service.ts:119-129 | for any rows, the four parts add up to what was earned exactly when the held total does not exceed it |
| Payouts.HeldByStatus | apps/api/src/finance/withdrawals.service.ts:110-122 | the held total is the on-hold part plus paid-out amounts plus their fees |
| Payouts.WithdrawalsService.Request | apps/api/src/finance/withdrawals.service.ts:152-215 | a request inserts one REQUESTED row with the schedule's fee exactly when amount and fee fit the available balance; else it changes nothing and returns the fee schedule's own refusal, or that the balance is short |
| Payouts.WithdrawalsService.Claim | apps/api/src/finance/withdrawals.service.ts:283-287 | the claim moves a row to PROCESSING exactly when it was REQUESTED, and touches no other row |
| Payouts.WithdrawalsService.FinishSend | apps/api/src/finance/withdrawals.service.ts:299-319 | after the provider's reply a row still PROCESSING becomes SUCCESS on a success and FAILED on a failure or refusal, completed at that time; an uncertain or pending reply, or another status, changes nothing |
| Payouts.WithdrawalsService.ApplyStatus | apps/api/src/finance/withdrawals.service.ts:341-359 | a status answer makes a row still PROCESSING SUCCESS or FAILED as it says, completed at that time; "not found" makes it FAILED only past five minutes after sending, measured when acted on; anything else changes nothing |
| Payouts.WithdrawalsService.Reject | apps/api/src/finance/withdrawals.service.ts:224-232 | rejection succeeds exactly on a REQUESTED row and changes only that row; an unknown row and one in another status are refused alike |
| Payouts.WithdrawalsService.Cancel | apps/api/src/finance/withdrawals.service.ts:234-246 | cancellation needs a known row, the requester or a super admin, and the status REQUESTED, refused in that order |
| Payouts.WithdrawalsService.Resolve | apps/api/src/finance/withdrawals.service.ts:253-268 | manual resolution writes the outcome given and its time over exactly a PROCESSING row; an unknown row and one in another status are refused alike and stay |
| Payouts.AnswersSettle | apps/api/src/finance/withdrawals.service.ts:253-375 | in the runs: a reply to a send, an acted-on status answer or a resolution that says success leaves its PROCESSING row SUCCESS and completed, one that says failure leaves it FAILED, any other leaves all rows as they were |
| Payouts.OnlyAnswersSettle | apps/api/src/finance/withdrawals.service.ts:253-375 | no other step of the runs settles a row: PROCESSING ends in no other way |
| Payouts.WithdrawalsService.PollProcessing | apps/api/src/finance/withdrawals.service.ts:331-339 | a poll takes distinct PROCESSING rows sent at least 15 seconds ago, at most 50 and all of them when fewer |
| Ssentezo.PostWithRetry | apps/api/src/payments/ssentezo.gateway.ts:46-57 | a request is repeated only after tries that never left this box, at most the retry limit, and the outcome is that of the first other try or of the last one allowed |
| Ssentezo.InitiateWithdrawal | apps/api/src/payments/ssentezo.gateway.ts:110-155 | a payout counts as refused exactly without credentials or on an answer below 500 that is no acceptance, as accepted exactly on an accepted try with a readable status, which it reports, and else as uncertain |
| Fees.ValidateFeeSchedule | apps/api/src/finance/withdrawal-fees.ts:30-38 | names the first rule a schedule of any values breaks; it breaks none exactly when all values are whole and non-negative, within the provider's limits and ordered, with bands of at least 1,000 |
| Fees.LoadFeeSchedule | apps/api/src/finance/withdrawals.service.ts:50-59 | the schedule in force is the stored fields over the default's when together they are valid; without a row, with an unreadable one or an invalid one it is the default; so it is always valid |
| Fees.SetThenLoad | apps/api/src/finance/withdrawals.service.ts:61-70 | a schedule comes into force exactly as it was set, when it is valid; a refused one changes nothing |
| Fees.FeeByBand | apps/api/src/finance/withdrawal-fees.ts:41-47 | every allowed amount is charged the base fee plus one step for each full band below it |
| Fees.FeeForAgreesWithApi | apps/web/src/pages/Withdrawals.tsx:20-25 | on every valid schedule and any number typed, the dashboard's preview accepts and charges exactly what the API does |
| Fees.FeeMonotone | apps/api/src/finance/withdrawal-fees.ts:45-46 | a larger allowed amount never pays a smaller fee |
| Fees.TotalStrictlyIncreasing | apps/api/src/finance/withdrawal-fees.ts:45-46 | amount plus fee strictly increases with the amount |
| Fees.FeeTiers | apps/api/src/finance/withdrawal-fees.ts:50-59 | the table loop ends and lists the first bands that have a row, in order, up to the limit |
| Fees.EveryAmountInOneTier | apps/api/src/finance/withdrawal-fees.ts:50-59 | with enough rows every allowed amount lies in exactly one tier, whose fee is the fee the API charges |
| Fees.ShortTableIsHonest | apps/api/src/finance/withdrawal-fees.ts:50-59 | a cut-off table is never wrong: an allowed amount is in row i exactly when that is its band's row, and then with its own fee |
| Fees.TableShowsOnlyAllowedAmounts | apps/api/src/finance/withdrawal-fees.ts:52-57 | rows hold only allowed amounts exactly when the minimum is at most one past the first band |
| Fees.TableCanStartBelowMinimum | apps/api/src/finance/withdrawal-fees.ts:52-57 | a valid schedule with minimum 5,000 whose first row starts at 1,001 |
| Fees.MaxWithdrawable | apps/web/src/pages/Withdrawals.tsx:130-142 | the search returns the largest affordable amount when some repeated halving of the search end fits, and zero otherwise; so its answer is right exactly when some half fits or the minimum does not |
| Fees.MaxWithdrawableRightWhen | apps/web/src/pages/Withdrawals.tsx:130-142 | something fits exactly when the minimum does, which any half that fits implies; and some half always fits once twice the minimum less one does |
| Fees.ZeroCanBeWrong | apps/web/src/pages/Withdrawals.tsx:130-142 | with 3,000 available under the default schedule 500 fits, yet the answer is zero |
| Payments.OneVoucherPerPaidPayment | apps/api/src/payments/payments.service.ts:134-201 | under any interleaving of stale reconciles, SUCCESS payments and customers' vouchers are in bijection with matching customer and package at every moment of a run exactly when no late failure write of it hits a succeeded payment; and then the provider confirmed each, with amount and currency absent or matching |
| Payments.MatchedSurvivesExactlyWhen | apps/api/src/payments/payments.service.ts:66-70 | the bijection survives a step exactly when the step is not the unguarded failure write on a payment that already succeeded |
| Payments.LateFailureLosesSuccess | apps/api/src/payments/payments.service.ts:66-70 | that step is reachable: deposit call times out, a webhook confirms, the failure is written last |
| Payments.SettledIsAbsorbing | apps/api/src/payments/payments.service.ts:166-201 | a settled payment never changes, the late failure write apart |
| Payments.ReconcileStaysMatched | apps/api/src/payments/payments.service.ts:180-201 | one reconcile from a stale read keeps the bijection; a lost race leaves no orphan voucher |
| Payments.RunKeepsInv | apps/api/src/payments/payments.service.ts:134-201 | the invariant of reconciles in progress holds along every orderly run |
| Payments.PaymentsService.CreatePayment | apps/api/src/payments/payments.service.ts:32-55 | a PENDING payment is inserted exactly for an active package priced within the limits, before the provider is asked; the refusals are told apart |
| Payments.PaymentsService.RecordReply | apps/api/src/payments/payments.service.ts:57-84 | a refused deposit writes FAILED over the row, whatever it has become by then; an accepted one writes nothing |
| Payments.ReadsStayTrue | apps/api/src/payments/payments.service.ts:135-139 | in every run, late failure writes included, a reconcile acts on its payment's own customer, package and amount however stale its read, and no pending payment has a voucher |
| Payments.EarnedFallsExactlyWhen | apps/api/src/payments/payments.service.ts:66-70 | the money that counts as earned falls exactly at the late failure write on a succeeded payment, by that payment's whole amount |
| Money.WithdrawnWasEarnedExactlyWhen | apps/api/src/finance/withdrawals.service.ts:102-130 | in joint runs of payments and withdrawals, whose balance reads the payment table, what is requested, in flight or paid out stays within the payments that count as succeeded at every moment exactly when no late failure write takes back more than is then still available |
| Money.CoveredSurvivesExactlyWhen | apps/api/src/finance/withdrawals.service.ts:102-130 | the same at one step of either kind |
| Money.StepIsShadowed | apps/api/src/finance/withdrawals.service.ts:102-108 | to the withdrawals every joint step is a step of their own runs, in which earnings rise or fall by what the payment table says |
| Money.PaidAndTakenBackOverdraws | apps/api/src/payments/payments.service.ts:66-70 | 3,000 paid, confirmed and withdrawn, and the failure of the timed-out deposit call written last: a joint run that overdraws |
| Payments.PaymentsService.Apply | apps/api/src/payments/payments.service.ts:141-201 | a PENDING payment whose answer agrees becomes FAILED when that says so, and SUCCESS with a new last voucher for its customer and package when that says so and the package exists; in every other case nothing changes |
| Payments.FinishSettles | apps/api/src/payments/payments.service.ts:141-201 | the same of every finish in the runs, however stale its read |
| Payments.StaysPendingExactlyWhen | apps/api/src/payments/payments.service.ts:141-180 | a finish leaves a PENDING payment PENDING exactly when the answer disagrees in reference, amount or currency, is not final, or reports success of a payment whose package is gone |
| Entitlement.AccessService.RedeemCode | apps/api/src/vouchers/vouchers.service.ts:127-205 | a redemption changes the tables exactly as `Redeem`, whose every answer and effect the rows below state |
| Entitlement.AccessService.LogIn | apps/api/src/vouchers/vouchers.service.ts:258-330 | a login without a code uses the entitled device, else the MAC's paid unused voucher, else a hand-over, exactly as specified |
| EntitlementSteps.RedeemAnswers | apps/api/src/vouchers/vouchers.service.ts:127-175 | each answer of a redemption and exactly when it is given, in the order of the checks |
| EntitlementSteps.RedeemConnects | apps/api/src/vouchers/vouchers.service.ts:134-205 | a redemption that connects: the MAC's own row holds its slot and was just seen; a full voucher lost its stalest holder that may go; a fresh voucher runs from now; the device's open session is ended and a new one opened at zero bytes; nothing else changes |
| EntitlementSteps.RefusedRedemptionDoes | apps/api/src/vouchers/vouchers.service.ts:127-175 | one that does not connect changes nothing, but past the end of the voucher, when the device still gets its slot and the voucher becomes EXPIRED |
| EntitlementSteps.LogInOfKnown | apps/api/src/vouchers/vouchers.service.ts:262-290 | a device with a running voucher is let in on the row seen last, keeping its open session or opening one |
| EntitlementSteps.LogInOfPayer | apps/api/src/vouchers/vouchers.service.ts:311-330 | else the voucher paid for last from this MAC is redeemed |
| EntitlementSteps.LogInOfChangedMac | apps/api/src/vouchers/vouchers.service.ts:333-374 | else the device of the same name seen last, within 15 minutes and confirmed absent, gives up its slot and its voucher is redeemed |
| EntitlementSteps.LogInOfStranger | apps/api/src/vouchers/vouchers.service.ts:258-374 | else nobody is let in and nothing changes |
| EntitlementSteps.PaidThenLoggedIn | apps/api/src/vouchers/vouchers.service.ts:311-330 | a voucher just paid for connects its payer: the next login of a MAC without a running voucher redeems that one |
| EntitlementSteps.ConnectedIsListed | apps/api/src/network-agent-bridge/network-agent-bridge.controller.ts:76-99 | whoever a redemption or a login connects has a slot, was just seen, has an open session, and, with time left, is named by the list the gateway syncs to at that moment |
| Entitlement.PaidVoucher | apps/api/src/vouchers/vouchers.service.ts:311-315 | the paid voucher is an unused one paid for from this MAC, the latest paid of those, if any exists |
| Entitlement.AccessService.FreeSlotIfFull | apps/api/src/vouchers/vouchers.service.ts:388-410 | on a full voucher the holder that leaves is the stalest that is idle or confirmed absent; with none the tables are unchanged and the answer is no |
| Entitlement.AccessService.StalestFirst | apps/api/src/vouchers/vouchers.service.ts:393-396 | the other slot holders, each once, in a stable order by last activity |
| Entitlement.FirstInOrderYields | apps/api/src/vouchers/vouchers.service.ts:396-405 | the first holder in that order that can give up its slot is the stalest such holder |
| Entitlement.Yielder | apps/api/src/vouchers/vouchers.service.ts:388-410 | the holder to release is one that may be released, the least recently seen of those, and is absent only when there is none |
| Entitlement.EntitledDevice | apps/api/src/vouchers/vouchers.service.ts:262-267 | the login picks the most recently seen unblocked, unreleased row of this MAC on a usable active voucher, if any exists |
| Entitlement.HandOverFrom | apps/api/src/vouchers/vouchers.service.ts:337-355 | a hand-over comes from the most recently seen device of the same name that is confirmed absent, if any |
| Entitlement.BilledSession | apps/api/src/sessions/sessions.service.ts:42-46 | traffic is billed to the newest open session of the MAC, if it has one |
| Entitlement.AccessService.SuspendVoucher | apps/api/src/vouchers/vouchers.service.ts:430-440 | a suspension sets the status and ends exactly the voucher's open sessions |
| Entitlement.AccessService.SetDeviceBlocked | apps/api/src/vouchers/vouchers.service.ts:443-465 | blocking flags the device and ends its open sessions; unblocking only clears the flag; a foreign device is refused |
| Entitlement.AccessService.ReportTraffic | apps/api/src/sessions/sessions.service.ts:34-105 | a report bills its samples one after another as specified, each also refreshing its device's name and last activity |
| Entitlement.AccessService.Sweep | apps/api/src/sessions/sessions.service.ts:129-167 | the three loops of the sweep together expire, deplete and close exactly what the specification says |
| EntitlementSteps.SweepDoes | apps/api/src/sessions/sessions.service.ts:129-167 | a sweep expires exactly the active vouchers past their end, depletes exactly the other active ones at their cap, ends exactly the open sessions of vouchers then not active, and changes nothing else |
| EntitlementSteps.SampleDoes | apps/api/src/sessions/sessions.service.ts:34-105 | a sample adds its bytes to the MAC's newest open session and to that session's voucher, names the device and marks it seen when there was traffic; nothing else changes |
| EntitlementSteps.SuspensionDoes | apps/api/src/vouchers/vouchers.service.ts:430-440 | a suspension writes the status and ends exactly the voucher's open sessions |
| EntitlementSteps.BlockingDoes | apps/api/src/vouchers/vouchers.service.ts:443-465 | blocking writes the flag and ends exactly the device's open sessions; unblocking only clears the flag |
| EntitlementRuns.StepKeepsDisciplineAndCap | apps/api/src/vouchers/vouchers.service.ts:134-205 | every step keeps session discipline, and no step but an unblock raises a voucher's slot holders above the larger of its limit and what it had |
| EntitlementRuns.DisciplineForever | apps/api/src/vouchers/vouchers.service.ts:177-187 | in every run a device has at most one open session, and only while unblocked, unreleased and on that session's voucher |
| EntitlementRuns.SessionsWithinSlots | apps/api/src/vouchers/vouchers.service.ts:177-187 | in every run open sessions on a voucher never outnumber its slot holders |
| EntitlementRuns.CapForever | apps/api/src/vouchers/vouchers.service.ts:134-161 | a run keeps every voucher within its device limit at every moment exactly when none of its unblocks takes back a slot of a full voucher and none of its package edits leaves a voucher fewer slots than holders |
| EntitlementRuns.CapSurvivesExactlyWhen | apps/api/src/vouchers/vouchers.service.ts:134-161 | at every step of any kind the cap survives exactly when the step is not one of those two |
| EntitlementRuns.EditStaysWithinCapExactlyWhen | apps/api/src/packages/packages.service.ts:39-46 | a package edit keeps the cap exactly when each of its vouchers keeps as many slots as it has holders |
| EntitlementRuns.EditCanExceedCap | apps/api/src/packages/packages.service.ts:39-46 | a run after which a package cut to one device has a voucher held by two |
| EntitlementRuns.UnblockStaysWithinCapExactlyWhen | apps/api/src/vouchers/vouchers.service.ts:443-465 | unblocking keeps the cap exactly when the device takes no slot back or a slot is free |
| EntitlementRuns.UnblockCanExceedCap | apps/api/src/vouchers/vouchers.service.ts:443-465 | a run after which a voucher for one device is held by two |
| EntitlementRuns.OnlyIdleOrAbsentLoseTheirSlot | apps/api/src/vouchers/vouchers.service.ts:388-405 | a redemption takes a slot only from a device of that voucher idle for ten minutes or confirmed absent |
| EntitlementRuns.OnlyAbsentHandOver | apps/api/src/vouchers/vouchers.service.ts:333-374 | a login takes a slot only from a device idle for ten minutes or confirmed absent |
| EntitlementRuns.LifecycleForever | apps/api/src/vouchers/vouchers.service.ts:127-175 | between any two moments of any run a voucher never returns to UNUSED or from expired or depleted to ACTIVE, SUSPENDED is final, dates are written once and usage never shrinks |
| EntitlementRuns.DatedForever | apps/api/src/vouchers/vouchers.service.ts:165-172 | in every run an unused voucher was never activated, an active, expired or depleted one was, and only an activated one has an expiry |
| EntitlementRuns.ExpiryForever | apps/api/src/vouchers/vouchers.service.ts:165-172 | in every run an activated voucher expires exactly as long after its activation as its package lasted at that moment, or never, whatever was edited since |
| EntitlementRuns.BilledForever | apps/api/src/sessions/sessions.service.ts:59-84 | in every run a voucher's recorded usage equals the bytes of all its sessions, across devices and reconnections |
| EntitlementRuns.SweepLeavesNothingOverdue | apps/api/src/sessions/sessions.service.ts:131-166 | after a sweep no ACTIVE voucher is past expiry or at its cap, and no session is open on a voucher that is not ACTIVE |
| ApiList.DeviceFilterIsRedundant | apps/api/src/network-agent-bridge/network-agent-bridge.controller.ts:80-86 | in every reachable state a session is listed exactly when it is open on an ACTIVE unexpired voucher: the filter on devices removes nothing |
| ApiList.ListIs | apps/api/src/network-agent-bridge/network-agent-bridge.controller.ts:76-99 | the list holds one request for each open session of an unblocked, unreleased device on an active voucher not past its end, in the order of the rows, with its MAC, segment, speeds, and the end of the voucher or a day from now |
| ApiList.ListIsDistinctExactlyWhen | apps/api/src/network-agent-bridge/network-agent-bridge.controller.ts:80-99 | in every reachable state the list names each MAC once exactly when no MAC is live on two vouchers |
| ApiList.ListCanRepeatAMac | apps/api/src/vouchers/vouchers.service.ts:177-187 | redeeming two vouchers from one phone leaves both sessions open and listed |
| Syncs.SyncIsIdleExactlyWhen | apps/network-agent/src/admission.ts:75-97 | for any list and state a sync writes nothing exactly when every placeable session is served already and nobody unlisted is left |
| Syncs.SettlesExactlyWhen | apps/network-agent/src/admission.ts:34-40 | after one sync against any list, a second one writes nothing exactly when nobody unlisted is left and each device's sessions all agree with the one that decides for it: the first not served before, or the last when the firewall lacked the device |
| Syncs.SettlesAfterOneOrNever | apps/network-agent/src/admission.ts:75-100 | against any list: when each device's sessions agree with the one that decides for it before the first sync, none of any number of later syncs writes but to revoke somebody unlisted; when not, every later sync writes |
| Syncs.PairsSettleExactlyWhen | apps/network-agent/src/admission.ts:34-40 | with at most two sessions a device this agreement is: every two agree on segment and speeds and expire less than five minutes apart, or both were served before |
| Syncs.ThreeCanSettle | apps/network-agent/src/admission.ts:34-40 | three sessions that settle although two of them disagree |
| Syncs.OneEntryServesBothExactlyWhen | apps/network-agent/src/admission.ts:34-40 | one registry entry can serve two sessions exactly when they agree on segment and speeds and expire less than ten minutes less a millisecond apart |
| Syncs.ConflictNeverSettles | apps/network-agent/src/admission.ts:34-40 | two listed sessions of one MAC that no entry can serve keep every sync writing, from any state |
| Syncs.LetThroughAfterSync | apps/network-agent/src/admission.ts:75-100 | after a sync the firewall holds exactly the listed devices that can be placed and, of those it held before, the listed ones and those admitted since the sync began |
| ClassIds.Shaping.AllocateMinor | apps/network-agent/src/tc.ts:33-40 | an allocation gives the MAC's own ID, else the last freed, else the next; failing when past the last, having used the next up |
| ClassIds.Shaping.FreeMinor | apps/network-agent/src/tc.ts:143-151 | removal frees exactly the MAC's ID |
| ClassIds.Shaping.FreeAll | apps/network-agent/src/tc.ts:102-103 | a rebuild frees every live ID, each once |
| ClassIds.SoundForever | apps/network-agent/src/tc.ts:29-40 | after any run, failed allocations and rebuilds included, live IDs are distinct, the free list has no repeats and no live ID, and together they are exactly 0x10 up to the lesser of the next ID and 0xfff1 |
| ClassIds.ReservedNeverLive | apps/network-agent/src/tc.ts:19-27 | no run hands out the default class, its queue handle or the root |
| ClassIds.FailsExactlyWhenFull | apps/network-agent/src/tc.ts:33-40 | an allocation fails exactly when the MAC has no ID and all IDs from 0x10 to 0xfff0 are live |
| ClassIds.FreedIsNextGiven | apps/network-agent/src/tc.ts:33-40 | the ID freed last is the next one given out, and only to a MAC that has none |
| ClassIds.FullMeansCapacity | apps/network-agent/src/tc.ts:24-25 | and then exactly as many MACs hold IDs as there are IDs |
| ClassIds.CapacityMeansFull | apps/network-agent/src/tc.ts:24-25 | as many holders as there are IDs leave no ID free |
| Admission.Agent.AdmitDevice | apps/network-agent/src/admission.ts:25-59 | an admission leaves exactly the specified registry, firewall, IDs and classes, including when it finds no ID |
| AdmissionSteps.AdmitDoes | apps/network-agent/src/admission.ts:25-59 | what an admission does field by field: nothing for a device served already or placed nowhere; else the firewall is opened, and the entry, its age and readings, the class and the ID follow the router as stated; out of IDs only the firewall has changed |
| Admission.Agent.ApplyShapingForMac | apps/network-agent/src/tc.ts:131-139 | says whether the MAC already had a class, whose counters then carry over |
| Admission.Agent.RemoveShapingForMac | apps/network-agent/src/tc.ts:141-152 | deletes the MAC's class and frees its ID, losing only what was not yet reported |
| Admission.Agent.RevokeDevice | apps/network-agent/src/admission.ts:61-67 | a revocation removes the device from firewall, shaping and registry and nobody else |
| AdmissionSteps.RevokeDoes | apps/network-agent/src/admission.ts:61-67 | a revocation removes the device from the firewall and, when registered, its entry, its class and its ID, and nothing of any other device |
| Admission.Agent.SyncWithApi | apps/network-agent/src/admission.ts:75-100 | a sync is the admissions in list order and then the revocation of the unlisted older ones; it returns how many placed sessions were of MACs the firewall lacked |
| AdmissionSteps.RestoredCounts | apps/network-agent/src/admission.ts:80-91 | with room for everyone, what a sync counts as restored is exactly the placeable requests whose device the firewall did not let through |
| Admission.Agent.SweepExpired | apps/network-agent/src/index.ts:90-97 | the sweep revokes exactly the entries whose expiry has passed |
| AdmissionSteps.ExpiryDoes | apps/network-agent/src/index.ts:90-97 | after it exactly the entries that end later are left, and the firewall lost exactly the others |
| Admission.Agent.Meter | apps/network-agent/src/index.ts:103-122 | a reading reports exactly what was counted since the last one and never less than nothing |
| AdmissionSteps.ReportDoes | apps/network-agent/src/index.ts:103-113 | both counters are reported from where they were last read, never negative, and the readings are noted; nothing else changes |
| AdmissionSteps.TrafficDoes | apps/network-agent/src/index.ts:103-113 | what a registered device moves is counted, and is all of it in its next report, after which nothing is left to report |
| AdmissionRuns.BytesAreConserved | apps/network-agent/src/index.ts:103-113 | over any run of admissions, speed and router changes, revocations, sweeps, reports, traffic, restarts and reboots, for each MAC and direction counted = reported + unreported + lost with a deleted class |
| AdmissionRuns.RunKeepsInv | apps/network-agent/src/admission.ts:25-67 | registered MACs are exactly those with a class ID, counters never run behind what was read, and no class is ownerless, along every run |
| AdmissionRuns.NewClassStartsAtZero | apps/network-agent/src/tc.ts:106-128 | a recycled class ID never inherits another MAC's counter |
| AdmissionRuns.OutOfIdsExactlyWhen | apps/network-agent/src/admission.ts:42-46 | an admission runs out of IDs exactly for a new placeable MAC while every ID is live |
| AdmissionRuns.BackedSurvivesExactlyWhen | apps/network-agent/src/admission.ts:42-48 | the firewall stays within the registry at every step except an admission that runs out of IDs, which leaves it open |
| AdmissionRuns.FirewallCanOutgrowRegistry | apps/network-agent/src/admission.ts:42-48 | on any configuration with a segment, a run of admissions of well-formed MAC addresses, one more than there are IDs, ends with a device let through and not registered |
| AdmissionRuns.RoomMeansPlaced | apps/network-agent/src/admission.ts:25-59 | with no more devices than IDs every placeable admission succeeds |
| AdmissionRuns.AdmitAllServes | apps/network-agent/src/admission.ts:80-91 | after the admissions of a list each MAC is let through and registered as its last placeable session asks, and nobody else changed |
| AdmissionRuns.RevokeAllRemoves | apps/network-agent/src/admission.ts:93-97 | the revocations remove exactly the devices listed for them, one command each |
| AdmissionRuns.SyncConverges | apps/network-agent/src/admission.ts:75-100 | after a sync every listed placeable device is served, nobody unlisted from before it remains, later admissions survive it, and the firewall stays within the registry |
| AdmissionRuns.SecondSyncIsIdleExactlyWhen | apps/network-agent/src/admission.ts:34-40 | a second sync against the same list of distinct MACs writes nothing, and changes nothing, exactly when no unlisted older device is left |
| Networks.CheckNetworks | apps/network-agent/src/config.ts:90-101 | the check accepts exactly lists without a repeated interface, subnet or router, and names the first repeat |
| Networks.FindsWhereItBelongs | apps/network-agent/src/config.ts:115-122 | on an accepted configuration a device is placed on n exactly when n bears its router ID, or no segment does and its address is in n, or neither helps and n is the only segment |
| Networks.PlacementIgnoresOrder | apps/network-agent/src/config.ts:115-122 | on an accepted configuration the answer does not depend on the order of the segments |
| Networks.UploadDevicesDistinctExactlyWhen | apps/network-agent/src/config.ts:46-101 | upload device names are distinct on an accepted configuration exactly when no VLAN ID is used on two parent interfaces |
| Networks.UploadDevicesCanCollide | apps/network-agent/src/config.ts:46-101 | an accepted configuration with two segments sharing one upload device |
| Firewall.GenerateRuleset | apps/network-agent/src/nft.ts:19-83 | the loops produce exactly the chains of the specification, in order |
| Firewall.ChainsAre | apps/network-agent/src/nft.ts:19-83 | every chain rule by rule: per segment the WAN for authorized MACs and then the cut, the control port closed and DNS, DHCP and portal open, port 80 redirected to the segment's gateway; established traffic after the forward rules and before the input rules; masquerading on the WAN |
| Firewall.ForwardIsTheWalledGarden | apps/network-agent/src/nft.ts:39-51 | for any segments and connection state, a packet from a segment is forwarded exactly when it leaves by the WAN and its MAC is authorized; all other ingress is accepted |
| Firewall.ControlPortIsClosed | apps/network-agent/src/nft.ts:54-66 | only a new connection from a segment to the control port is dropped on input |
| Firewall.PortalCatchesTheUnauthorized | apps/network-agent/src/nft.ts:68-74 | a port-80 packet of a segment is redirected to that segment's own gateway exactly when its MAC is not authorized, and nothing else is redirected |
| Firewall.EvaluateConcat | apps/network-agent/src/nft.ts:39-51 | first-match evaluation of joined rule lists: the first list decides whenever one of its rules applies |
| WalledGarden.PassesExactlyWhenEntitled | apps/network-agent/src/admission.ts:75-100 | after a sync to the list of any reachable state of the API, a packet from a segment is forwarded exactly when it leaves by the WAN and its MAC has a live session that can be placed, or was let through before and has a live session or was admitted since the sync began; its web requests go to the segment's portal exactly when not |
| WalledGarden.ListHoldsWhoHasTime | apps/api/src/network-agent-bridge/network-agent-bridge.controller.ts:80-99 | in a reachable state the list names exactly the MACs with an open session on an ACTIVE unexpired voucher |
| Metering.CountedIsBilled | apps/network-agent/src/index.ts:99-129 | in any joint run of gateway and API, what the kernel counted for a MAC is billed to sessions of its devices, under way in a sample, without an open session when it arrived, lost with a failed delivery or a reboot, not read yet, or lost with its class; and vouchers record what their sessions were billed |
| Metering.DeliveredIsBilledExactlyWhen | apps/api/src/sessions/sessions.service.ts:42-84 | a sample that arrives is billed in full to sessions of its own MAC exactly when that MAC has an open session |
| Usage.SplitAcrossApps | apps/network-agent/src/usage.ts:128-141 | the updating loops build exactly the specified split |
| Usage.SplitConserves | apps/network-agent/src/usage.ts:122-141 | per direction the shares add up to exactly what was billed, each is non-negative and at most what was seen, "Other" apart, which also gets the rest |
| Usage.UsageCollector.RunTick | apps/network-agent/src/usage.ts:155-238 | a tick leaves exactly the specified devices, baselines and network history |
| Usage.TickDoes | apps/network-agent/src/usage.ts:155-238 | a tick keeps exactly the admitted devices; each is billed what its counter gained, zero for a new baseline, and that goes to its total, to its apps' totals, to what is pending and, per second, to its history of 120 points |
| Usage.UsageCollector.DrainAppUsage | apps/network-agent/src/usage.ts:271-277 | a drain hands over the pending bytes, each count rounded, and leaves none pending |
| Usage.AppBytesAreConserved | apps/network-agent/src/usage.ts:155-239 | over any run of ticks and drains, for every device, app and direction: billed = drained + pending + forgotten when the device left |
| Usage.AppTotalsAddUp | apps/network-agent/src/usage.ts:225-233 | in every run each device's app totals add up to its total |
| Usage.NothingIsLostExactlyWhen | apps/network-agent/src/usage.ts:155-160 | a run forgets nothing exactly when no device leaves while bytes of it are pending |
| Usage.LeavingLosesPending | apps/network-agent/src/usage.ts:155-160 | a device that downloads 100 bytes and is gone at the next tick: they are never reported |
| Usage.NetworkPointIsSumOfDevices | apps/network-agent/src/usage.ts:203-238 | the network's newest point is the sum of the devices' newest points |
| Usage.PushKeepsNewest | apps/network-agent/src/usage.ts:92-95 | a history holds exactly the newest 120 of all points ever pushed |
| Usage.BilledIsGrowth | apps/network-agent/src/usage.ts:170-177 | over any run in which a device stays admitted and its class counter never falls, its total grows by exactly what the counter grew |
| DnsLog.RememberKeepsNewest | apps/network-agent/src/dns-log.ts:35-42 | remembering in the newest n entries gives the newest n entries of remembering without a bound |
| DnsLog.BoundedIsNewest | apps/network-agent/src/dns-log.ts:35-42 | for any log the bounded index is exactly the newest part of the unbounded one |
| DnsLog.UnboundedIsLastWrites | apps/network-agent/src/dns-log.ts:35-38 | the unbounded index holds every key's last write, in the order of those writes |
| DnsLog.IndexHoldsMostRecent | apps/network-agent/src/dns-log.ts:35-42 | a key is in the index exactly when fewer than the bound of other keys were remembered after it, and then with its last app |
| DnsLog.BoundIsInvisibleExactlyWhen | apps/network-agent/src/dns-log.ts:96-103 | with times that never go back, lookups answer like an unbounded log exactly when at most 50,000 keys were remembered within a mapping's lifetime |
| DnsLog.DnsIndex.ParseLine | apps/network-agent/src/dns-log.ts:44-63 | a query is set under its serial, keeping the newest 5,000; an answer is remembered in both indexes under the app of the name asked for when that name has one, else of the name answered, and not at all when neither has; other lines change nothing |
| DnsLog.DnsIndex.AppFor | apps/network-agent/src/dns-log.ts:96-103 | the client's own fresh mapping first, then the shared one; the same as over unbounded logs while at most 50,000 keys are fresh |
| DnsAttribution.AnswerGoesToTheQuestion | apps/network-agent/src/dns-log.ts:49-63 | a question under a serial not remembered, lines that ask under fewer than 5,000 other serials, and its answer: the answer is attributed to the app of the name asked for |
| DnsAttribution.FoundAgainExactlyWhen | apps/network-agent/src/dns-log.ts:49-53 | a question is found again exactly when no more new serials asked since than it had room for |
| DnsAttribution.ReusedSerialIsForgotten | apps/network-agent/src/dns-log.ts:49-53 | a serial used again keeps its old place: the oldest of 5,000, asked under again, is forgotten at the next new serial |
| DnsAttribution.AppIsOfLatestAnswer | apps/network-agent/src/dns-log.ts:96-103 | with at most 50,000 fresh keys an address leads to the app of the newest answer that gave it to this client in the last two hours, else to anyone, else to none |
| DnsLog.QueryStaysFindable | apps/network-agent/src/dns-log.ts:49-53 | evicting the oldest query never evicts the one just set |
| DnsLog.LinesOfConcat | apps/network-agent/src/dns-log.ts:81-84 | reading a text in pieces cut after newlines yields the same nonempty lines as reading it whole |
| DnsLog.LogReader.PollDnsLog | apps/network-agent/src/dns-log.ts:66-93 | one poll reads exactly as specified, late writes and failed truncations included, and hands the parser the complete lines of the window |
| DnsLog.PollDoes | apps/network-agent/src/dns-log.ts:66-93 | one poll reads from where the last one stopped, or from the start of a file that became shorter, up to the last newline within 2 MiB; only past 2 MiB the file is emptied, with all written since |
| DnsLog.EachLineParsedOnce | apps/network-agent/src/dns-log.ts:66-93 | over any appends and polls and across all passes over the file, the lines parsed are exactly the nonempty lines of the text passed over, in order, and what was written is what was emptied and what is in the file |
| DnsLog.NothingLostExactlyWhen | apps/network-agent/src/dns-log.ts:89-92 | while no truncation fails, the text passed over and the file make up all that was written exactly when every truncation found the file read to its end |
| DnsLog.TruncationLosesNothingExactlyWhen | apps/network-agent/src/dns-log.ts:74-92 | a truncation finds it so exactly when the poll came to a backlog within the read limit that ended a line and nothing was written meanwhile |
| DnsLog.BurstLosesALine | apps/network-agent/src/dns-log.ts:74-92 | two MiB and a line written between two polls: the line is thrown away |
| DnsLog.FailedTruncationRereads | apps/network-agent/src/dns-log.ts:89-92 | when emptying the file fails, the next poll parses again the lines up to the first window's last newline, which this pass had parsed already, whatever was written meanwhile; it repeats something exactly when there is more than newlines before it |
| DnsLog.LineIsParsedTwice | apps/network-agent/src/dns-log.ts:89-92 | a run with one failed truncation in which a line is parsed twice |
| DnsLog.EveryByteAccounted | apps/network-agent/src/dns-log.ts:66-93 | over any run, failed truncations included: bytes read and bytes thrown away and bytes in the file are the bytes written and those read in passes that were then not emptied |
| DnsLog.PollMovesOnExactlyWhen | apps/network-agent/src/dns-log.ts:77-84 | a poll moves on exactly when a line ends within the read limit |
| DnsLog.LongLineStopsTheReader | apps/network-agent/src/dns-log.ts:77-84 | behind a line longer than the read limit no poll moves on, whatever is appended |
| Presence.ClientDevices | apps/api/src/network/network.service.ts:167-175 | a lease is a client exactly when it is online and is neither a router's MAC nor a router's address |
| Presence.ReasonIs | apps/api/src/network/network.service.ts:167-195 | a router is up by a ping, else by an online guest on a segment it carries, else by what lies below it; a guest is no router, by upper-case MAC, nor at a router's address |
| Presence.LastOfAnIdWins | apps/api/src/network/network.service.ts:196-198 | of routers with one id the last is taken |
| Presence.InferPresence | apps/api/src/network/network.service.ts:184-208 | the routers inferred up are the least set that holds every pinged or client-proven one and, with each, its parent, for any parent links including cycles; each with the first reason found |
| Presence.MarkAncestors | apps/api/src/network/network.service.ts:198-206 | the walk from one router ends on any graph and marks exactly the least set that holds it and is closed under parents, keeping reasons already given |
| Presence.ClosureIsUnique | apps/api/src/network/network.service.ts:184-208 | only one set of routers meets that description |
| Presence.BuildTree | apps/api/src/network/network.service.ts:82-87 | every router hangs exactly once: under its known parent or at the top |
| Presence.ShownExactlyWhen | apps/api/src/network/network.service.ts:82-87 | a router is in the tree exactly when its parent walk ends; routers on or below a cycle are not shown |
| Presence.CycleIsNotShown | apps/api/src/network/network.service.ts:82-87 | two routers that name each other as parent appear nowhere in the tree |
| Presence.AppearsAtMostOnce | apps/api/src/network/network.service.ts:82-87 | no router appears twice in the tree |
| Earnings.Summarise | apps/api/src/payments/earnings.service.ts:86-121 | the loop yields exactly the specified totals, days and groups |
| Earnings.SummaryConserves | apps/api/src/payments/earnings.service.ts:86-121 | the range total is the sum by day, by package and by source |
| BookRows.PaymentsCounted | apps/api/src/payments/earnings.service.ts:36-52 | exactly the successful payments since then are sales, in order, at their own amount, completion or else creation time, provider and package |
| BookRows.VouchersCounted | apps/api/src/payments/earnings.service.ts:40-59 | exactly the vouchers activated since then that no payment bought are sales, at their package's price |
| BookRows.SummaryTotals | apps/api/src/payments/earnings.service.ts:86-110 | today, week and range add up the sales of the last 1, 7 and n days |
| BookRows.SummaryRows | apps/api/src/payments/earnings.service.ts:112-120 | each package and each source has one row with the takings and the number of its own sales of the range, and none without sales |
| Earnings.SummaryDay | apps/api/src/payments/earnings.service.ts:98-105 | each day of the range holds exactly its own sales, mobile money plus vouchers making its revenue |
| Earnings.SummaryNests | apps/api/src/payments/earnings.service.ts:106-109 | with amounts that are never negative, today is at most the week and the week at most the range |
| Earnings.SummaryMissesNothing | apps/api/src/payments/earnings.service.ts:71-74 | in any calendar whose days last at most 48 hours, the window with its day of padding misses no sale of the range |
| Earnings.TileAgreesWithSummary | apps/api/src/payments/earnings.service.ts:63-67 | the overview tile and the summary, reading different windows, name the same takings for today |
| Tallies.RowOfTally | apps/api/src/payments/earnings.service.ts:110-118 | a group's row holds exactly its items: their sum, their number, the first one's label |
| Tallies.RowsAddUp | apps/api/src/payments/earnings.service.ts:110-118 | the rows of any grouping add up to all that was put in |
| Ledger.LedgerService.Create | apps/api/src/finance/ledger.service.ts:63-68 | an entry is stored exactly when valid; the books never hold an automatic category or an amount out of range |
| Ledger.LedgerService.Update | apps/api/src/finance/ledger.service.ts:70-83 | an edit replaces exactly a live entry, and only by a valid one |
| Ledger.LedgerService.Remove | apps/api/src/finance/ledger.service.ts:86-91 | a removal marks exactly a live entry and keeps it |
| BookRows.ValidateJudges | apps/api/src/finance/ledger.service.ts:170-193 | an entry is taken exactly when nothing is wrong with it, with its category trimmed; a refusal names the first thing that is wrong |
| BookRows.RangeAsked | apps/api/src/finance/ledger.service.ts:195-201 | the range is what was asked for, from the first of this month or until today for a text that is no date; it is refused when it ends before it starts |
| Ledger.LedgerService.Summarise | apps/api/src/finance/ledger.service.ts:99-167 | the loops over sales, entries and fees yield exactly the specified books and totals, from payments, vouchers and withdrawals read back to a day before the range; a bad range or a text that is no date is refused |
| BookRows.SalesPosted | apps/api/src/finance/ledger.service.ts:136-141 | exactly the sales of the range are posted, as income, filed by their source |
| BookRows.EntriesPosted | apps/api/src/finance/ledger.service.ts:106-109 | exactly the entries that still count and happened in the range are posted, on their side, under their category and UTC day |
| BookRows.WithdrawalsSent | apps/api/src/finance/ledger.service.ts:110-113 | exactly the successful withdrawals completed since then are read |
| BookRows.FeesPosted | apps/api/src/finance/ledger.service.ts:147-153 | of a withdrawal in the range only the fee is posted, as an expense; the amounts are added up beside the books |
| BookRows.MonthHolds | apps/api/src/finance/ledger.service.ts:131-133 | a month's row holds the income and the expense of its own postings, and a month without any has none |
| Ledger.BooksBalance | apps/api/src/finance/ledger.service.ts:116-166 | income rows, expense rows and profit equal the sums of the monthly columns |
| Ledger.RowsNeverMix | apps/api/src/finance/ledger.service.ts:116-147 | in the books of a valid ledger every row is all automatic or all manual, as flagged, automatic exactly for the reserved categories |
| Ledger.BooksMissNothing | apps/api/src/finance/ledger.service.ts:104-114 | when the queries reach every local time of the range, postings and withdrawn amounts are the same however far back one looks |
| LedgerWindows.MissesNothingExactlyWhen | apps/api/src/finance/ledger.service.ts:104-114 | whatever is in the tables, the books of a range miss nothing exactly when the midnight read for its start is at most a day past the first local time of the range |
| LedgerWindows.ExistingDatesMissNothing | apps/api/src/finance/ledger.service.ts:195-201 | in any zone less than a day from UTC, with UTC days in order, the books of a range that starts on a date that exists miss nothing |
| LedgerWindows.NoSuchDateMissesASale | apps/api/src/finance/ledger.service.ts:195-201 | in 2026 and three hours ahead of UTC, a summary from "2026-02-31", read as 3 March, is accepted and misses a payment of 1 March that lies in its range |
| Ledger.ProfitIsSalesLessCosts | apps/api/src/finance/ledger.service.ts:93-98 | over the same days the books and the earnings report, each reading its own window, agree on sales, and profit is sales and manual income less manual expenses and fees; withdrawn money is no cost |
| Trackers.InternetTracker.Check | apps/network-agent/src/host-health.ts:119-146 | raises exactly what the reference does with threshold 2 |
| Trackers.ApiTracker.Check | apps/network-agent/src/host-health.ts:148-171 | raises exactly what the reference does with threshold 4 |
| Trackers.AgentTracker.Check | apps/api/src/alerts/alerts-monitor.service.ts:55-85 | raises exactly what the reference does with threshold 2 |
| Trackers.AlertsAlternate | apps/network-agent/src/host-health.ts:119-171 | for any sequence of checks alerts alternate strictly, starting with "down", the last one being "down" exactly while the failing run is past the threshold |
| Trackers.OneDownPerOutage | apps/network-agent/src/host-health.ts:119-171 | there is one "down" for each failing run that reaches the threshold, however long it lasts |
| Trackers.RecordedAlternatesExactlyWhen | apps/api/src/alerts/alerts.service.ts:54-73 | what the alert hub records of an alternating tracker alternates exactly when no "down" that is followed by a recovery was raised within the cooldown of an earlier "down" |
| Trackers.RecoveryCanStandAlone | apps/api/src/alerts/alerts.service.ts:54-73 | two outages within one cooldown are recorded as down, back, back |

## Left out

- HTTP, guards, authentication, DTOs, the database engine, shell commands, files, SMS and WhatsApp: inputs, outputs and parameters stand for them, and kernel commands succeed.
- The provider's wire format and error texts: a try or a status answer is taken as already parsed; that "not found" is recognised by words in an error text is not modelled.
- Lost serialization races of a withdrawal request: the transaction is one step that either inserts or refuses.
- Entitlement.PaidVoucher: takes the payment behind a voucher as succeeded for good; the late failure write is in the payment runs.
- Voucher codes and their collisions, phone numbers, free launch vouchers, the other fields of packages, audit rows and notifications.
- Overlap of two redemptions of one voucher inside their awaits: the code protects nothing there, so no property is claimed.
- Commands the API sends to the agent on redeem, block, suspend and expiry: the gateway's runs take admissions and revocations in any order instead.
- The rows of hourly usage per app, TTL anomaly scores and device-type guesses.
- Interface and address updates of an open session, hostname trimming and the list of generic host names: a name too common to identify a device is taken as absent.
- Firewall element timeouts: an entry that times out in the kernel is an event of its own in the gateway's runs.
- Admission.Agent.Meter: reading a device's counters and noting them is a single step; in the code a re-admission during the wait replaces the entry that is then updated.
- Rate strings, bursts, fair queues and filters of traffic shaping; a class is its ID and its two byte counters.
- The text of the ruleset, IPv6 and the packet after address translation: rules are data under first-match evaluation, and masquerading is not modelled.
- Parsing of segment entries, conntrack and DNS lines, leases, and the app catalogue: parsed records are inputs, and the DNS log is one byte a character, and nobody but the reader empties or replaces it.
- Differences of connection counters between ticks, rates per app, and transient read failures of class counters.
- Sorting of report rows by amount, averages, success rates, all-time totals and the number of payments by status.
- Time zones and date arithmetic: the calendar is any function from times to day keys; which time a date's text names is a parameter.
- Liveness fields of the live view other than presence and the tree, and the merging of devices with vouchers there.
- Power, battery, disk and temperature alerts, and the agent's direct channel with its own cooldown.
