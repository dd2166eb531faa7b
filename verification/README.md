# Verified model of mint-sniper

A Dafny model of the parts of mint-sniper in which a mistake costs money or hides one: the
single-writer control loop and everything that feeds it, the fire fan-out and its wait for
inclusion, the delegated serial run, the calendar and date arithmetic behind the clock check,
and five smaller algorithms. Each module states what the code does and proves what it is for.

| file | models | form |
|---|---|---|
| `ControlLoop.dfy` | the control loop's state and the effect of each message | values; the specification of `Controller` |
| `Controller.dfy` | the loop itself, its locals as fields, nonces in an array updated in place | class |
| `ControlEffects.dfy` | what each message sends and leaves behind, said of the fields alone | lemmas |
| `ControlLedger.dfy` | what every run of messages keeps; the nonce law | lemmas |
| `ControlSystem.dfy` | the loop interleaved with all its senders over the 8-slot channel; when it stops for good | state machine |
| `ControlHistory.dfy` | who sent what, in what order, and what supervision does and does not report | lemmas |
| `PrepareOrder.dfy` | the clock and the channel together: the batch is signed before the automatic fire | lemma |
| `Inclusion.dfy` | waiting for a receipt by push, poll, or push that degrades to poll | methods proved against a trace |
| `FireFanOut.dfy` | one task per wallet: sends, waits, decision, exactly one report | methods and lemmas |
| `AckLabels.dfy` | which URL an acknowledgement is reported under | lemmas |
| `Delegated.dfy` | preflight and the serial run against an abstract account | functions, class, loop |
| `Calendar.dfy`, `HttpDate.dfy` | day numbers and the HTTP date parser | functions and lemmas |
| `Watchers.dfy` | the three watchers and the prepare timer, in logical time | methods and lemmas |
| `Audit.dfy` | the audit writer on the lossy broadcast bus | state machine and class |
| `Session.dfy` | session promotion and revocation, one SQL statement a step | state machine and class |
| `Base64Url.dfy` | base64url conversion of the WebAuthn page | functions, methods filling arrays |
| `Percentile.dfy` | interpolated percentiles over reals | functions and lemmas |
| `DeploymentSearch.dfy` | bisection for a contract's deployment block | method and lemmas |
| `Basics.dfy` | shared vocabulary | |

`dafny verify dfyconfig.toml` checks all of it.

Where an operation updates its state in place, the model has a class or a method that does, and
its contract says that the new state is a function of the old one; the lemmas are about that
function. Replies of endpoints, the database, the clock's overruns, the order of concurrent steps
and failures are arbitrary throughout: every main lemma ranges over all of them.

## What the code does that its comments do not say

- A copymint fire advances the nonces and leaves an armed batch in place, so the batch then goes
  out with nonces already used (`ControlLedger.CopymintMakesBatchStale`). Exactly this makes a
  wallet's nonces repeat (`ControlLedger.BroadcastNonces`).
- `FireNow` does not test the armed flag: an automatic fire queued behind a `Disarm` still
  broadcasts (`ControlSystem.FireBehindDisarm`).
- A prepare that re-reads the price and then fails to sign keeps the old batch beside the new
  price (`ControlLedger.HeldValue`), and the fire that follows sends the old value
  (`ControlLedger.FailedRepriceFiresOldValue`).
- Emptying `http_rpc_urls` through the API while armed makes the next seadrop re-prepare index an
  empty list, which ends the loop with the armed flag up. No other message ends it
  (`ControlLedger.DiesExactly`, `ControlLedger.EmptiedEndpointsEndTheLoop`).
- Arming outside timestamp mode sends to the loop's own channel and blocks for good when all eight
  slots are taken. That block and that end are the only ways in which the loop stops handling
  messages (`ControlSystem.StuckExactlyWhenBlocked`, `ControlSystem.EndReachable`).
- Supervision reports a watcher that returned an error and no other
  (`ControlHistory.SupervisionExactly`). A watcher whose stream ends returns normally: the loop
  then stays armed until someone else acts (`ControlHistory.ArmedWithoutWatcher`,
  `ControlHistory.AbandonedReachable`).
- `jitter_ms_min` above a non-zero `jitter_ms_max` panics in every wallet's task, and each wallet
  is reported as a panic (`FireFanOut.FireWallet`, `FireFanOut.ExactlyOneResult`).
- The deployment search can take one read more than the documented ceiling of the logarithm,
  exactly when the latest block is a power of two (`DeploymentSearch.DocumentedBoundFailsExactly`).
- The delegated run adds up gas at the price it polled before each send, while the account pays
  the price of inclusion, which the transaction only bounds (by a tip times a multiplier and twice
  the polled price); and it leaves out the gas of reverted mints. Short of saturation the report
  misses the spending by exactly that difference. If no mint was included below its polled price,
  the report is the spending exactly if it did not saturate, every mint paid the gas it was charged
  and no revert paid any (`Delegated.ReportedIsSpent`). Runs that report less than they spend:
  `Delegated.TipUnreported`, `Delegated.RevertsUnreported`.
- The acknowledged "estimated max spend" bounds the reported total and not the spending: at every
  mint price some run of one call, with exactly the estimated gas and polled price, spends more
  (`Delegated.EstimateIsNoMaximum`).
- Nothing excludes two delegated runs of one operator, or one restarted while the last transaction
  of a stopped run is pending. A run's nonce is the account's exactly as long as no other
  transaction of the operator has landed since it was loaded (`Delegated.FireSerially`); once
  behind, the run mints nothing more (`Delegated.BehindMintsNothing`).
- A backup is reported under the URL at its position in the list configured when the batch is
  fired, but it was warmed from the list configured at arming, without the URLs that do not parse.
  With the list unchanged every endpoint is reported under its own URL exactly if no URL that
  parses comes after one that does not (`AckLabels.LabelledExactly`); otherwise another endpoint
  is named (`AckLabels.MislabelledBySkipping`, `AckLabels.MislabelledByReplacing`).
- Promotion does not look at revocation: a revoked session can still be given admin tier, and only
  the lookup keeps it out (`Session.RevokedStillPromoted`).
- The audit writer's exit on a closed bus is never taken, because the writer holds a sender of
  that bus itself; the model has no such step.

## Model

| member | source | states |
|---|---|---|
| Controller.WarmConnections | mint-sniper/src/executor.rs:33-66 | the endpoints kept are those whose URL parses, in order, however they answer the warm-up |
| Controller.PrepareFire | mint-sniper/src/executor.rs:241-326 | a batch exists exactly if there is an endpoint, its three reads answer and every wallet signs; it holds one transaction per wallet at that wallet's own next nonce, and advances none |
| Controller.AdvanceNonces | mint-sniper/src/main.rs:1271-1277 | in place, each wallet of the batch moves on by one and every other wallet is as it was |
| Controller.AnyWallet | mint-sniper/src/main.rs:1273 | true exactly if the batch has a transaction of that address |
| Controller.Controller.constructor | mint-sniper/src/main.rs:636-692 | the loop starts with nothing armed, warmed, held or fired |
| Controller.Controller.Drop | mint-sniper/src/main.rs:1032-1049 | disarming lets go of all three tasks, the batch, the connections and the flag, and touches no nonce or target |
| Controller.Controller.HandleArm | mint-sniper/src/main.rs:695-933 | arming's full effect, its two refusals, and that it queues a prepare for itself exactly outside the scheduled mode |
| Controller.Controller.HandlePrepareMsg | mint-sniper/src/main.rs:935-1030 | the price moves only on a fresh quote, the batch only on a full signing, and a failed signing keeps the old batch |
| Controller.Controller.HandleFireNowMsg | mint-sniper/src/main.rs:1051-1143 | the held batch goes out with its own endpoints, or one is signed on the spot; either way everything is dropped after |
| Controller.Controller.FireJustInTime | mint-sniper/src/main.rs:1145-1195 | a fire signed on the spot advances nonces and leaves batch, flag and tasks alone |
| Controller.Controller.HandleSetTarget | mint-sniper/src/main.rs:1197-1232 | the old target's batch and tasks are gone before the new target is in force |
| Controller.Controller.HandleMsg | mint-sniper/src/main.rs:693-1262 | the fields change exactly as the loop's specification says, for every message |
| Controller.Controller.Serve | mint-sniper/src/main.rs:693-1262 | over any sequence of messages the fields are those of the specified run, so every lemma about runs holds of the loop |
| ControlEffects.CopymintEffect | mint-sniper/src/main.rs:1145-1195 | a copymint fire broadcasts the copied contract, calldata and value, once per wallet at its next nonce, over the warmed endpoints or the configured ones, if that can be signed, and otherwise nothing; nothing else changes |
| ControlEffects.FireNowEffect | mint-sniper/src/main.rs:1051-1143 | a fire broadcasts the held batch over its own endpoints, or else the bot's own mint signed on the spot, or nothing if that cannot be signed; nonces move by one for the batch's wallets, and the session is down |
| ControlEffects.PrepareEffect | mint-sniper/src/main.rs:935-1030 | which prepares do nothing, end the loop, keep a new batch (with what in it) or keep the old one, and which price each works with |
| ControlEffects.ArmEffect | mint-sniper/src/main.rs:695-933 | when an arm is refused; otherwise what is warmed, which tasks are started, that an old batch is dropped, and that nothing is fired |
| ControlEffects.DisarmEffect | mint-sniper/src/main.rs:1032-1049 | the session is down; target, price, nonces and log are as they were |
| ControlEffects.SetTargetEffect | mint-sniper/src/main.rs:1197-1232 | the session is down and the new watched address, calldata and price are in force; the fire target is not changed |
| ControlEffects.NoEffect | mint-sniper/src/main.rs:1234-1257 | a delegated run changes no field of the loop, and nothing does once it has ended |
| ControlLedger.RunKeeps | mint-sniper/src/main.rs:693-1262 | at every message boundary: armed iff a watcher is held iff exactly one of timer and re-prepare task is held; a held batch implies armed, warmed endpoints, current target and calldata; unarmed implies no warmed endpoints; every fire is accounted for |
| ControlLedger.HandleKeeps | mint-sniper/src/main.rs:693-1262 | one message keeps all of that |
| ControlLedger.HeldBatchLag | mint-sniper/src/main.rs:935-1030 | a held batch's nonce plus the copymint commits since it was signed is the wallet's next nonce |
| ControlLedger.HeldValue | mint-sniper/src/main.rs:969-1028 | a held batch's value differs from the current mint value exactly if a later prepare left another quote behind and failed |
| ControlLedger.FailedRepriceFiresOldValue | mint-sniper/src/main.rs:961-1028 | a run: arm, prepare, a prepare with another quote that fails to sign, fire; the batch held and broadcast has the old value beside the new price |
| ControlLedger.DiesExactly | mint-sniper/src/main.rs:960-961 | over every run the loop has ended if and only if some prepare was handled with endpoints warmed, in a mode that reads the price again, while the configured list was empty |
| ControlLedger.EmptiedEndpointsEndTheLoop | mint-sniper/src/main.rs:960-961 | a run: arm, prepare, empty the list, prepare; the loop has ended with the flag up and the batch held |
| ControlLedger.BroadcastNonces | mint-sniper/src/main.rs:1051-1195 | over every run with distinct addresses: a wallet's broadcast nonces are the loaded one and its successors, without gap or repeat, if and only if no consumed batch had a copymint commit after its prepare |
| ControlLedger.StaleRepeats | mint-sniper/src/main.rs:1069-1074 | a batch consumed after a copymint commit sends a nonce a second time |
| ControlLedger.RecentCopies | mint-sniper/src/main.rs:1179-1190 | copymint fires themselves always use the current nonce |
| ControlLedger.FreshIsConsecutive | mint-sniper/src/main.rs:1069-1118 | with no stale batch consumed, nonces are consecutive from the loaded one |
| ControlLedger.FiresHaveProviders | mint-sniper/src/executor.rs:416-418 | no run broadcasts a batch with no endpoint, so that error is never raised by the loop |
| ControlLedger.ArmThenPrepare | mint-sniper/src/main.rs:935-1010 | with healthy endpoints, arming and preparing leads to a held batch at the next nonces |
| ControlLedger.CopymintMakesBatchStale | mint-sniper/src/main.rs:1145-1195 | a concrete run: arm, prepare, copymint, fire sends the same nonce twice and the loop's count skips ahead |
| ControlLedger.UnarmedFire | mint-sniper/src/main.rs:1069-1118 | handled while disarmed, a fire broadcasts exactly if the wallets can be signed for there and then |
| ControlSystem.ExecuteKeeps | mint-sniper/src/main.rs:208 | over every interleaving the loop's state is that of the messages it handled, and the channel never exceeds its eight slots |
| ControlSystem.StepKeeps | mint-sniper/src/main.rs:578-602 | each step of a sender or of the loop keeps that |
| ControlSystem.AutoFiresBounded | mint-sniper/src/main.rs:878-883 | automatic fires never exceed successful arms, and each belongs to its own session, whose watcher tripped |
| ControlSystem.InterleavedNonces | mint-sniper/src/main.rs:1051-1195 | the nonce law over every interleaving of loop and senders |
| ControlSystem.BlockedForever | mint-sniper/src/main.rs:906-908 | a self-send into a full channel never completes, whatever anyone does |
| ControlSystem.StuckExactlyWhenBlocked | mint-sniper/src/main.rs:906-908 | in every reachable state the loop can finish no further message if and only if it is sending to itself with all eight slots taken, or has ended |
| ControlSystem.EndedExactly | mint-sniper/src/main.rs:960-961 | in every reachable state the loop has ended if and only if some message it handled was a re-prepare over an empty list |
| ControlSystem.EndReachable | mint-sniper/src/main.rs:960-961 | such an end is reached from an arm; the loop is stuck and the armed flag stays up |
| ControlSystem.BlockReachable | mint-sniper/src/main.rs:906-908 | that state can be reached: eight requests during one arm |
| ControlSystem.ArmStarts | mint-sniper/src/main.rs:843-931 | an accepted arm starts one watcher, supervised in every mode but timestamp mode, with its trigger task, and a timer exactly if the instant is known; a refused one starts nothing |
| ControlSystem.SelfSendStarts | mint-sniper/src/main.rs:906-931 | once the channel has room the loop's own prepare is queued last, the re-prepare task runs, and the loop receives again |
| ControlSystem.LetsGo | mint-sniper/src/main.rs:1032-1049 | a disarm, a fire or a new target stops the session's watcher, supervision, timer and re-prepare task, and not a trigger task that has its signal |
| ControlHistory.HandledInOrder | mint-sniper/src/main.rs:208 | over every interleaving the m-th message handled is the m-th message queued, whoever sent it; the rest is in hand or in the channel |
| ControlHistory.WhatEachSends | mint-sniper/src/main.rs:578-602 | over every run: prepares come exactly from the loop, timers and re-prepare tasks; a trigger task sends only fires, for a session that tripped; supervision sends only disarms, for a supervised session whose watcher failed |
| ControlHistory.SupervisionExactly | mint-sniper/src/main.rs:586-601 | a session's supervision has put a disarm into the channel if and only if its watcher returned an error under supervision and was neither aborted first nor is still waiting for a slot |
| ControlHistory.QuietEnd | mint-sniper/src/main.rs:586-601 | in every continuation of every run, the session of a watcher that ended normally has sent neither a disarm nor a fire |
| ControlHistory.ArmedWithoutWatcher | mint-sniper/src/main.rs:586-601 | once the current watcher has ended, the loop stays armed for it through every continuation in which nobody else queues a disarm, a fire or a new target |
| ControlHistory.AbandonedReachable | mint-sniper/src/watcher.rs:67-89 | a run reaches such a state: armed, supervised, live, and its watcher's stream ended |
| ControlHistory.PrepareHandledFirst | mint-sniper/src/main.rs:878-905 | if a session's timer gets its message in before its trigger task does, the loop handles them in that order |
| PrepareOrder.PreparedBeforeFired | mint-sniper/src/main.rs:878-905 | in a run whose steps happen in order of time, a session armed at a step's time for a target, whose timer at its latest beats the target and whose watcher trips no earlier than a watcher of that arm fires, has its prepare queued and handled before its automatic fire |
| PrepareOrder.SendsAfterTrip | mint-sniper/src/main.rs:878-883 | a trigger task's send is preceded by its own watcher's trip |
| ControlSystem.ArmedUntilTold | mint-sniper/src/main.rs:1032-1049 | once armed, the loop stays armed until it handles a disarm, a fire or a new target |
| ControlSystem.FireBehindDisarm | mint-sniper/src/main.rs:1051-1069 | some run handles a disarm, then the automatic fire of the session it disarmed, and broadcasts |
| Inclusion.WaitForReceipt | mint-sniper/src/inclusion.rs:167-210 | either path's reads form a legal trace that ends at the first read that finds the receipt, or at the timeout; pushed, a tick not yet seen when the wait began forces a second read at once |
| Inclusion.WaitPush | mint-sniper/src/inclusion.rs:177-196 | a tick published after a read began, or unseen when the wait began, forces another read as soon as both have happened, and without one or the ticker's death there is no second read; no wake-up is lost |
| Inclusion.WaitDegraded | mint-sniper/src/inclusion.rs:182-195 | after the ticker's death a read follows within every interval |
| Inclusion.WaitPoll | mint-sniper/src/inclusion.rs:197-202 | each read follows the end of the one before at exactly the interval |
| Inclusion.Changed | mint-sniper/src/inclusion.rs:182 | blocks until the first tick beyond the one seen, the death of the ticker, or the deadline |
| Inclusion.AwaitTick | mint-sniper/src/inclusion.rs:182-196 | the next push read is at the first new tick, and otherwise the wait is over for good reason |
| Inclusion.OutcomeMeaning | mint-sniper/src/inclusion.rs:205-208 | reads never overlap and stop at the first that finds the receipt; an inclusion is timed at the end of that read, within the timeout; a timeout means no read brought it in time |
| Inclusion.PromptPush | mint-sniper/src/inclusion.rs:177-196 | a receipt readable at some time is returned by the next tick |
| Inclusion.PromptPoll | mint-sniper/src/inclusion.rs:197-202 | it is returned in less than one poll interval |
| Inclusion.PromptDegraded | mint-sniper/src/inclusion.rs:182-195 | it is returned within one interval of the later of its appearance and the ticker's death |
| Inclusion.PollCount | mint-sniper/src/inclusion.rs:197-209 | poll mode makes at most timeout / interval + 1 reads, however long each takes |
| FireFanOut.SendRawTx | mint-sniper/src/executor.rs:358-364 | a send ends within its timeout whatever the endpoint does; acknowledged, refused and timed out are told apart exactly |
| FireFanOut.SendMeaning | mint-sniper/src/executor.rs:345-364 | an endpoint counts as acknowledging exactly if its acknowledgement comes within ten seconds, and costs that long or ten seconds |
| FireFanOut.SampleJitter | mint-sniper/src/executor.rs:190-196 | a sample lies in the configured range, and sampling panics exactly on an inverted non-zero range |
| FireFanOut.EveryJitter | mint-sniper/src/executor.rs:190-196 | every delay of the range can be drawn, both ends included |
| FireFanOut.PreferSequencerAck | mint-sniper/src/executor.rs:381-386 | the sequencer's own acknowledgement whenever it has one, else the backup's |
| FireFanOut.FirstIncluded | mint-sniper/src/executor.rs:650-655 | the first included attempt, none before it |
| FireFanOut.FirstNotSeen | mint-sniper/src/executor.rs:708-713 | the first attempt that was acknowledged and not seen |
| FireFanOut.AwaitInclusion | mint-sniper/src/executor.rs:571-592 | the outcome is one a wait on that endpoint can have, within the inclusion timeout |
| FireFanOut.RaceBackups | mint-sniper/src/executor.rs:524-601 | whatever order the backups end in: one slot each where it stands, filled exactly if it acknowledged, all over within one send and, if any acknowledged, one wait |
| FireFanOut.ArrivalOrderIsIrrelevant | mint-sniper/src/executor.rs:600 | the same results arriving in any two orders are joined to the same list |
| FireFanOut.Fallback | mint-sniper/src/executor.rs:605-648 | the replacing wait runs only if no backup reached its own, and begins when the last send is over, so it never adds a second wait |
| FireFanOut.FireWallet | mint-sniper/src/executor.rs:443-798 | a task dispatches at a delay of the jitter range, ends within it, one send and one wait, and panics exactly on an inverted jitter range |
| FireFanOut.FirePrepared | mint-sniper/src/executor.rs:405-803 | the whole batch is over within jitter, 10 s and one inclusion timeout, whatever the numbers of wallets and endpoints; it refuses exactly when there is no endpoint at all |
| FireFanOut.ResultMeaning | mint-sniper/src/executor.rs:650-797 | the asserted acknowledgements are always there; the branch for a sequencer acknowledgement without a wait is dead; the source is absent exactly if nothing was acknowledged; an inclusion time is given exactly if a receipt was seen |
| FireFanOut.DecisionMeaning | mint-sniper/src/executor.rs:650-797 | for any results at all: a success or revert is that of the first included attempt, with its inclusion time; a result not confirmed is that of the first acknowledged attempt; both report the sequencer's acknowledgement or else that very attempt's time and URL; a failure reports none |
| FireFanOut.FallbackPolls | mint-sniper/src/executor.rs:605-648 | if the sequencer alone acknowledged, the one attempt reported on is a wait on the first backup, or on the sequencer where there is none, begun when the last send was over |
| FireFanOut.AckMeaning | mint-sniper/src/executor.rs:663-674 | without a sequencer acknowledgement the reported time and URL are those of one backup that did acknowledge (which one, `DecisionMeaning` says), its URL being the configured one at its position; the other two times count to dispatch, never negative |
| AckLabels.LabelledExactly | mint-sniper/src/executor.rs:528 | with the list unchanged since warming, every endpoint is reported under its own URL if and only if no URL that parses comes after one that does not |
| AckLabels.ReportedIsAcknowledging | mint-sniper/src/executor.rs:528 | then the URL reported without a sequencer acknowledgement is that of an endpoint that acknowledged |
| AckLabels.MislabelledBySkipping | mint-sniper/src/executor.rs:33-66 | an input: the first URL does not parse, and the second's endpoint is reported under it |
| AckLabels.MislabelledByReplacing | mint-sniper/src/executor.rs:426 | an input: the list was replaced while armed, and the endpoint is reported under the new URL |
| FireFanOut.ReportedStatus | mint-sniper/src/executor.rs:657-707 | a reported success or revert rests on a receipt of that status found in time on an endpoint of this wallet, and its time runs from the dispatch to the end of the read that brought it |
| FireFanOut.SourceMeaning | mint-sniper/src/executor.rs:397-403 | the source is the sequencer exactly if the reported URL is the configured one |
| FireFanOut.OrderOfRepliesIsIrrelevant | mint-sniper/src/executor.rs:603-797 | two races in which every endpoint meets the same fate (acknowledges or not; its waits see the receipt or not; its status), at whatever times and in whatever order, give the same report, times aside |
| FireFanOut.ServedIsSeen | mint-sniper/src/executor.rs:572-594 | polling, an endpoint that serves the receipt an interval before the timeout has one fate, however long its acknowledgement took |
| FireFanOut.TickedIsSeen | mint-sniper/src/executor.rs:572-594 | pushed, so has one that serves it by a tick in the window every wait shares |
| FireFanOut.NeverServedIsLost | mint-sniper/src/executor.rs:572-594 | an endpoint that never serves it in time loses it in every wait |
| FireFanOut.ReportingKept | mint-sniper/src/executor.rs:818-840 | however tasks and the awaiting loop interleave, nobody is reported twice, and exactly the finished tasks and the joined panics are reported |
| FireFanOut.ExactlyOneResult | mint-sniper/src/executor.rs:818-840 | when all are joined every wallet has exactly one result, under its own address: its task's, or, exactly if that panicked, a panic without times, source or URL |
| FireFanOut.AwaitAllAndReportPanics | mint-sniper/src/executor.rs:818-840 | one result for each panicked task, under its wallet's address, placed after those of the panicked tasks before it, and no other |
| FireFanOut.PanicsReportedInOrder | mint-sniper/src/executor.rs:818-840 | however tasks and joins interleave, the panics among all reports are those same ones in that order |
| Delegated.PreflightEstimate | mint-sniper/src/delegated/preflight.rs:121-139 | the saturating estimate equals the exact cost of all calls, capped once |
| Delegated.EstimateIs | mint-sniper/src/delegated/preflight.rs:121-139 | the estimate is price times quantity and gas estimate times gas price, each times the number of receivers, or the largest 256-bit number |
| Delegated.PreflightClasses | mint-sniper/src/delegated/preflight.rs:85-139 | a minter mismatch is exactly a refusal of the real minter where the zero minter was accepted; any refusal of the zero minter is another failure, marked inconsistent exactly if the real one was accepted; otherwise it passes exactly if every read answered |
| Delegated.MaxSpendExact | mint-sniper/src/delegated/preflight.rs:135-137 | capping each term early does not show in the capped sum |
| Delegated.ChargeMint | mint-sniper/src/delegated/executor.rs:262-264 | the running total stays the exact sum capped once |
| Delegated.EarlyExit | mint-sniper/src/delegated/executor.rs:149-282 | an attempt whose calldata, gas price, gas estimate, signature or send fails mints nothing, pays nothing and has nothing to wait for; with all five the receipt decides, at its gas used times its price, and the charge is its gas used times the polled price |
| Delegated.AttemptReceiver | mint-sniper/src/delegated/executor.rs:149-301 | an attempt in which any of the five steps up to the send fails leaves the account as it was; with all five, a receipt at the account's nonce consumes it, success or revert, and the gas used at the price paid; a transaction below the account's nonce is never included; no receipt leaves one at it pending |
| Delegated.FireSerially | mint-sniper/src/delegated/executor.rs:145-301 | with any transactions of the operator from elsewhere landing before each attempt: the local nonce is never ahead, and as each attempt begins it is the chain's if and only if none has landed since it was loaded; results are numbered 1.. once each in order; an attempt that fails before or at its send is followed by the next at the same nonce, one whose receipt is seen by the next one nonce on, and any other ends the run; minted count, charged total, spending, nonce and pending transaction are exactly the chain's |
| Delegated.BehindMintsNothing | mint-sniper/src/delegated/executor.rs:145-301 | once a transaction from elsewhere has landed the run sees no further receipt and mints nothing more |
| Delegated.StopIsUnique | mint-sniper/src/delegated/executor.rs:283-300 | the number of attempts is determined by the answers |
| Delegated.MintedToCount | mint-sniper/src/delegated/executor.rs:261 | the minted count is the number of receivers minted to |
| Delegated.Gate | mint-sniper/src/delegated/executor.rs:89-128 | there is an estimate to acknowledge exactly if set-up and preflight pass, and it is the exact cost of all calls, capped once |
| Delegated.RunDelegatedMint | mint-sniper/src/delegated/executor.rs:53-310 | nothing is sent unless set-up, its own preflight and the reads after it pass; a completed run counts exactly the mints on chain, spends what inclusion took, leaves at most its last transaction pending, and its report relates to the spending and the estimate as the rows below say |
| Delegated.ReportedIsSpent | mint-sniper/src/delegated/executor.rs:260-282 | short of saturation the report misses the spending by paid less charged gas and the gas of reverts; with no mint below its polled price it is the spending if and only if it did not saturate, every mint paid as charged and no revert paid any |
| Delegated.TipUnreported | mint-sniper/src/delegated/executor.rs:184-186 | a run of one receiver, minted at a price above the polled one: the report is less than the spending, with no revert |
| Delegated.EstimateIsNoMaximum | mint-sniper/src/delegated/executor.rs:130-133 | at every mint price a run with the estimated gas at the polled price spends more than the acknowledged estimate, if included above it |
| Delegated.SpendingWithin | mint-sniper/src/delegated/executor.rs:260-282 | with no included call's paid gas above the figure, actual spending, reverts included, is at most value and gas times the attempts |
| Delegated.WithinEstimate | mint-sniper/src/delegated/executor.rs:130-133 | with an unchanged price and no mint's gas at the polled price above the preflight's, the reported total never exceeds the acknowledged estimate |
| Delegated.RevertsUnreported | mint-sniper/src/delegated/executor.rs:260-282 | a run of two receivers, the first mint reverting at a price: the total reported is less than what was spent, by that gas |
| Delegated.OverlappingRuns | mint-sniper/src/main.rs:1234-1257 | two runs that load the same nonce: after the first receipt the second's nonce is behind and what it sends is never included |
| Delegated.RestartAfterTimeout | mint-sniper/src/delegated/executor.rs:283-300 | a run begun before a stopped run's last transaction is included has a nonce that falls behind when it is |
| Calendar.ClosedForm | mint-sniper/src/main.rs:479-487 | the truncating era-by-era form equals flooring division for all years, negative ones too |
| Calendar.DayStep | mint-sniper/src/main.rs:479-487 | from each valid Gregorian date to the next the number grows by exactly one, across every month, leap day and century |
| Calendar.CountsDays | mint-sniper/src/main.rs:479-487 | the number is 0 at 1970-01-01 and counts the days walked from there, both ways |
| Calendar.StrictlyMonotone | mint-sniper/src/main.rs:479-487 | later dates have larger numbers |
| Calendar.RoundTrip | mint-sniper/src/main.rs:479-487 | walking back from a date's number gives the date |
| Calendar.IntermediateRanges | mint-sniper/src/main.rs:482-485 | the ranges noted beside the intermediate values hold of every valid date |
| Calendar.NoOverflow | mint-sniper/src/main.rs:479-487 | for four-digit years the result is far inside 64 bits, valid day or not |
| HttpDate.SplitSpaced | mint-sniper/src/main.rs:446-449 | spaced tokens are split into exactly those tokens |
| HttpDate.AnySpacing | mint-sniper/src/main.rs:446 | any run of white space separates tokens, and none at the ends makes one |
| HttpDate.TimeText | mint-sniper/src/main.rs:467-473 | a printed time of day splits at its colons into its three fields |
| HttpDate.ParsesBack | mint-sniper/src/main.rs:450 | printed two- and four-digit fields parse to the numbers printed |
| HttpDate.I64Exactly | mint-sniper/src/main.rs:450 | the decimal text of every signed 64-bit number is read back, and of no number outside |
| HttpDate.OnlyNumbersParse | mint-sniper/src/main.rs:450 | text is read as a number only if it is one or more decimal digits after at most one sign |
| HttpDate.MonthsInOrder | mint-sniper/src/main.rs:451-465 | the twelve English abbreviations have the numbers 1 to 12 in calendar order |
| HttpDate.MonthsExactly | mint-sniper/src/main.rs:451-465 | nothing else is a month |
| HttpDate.AcceptedExactly | mint-sniper/src/main.rs:445-477 | of six tokens, the text is accepted exactly if the last is GMT, the third a month, the second and fourth numbers and the fifth three numbers between colons |
| HttpDate.AnyNumbersAccepted | mint-sniper/src/main.rs:445-477 | no field is range-checked: whatever 64-bit numbers they hold, such tokens are converted by the one formula, overflow apart |
| HttpDate.ParsePrinted | mint-sniper/src/main.rs:445-477 | parsing undoes the IMF-fixdate printer of section 5.6.7 of RFC 9110 for every four-digit-year instant, whatever the weekday token |
| HttpDate.StandardExample | mint-sniper/src/main.rs:434-436 | the example of RFC 9110 parses to 784111777 |
| HttpDate.LaterParsesLarger | mint-sniper/src/main.rs:445-477 | later instants parse to larger numbers |
| Watchers.RunTimestampWatcher | mint-sniper/src/watcher.rs:182-200 | the watcher looks at the clock at exactly the specified times and fires at the last |
| Watchers.FiresOnTime | mint-sniper/src/watcher.rs:182-200 | never early; at once if late; else under 20 ms plus one overrun late |
| Watchers.LatenessIsTight | mint-sniper/src/watcher.rs:195-198 | that bound is attained |
| Watchers.LongStepNeverCrosses | mint-sniper/src/watcher.rs:195-198 | the half-second step cannot cross the deadline exactly as long as overruns stay at or below 4.5 s |
| Watchers.FewLooks | mint-sniper/src/watcher.rs:195-198 | the two rates cost at most 251 looks more than one per half second |
| Watchers.PrepareLead | mint-sniper/src/main.rs:893-905 | the timer is due five seconds before the target's second, at the fraction of a second of the arm, and at once if that is not ahead |
| Watchers.PreparedFirstExactly | mint-sniper/src/main.rs:893-905 | with starts and sleeps late by at most a given slack, the prepare message precedes the trigger in every schedule of the arm if and only if the timer at its latest beats the target |
| Watchers.PreparedFreshAndFirst | mint-sniper/src/main.rs:604-612 | armed with the lead to spare and overruns up to 4 s, prepare comes first and the batch is at most 5.02 s and one overrun old at the fire |
| Watchers.RunStatePollWatcher | mint-sniper/src/watcher.rs:67-89 | the trigger flips at most once, at the first reply whose last byte is 1; failed calls, empty replies and a stream that ends flip nothing |
| Watchers.RunMempoolWatcher | mint-sniper/src/watcher.rs:162-177 | the trigger flips at most once, at the first transaction from the admin to the watched contract |
| Audit.PersistIsFaithful | mint-sniper/src/audit.rs:101-202 | exactly log, wallet-update and RPC-health events are skipped, and a record determines its event |
| Audit.NamesMean | mint-sniper/src/audit.rs:101-202 | each recorded kind is written under its own name, an arm and a disarm told apart, with its own details and whether a fire was manual |
| Audit.FileRefinesEvents | mint-sniper/src/audit.rs:81-208 | over every interleaving and every pattern of failed appends, the file accounts for the events from subscription on, in order, each overrun one gap in its place |
| Audit.TurnMeaning | mint-sniper/src/audit.rs:83-207 | with more than 256 events waiting a turn skips to the last 256 and writes a gap that counts the rest; otherwise it takes the next event and writes its record unless it is routine or the append fails |
| Audit.Conservation | mint-sniper/src/audit.rs:81-208 | with successful appends, sent = recorded + routine + counted in gaps + still buffered |
| Audit.GapExactlyOnOverrun | mint-sniper/src/audit.rs:87-96 | the file has a gap if and only if some turn found the writer more than 256 events behind |
| Audit.NoOverrunNoLoss | mint-sniper/src/bus.rs:159-167 | without an overrun the file is exactly the records of the events, in order |
| Audit.AuditWriter.Turn | mint-sniper/src/audit.rs:83-207 | one turn of the loop changes position and file as specified |
| Audit.AuditWriter.RunAuditWriter | mint-sniper/src/audit.rs:81-208 | the writer beside its senders does what the specified run does |
| Session.RunKeeps | mint-sniper/src/identity/session.rs:144-177 | over every interleaving: admin tier implies both factors, two completed markings imply admin tier, and a session with both factors and no tier has a promotion under way or failed |
| Session.AdminOnlyAfterBoth | mint-sniper/src/identity/session.rs:167-177 | admin tier is set only on a session on which both factors were marked before by their own statements |
| Session.AdminOnceBothCompleted | mint-sniper/src/identity/session.rs:140-165 | once a marking of each factor returned success, in either order or overlapping, admin tier is set |
| Session.AdminExactlyWhenQuiet | mint-sniper/src/identity/session.rs:167-177 | with no marking under way and no promotion failed, admin tier is exactly both factors |
| Session.ActiveExactly | mint-sniper/src/identity/session.rs:95-128 | over every interleaving a lookup finds a session exactly if its id was inserted and no successful revocation followed its first insertion |
| Session.RevokedForGood | mint-sniper/src/identity/session.rs:117-128 | from a revocation on, no statements make the session active again, and its first time stands |
| Session.RevokedStillPromoted | mint-sniper/src/identity/session.rs:167-177 | revocation does not stop promotion; only the lookup keeps the session out |
| Session.OthersUntouched | mint-sniper/src/identity/session.rs:144-177 | statements about one session leave every other as it was |
| Session.SessionStore.CreateGoogleVerifiedSession | mint-sniper/src/identity/session.rs:95-110 | a new row has neither factor nor tier nor revocation, and is seen now; a taken id is refused |
| Session.SessionStore.MarkTotpVerified | mint-sniper/src/identity/session.rs:144-153 | undisturbed, the call is its two statements in order, and fails if either does: it sets the time of this factor, the tier exactly if the other factor is there too, and nothing else of any row |
| Session.SessionStore.MarkWebauthnVerified | mint-sniper/src/identity/session.rs:155-165 | the same for the other factor |
| Session.SessionStore.PromoteIfComplete | mint-sniper/src/identity/session.rs:167-177 | the tier is set exactly on an existing row with both factors |
| Session.SessionStore.RevokeSession | mint-sniper/src/identity/session.rs:196-204 | only the first revocation writes its time; nothing else changes |
| Session.SessionStore.Touch | mint-sniper/src/identity/session.rs:129-137 | the time last seen of the row, revoked or not, and nothing else |
| Session.SessionStore.GetActive | mint-sniper/src/identity/session.rs:117-128 | absent and revoked sessions are both nothing |
| Base64Url.BufferToBase64url | mint-sniper/ui/src/lib/webauthnBrowser.ts:25-30 | the byte loop and the replacements compute the specified text |
| Base64Url.Base64urlToBuffer | mint-sniper/ui/src/lib/webauthnBrowser.ts:16-23 | the filled buffer is the specified decoding, and nothing where the browser throws |
| Base64Url.GroupIsOneNumber | mint-sniper/ui/src/lib/webauthnBrowser.ts:29 | the three bytes and the four letters of a group are the same 24-bit number (section 4 of RFC 4648) |
| Base64Url.StandardAlphabet | mint-sniper/ui/src/lib/webauthnBrowser.ts:29 | the letters are those of table 1 of RFC 4648, in order |
| Base64Url.EncodeIsUrlSafe | mint-sniper/ui/src/lib/webauthnBrowser.ts:29 | every byte sequence has a text, and it has no plus, slash or equals sign |
| Base64Url.EncodedLetters | mint-sniper/ui/src/lib/webauthnBrowser.ts:25-30 | letter j of the text is the letter of table 2 of RFC 4648 for its six bits of the bytes, by arithmetic; four letters for three bytes, two or three for one or two left over |
| Base64Url.EncodeText | mint-sniper/ui/src/lib/webauthnBrowser.ts:17 | the padding recomputed from the length restores exactly what was stripped |
| Base64Url.RoundTrip | mint-sniper/ui/src/lib/webauthnBrowser.ts:16-30 | decoding undoes encoding for every byte sequence |
| Base64Url.TextRoundTrip | mint-sniper/ui/src/lib/webauthnBrowser.ts:16-30 | URL-safe text decodes exactly if no lone letter is left, and encodes back to itself exactly if its unused bits are zero |
| Percentile.SortingIsUnique | mint-sniper/deploy/lib/summarize_results.py:44 | there is one sorted arrangement, so the choice of sorting routine does not matter |
| Percentile.BetweenMinAndMax | mint-sniper/deploy/lib/summarize_results.py:36-52 | every percentile lies between any bounds of the values |
| Percentile.EndsAreMinAndMax | mint-sniper/deploy/lib/summarize_results.py:36-52 | the 0th is the least value and the 100th the greatest |
| Percentile.MonotoneInP | mint-sniper/deploy/lib/summarize_results.py:47-52 | a higher percentile is never lower, across interpolation cells |
| Percentile.OrderIsIrrelevant | mint-sniper/deploy/lib/summarize_results.py:40-41 | the order of the values does not matter |
| Percentile.PercentileAtRank | mint-sniper/deploy/lib/summarize_results.py:44-47 | one rule serves every sample size, a single value included |
| Percentile.LinearBetweenRanks | mint-sniper/deploy/lib/summarize_results.py:47-52 | the percentile passes through every sorted value and is their weighted mean in between, so it is continuous |
| Percentile.SortedValuesAt | mint-sniper/deploy/lib/summarize_results.py:45-52 | at the share j / (n - 1) of 100 the percentile is sorted value j, and a single value is every percentile of itself |
| Percentile.WeightedMeanInP | mint-sniper/deploy/lib/summarize_results.py:47-52 | between two such shares it is the weighted mean of the two sorted values, linear in the percentage |
| Percentile.SomewhereBetween | mint-sniper/deploy/lib/summarize_results.py:47-49 | every percentage lies between two such shares, so those two rules give every percentile |
| Percentile.OneToFive | mint-sniper/deploy/lib/summarize_results.py:87-89 | one to five in any order: the 50th percentile is 3 and the 90th 4.6 |
| Percentile.SharesOnEachSide | mint-sniper/deploy/lib/summarize_results.py:47-52 | of the unsorted values, at most the whole part of the rank plus one lie below it and at most the rest above |
| DeploymentSearch.FindDeploymentBlock | mint-sniper/src/target.rs:202-214 | the loop reads exactly the blocks of the specified bisection, and gives up at the first failed read |
| DeploymentSearch.EstimateContractAgeSecs | mint-sniper/src/target.rs:193-226 | nothing without code now or on any failed read, else the age of the block found |
| DeploymentSearch.AgeMeaning | mint-sniper/src/target.rs:193-226 | an age is the time since a block at which code appeared, never negative |
| DeploymentSearch.AgeExists | mint-sniper/src/target.rs:193-226 | with code at the latest block, the time known and every read succeeding there is an age: the time since a block at which code appears, and the only such block if code never disappears |
| DeploymentSearch.AgeExactly | mint-sniper/src/target.rs:193-226 | there is an age exactly if there is code now, no read of the search failed, and the found block's time and the time now are known |
| DeploymentSearch.ProbesInside | mint-sniper/src/target.rs:202-213 | only blocks before the latest are read by the search |
| DeploymentSearch.FindsAnAppearance | mint-sniper/src/target.rs:202-214 | whatever the address's history, the block found has code and its predecessor has none, or it is block 0 |
| DeploymentSearch.FindsTheDeployment | mint-sniper/src/target.rs:202-214 | if code never disappears it is the only such block, and exactly the blocks from it on have code |
| DeploymentSearch.ExactBound | mint-sniper/src/target.rs:186-188 | the reads are at most the bit length of the latest block, and some history takes that many |
| DeploymentSearch.DocumentedBoundFailsExactly | mint-sniper/src/target.rs:186-188 | some history exceeds the documented ceiling of the logarithm if and only if the latest block is a power of two |

## Left out

- Network, WebSocket, SQL and file input and output: replies, failures, delays and stalls are arbitrary parameters.
- Signing, hashing, key derivation, session ids, TOTP codes, OIDC and WebAuthn ceremonies: library code; a signing either succeeds or not.
- ABI encoding: calldata is an opaque value of its target, and a transaction's value is what the loop computed.
- Priority fee, fee cap, gas limit and their jitter: floating point and not read back by any modelled code; a transaction here has a target, calldata, value and nonce, and the price it is included at is arbitrary.
- Controller.PrepareFire: does not model the three reads' timeouts, which end in the same failure as an error.
- Controller.Controller.HandlePrepareMsg: takes the fresh quote as one number, not as a price times a quantity, and does not model the logged comparison of prices.
- Controller.Controller.HandleFireNowMsg: hands the batch to the fan-out and does not model how long that takes; the fan-out is a model of its own, and no field of the loop depends on it.
- Controller.Controller.HandleMsg: spawns the delegated run on `FireDelegated` and keeps no state of it; the run is a model of its own.
- Machine widths of nonces, counters, timestamps and of the parsed day, hour, minute and second: unbounded, except for the 256-bit saturation of costs, the 64-bit range of parsed numbers and `Calendar.NoOverflow`.
- ControlSystem.StuckExactlyWhenBlocked: once the loop has ended, a send that the program would see fail is here a message that nobody receives.
- ControlSystem.FireBehindDisarm: the run's timing is not modelled, only its order of steps.
- Inclusion.WaitForReceipt: the poll interval is positive, as the configuration is refused otherwise (mint-sniper/src/config.rs:509). The block ticker's task is a count of ticks published up to each time, with a time of death; connecting it is left out.
- FireFanOut.RaceBackups: the order in which backups end is an arbitrary permutation given with the wallet.
- FireFanOut.FirePrepared: tasks run at their own pace in logical time; the cost of spawning and of logging is not counted, and the message sent when a fire begins is left out.
- FireFanOut.AwaitInclusion: the check that the receipt's hash is the expected one only logs, and is left out.
- Delegated.FireSerially: a transaction from elsewhere lands before an attempt; one that lands while the attempt waits costs it its receipt just the same. What such transactions do to the balance is not counted, and one left pending by an earlier run counts as from elsewhere when it lands.
- Delegated.RunDelegatedMint: derivation of operator and receivers, and the address parsing before it, are one flag that says whether they succeeded.
- Delegated.AttemptReceiver: the receipt poll inside an attempt is reduced to whether a receipt was seen before the timeout.
- HttpDate.ParsePrinted: parses any two-digit day, hour, minute and second as the code does; only printed instants are claimed to mean a time. Overflow for years far outside four digits is not modelled.
- Watchers.FiresOnTime: the clock is monotone; steps of the system clock are left out.
- Watchers.RunStatePollWatcher: ends with its stream; its connection errors are the `Fail` step of `ControlSystem`.
- Audit.FileRefinesEvents: an append that succeeds reaches the file in the order it was made; time stamps, JSON text and the fields of each event are one opaque value.
- Session.RunKeeps: statements are atomic, as in the database; user rows, device labels and the credential id are left out.
- Base64Url.Base64urlToBuffer: the browser also skips white space in the text it decodes; here white space is refused.
- Percentile.BetweenMinAndMax: real numbers instead of floating point; percentiles outside 0 to 100, which index out of the list, are not asked for by the script.
- Mean, formatting and record reading of the results script, configuration validation, eligibility and price-alarm predicates, URL redaction and latency ranking: single predicates or short transforms.
- Balance and RPC health polling, the API's routing and authentication, the copymint watcher's decoding, the UI and the deployment scripts: plumbing around what is modelled.
