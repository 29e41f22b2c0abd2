# Durable agent runs: a verified model

The service keeps runs of agents in a database. A run is QUEUED, RUNNING or PAUSED until it ends
in one of six ways. Workers claim queued runs under a lease and keep it by heartbeats; people
answer what a paused run asks; a ticker times runs out, puts lapsed ones back and escalates
questions nobody answered. What happens to a run is announced to webhook subscribers through an
outbox, and its events are logged and streamed. Schedules start runs unattended.

The project models that logic and proves what it promises. `Database.Next` gives every operation
as one step on the four tables; a *trace* is any sequence of steps from the empty database, and the
main results hold for all traces. The stores themselves are classes that change their tables in
place, each method proved to be its step.

| files | what they hold |
|---|---|
| `Domain`, `Transitions`, `Database` | records, the state machine, each verb's verdict on a row, steps and traces |
| `Invariants`, `Lifecycle`, `Cancellation`, `WorkingTime`, `Repeats` | what holds over every trace of the run store |
| `Effects` | each operation of it told from outside, by a run's columns before and after |
| `RunRow`, `RunStore`, `Sweeps`, `Ordering` | the run store as it works, in place, against those steps |
| `Claiming`, `ClaimRace` | the claim loop alone, its fairness, and claims interleaved statement by statement |
| `Outbox`, `Announcements`, `Ticker` | deliveries, which change announces what, one tick |
| `EventStream`, `ServerSentEvents`, `Text` | the growing log, its stream, its reconnecting client, the wire format |
| `Schedules`, `Firing` | the schedule's clock, and one run per tick |
| `RateLimit`, `KeyCache`, `Signatures` | the rate limiter, the key cache, signed webhooks |

Time is a real number of seconds and always a parameter. Results about clocks ask that operations'
times do not go back, and leases stay within the 5 to 3600 seconds a request may ask for
(`Database.Timely`); the rest hold for any times. The random draw of a jittered backoff is a
parameter too, and so are the answers of code outside the stores: may this key answer or cancel,
does an answer fit its question. Where a promise is about one run's life, a life ends with the
purge of the run. A unique key the database would not take twice is the fault `Integrity`, and
rolls the operation back.

What the code does that its documentation does not say:

- A heartbeat after a cancel is measured from the request, so it can lengthen the lease, though never
  past one longest lease from the request (`Cancellation.HeartbeatExtendsIff`).
- A run that pauses again on an interrupt id answered before in its life can be answered no more, not
  even by the retried answer docs/api.md promises a success (`Repeats.WaitsForGoodIff`,
  `Repeats.WaitsForGood`).
- A purge between the stream's status read and its page read lets `end` be sent over events never
  sent (`EventStream.PageAfterFinal`, `EventStream.PurgeHidesTheTail`).
- Event ids repeat when a run id is used again after a purge, and the second run's event is lost while
  the first one's delivery is still in the outbox (`Announcements.LostOnlyToEarlierLives`,
  `Announcements.ReusedIdLosesItsEvent`).
- The SDK's stream reader ends lines where `str.splitlines` does, the standard where CR and LF do. An
  event whose JSON holds U+0085, U+2028 or U+2029 reaches the client in pieces: it may fail on it, or
  end as if the run had (`ServerSentEvents.EventReadsBackIff`, `EventStream.BrokenEntryEnds`,
  `EventStream.EndsEitherWay`).
- `verify_signature` is promised never to raise. It does for a timestamp of more than 4300 digits, and
  for a signature that holds a lone surrogate (`Signatures.VerifySignature`,
  `Signatures.LongTimestampRaises`, `Signatures.LoneSurrogateRaises`).
- A rate-limited request whose statement began before the tenant's first row was there, and which that
  row refuses, dies of a TypeError and not with a 429 (`RateLimit.StaleSnapshot`).
- `update` reads a schedule without a lock and writes what it changed. Raced by fires and another
  update, it can leave a schedule enabled with three failures, or bring a passed tick back
  (`Schedules.StrikesAfterWrite`, `Schedules.ClockAfterWrite`).

## Model

| member | source | states |
|---|---|---|
| `RunRows.RunRow.Move` | src/agent_runs/store/runs.py:159-178 | the transition is refused, changing nothing, exactly when the state machine forbids it; else the row is `Moved`: the working time put away, lease, cancel request, question and checkpoint cleared as the new status demands |
| `RunRows.RunRow.Requeue` | src/agent_runs/store/runs.py:209-215 | queued again under a new attempt, which no claim may take before the wait is over, or refused untouched |
| `RunRows.RunRow.CancelledInstead` | src/agent_runs/store/runs.py:234-240 | ends CANCELLED exactly when a cancel was asked for and the status allows it |
| `RunRows.RunRow.Continue` | src/agent_runs/store/runs.py:438-444 | an answered run ends, is requeued when durable, or runs on as the next attempt in its caller's process |
| `RunRows.RunRow.LeaseTo` | src/agent_runs/store/runs.py:681-697 | the lease runs from the cancel request when there is one; the answer carries the working time left, never negative |
| `RunStores.RunStore.Start` | src/agent_runs/store/runs.py:277-346 | inserts, finds by key, finds by id or refuses exactly as `StartAnswered` says, and the tables become the step's |
| `RunStores.RunStore.Pause` | src/agent_runs/store/runs.py:349-384 | verdict and all four tables are exactly those of the `Pause` step: repeat, fence, cancelled instead, pause or conflict |
| `RunStores.RunStore.Resume` | src/agent_runs/store/runs.py:386-446 | verdict and tables are the `Resume` step's, the answer stored once under its interrupt; a key already taken rolls everything back |
| `RunStores.RunStore.Cancel` | src/agent_runs/store/runs.py:460-493 | verdict and tables are the `Cancel` step's: asked of a leased run, done at once to any other |
| `RunStores.RunStore.Finish` | src/agent_runs/store/runs.py:495-532 | verdict and tables are the `Finish` step's: repeat, fence, retry with backoff, or ending |
| `RunStores.RunStore.Claim` | src/agent_runs/store/runs.py:535-571 | leases a first run in claim order among all that may be taken, with the lease it answers; answers None, changing nothing, only when none may be |
| `RunStores.RunStore.Heartbeat` | src/agent_runs/store/runs.py:642-657 | verdict, tables and lease are the `Heartbeat` step's; a lease is answered exactly when it took effect |
| `RunStores.RunStore.Release` | src/agent_runs/store/runs.py:659-679 | verdict and tables are the `Release` step's |
| `RunStores.RunStore.Flush` | src/agent_runs/store/runs.py:960-963 | writes one row; if the run ended, its unexpired artifacts and no others get their expiry |
| `RunStores.RunStore.TimeOutPastDeadline` | src/agent_runs/store/runs.py:700-726 | takes the first `limit` rows past their deadline, oldest deadline first, and the result is each row's own step |
| `RunStores.RunStore.TimeOutOverworked` | src/agent_runs/store/runs.py:728-760 | the same for rows the SQL overwork condition selects |
| `RunStores.RunStore.RequeueLapsed` | src/agent_runs/store/runs.py:762-794 | the same for lapsed leases: cancelled, failed on the fifth lapse, or requeued with backoff |
| `RunStores.RunStore.EscalateOverdue` | src/agent_runs/store/runs.py:796-831 | the same for overdue interrupts: escalated once, or timed out |
| `RunStores.RunStore.SweptRowsOf` | src/agent_runs/store/runs.py:852-860 | the candidates in order, none twice, nothing left out unless the limit was reached |
| `RunStores.RunStore.PurgeEnded` | src/agent_runs/store/runs.py:833-850 | the first `limit` purgeable runs, longest ended first, go with their resolutions and logs; deleting them together equals purging them one by one |
| `RunStores.RunStore.CheckEventWriter` | src/agent_runs/store/runs.py:905-910 | the refusal, or none, that an append by this caller gets |
| `RunStores.RunStore.AppendEvents` | src/agent_runs/store/runs.py:894-941 | the loop over seen, position and added yields the log `Appended` defines, how many entries it grew by, and its last position |
| `RunStores.RunStore.CheckArtifactWriter` | src/agent_runs/store/runs.py:863-891 | the refusal, or none, that an artifact by this caller gets |
| `RunStores.RunStore.AddArtifact` | src/agent_runs/store/artifacts.py:46-83 | a new artifact or the run's own one with the same content; no other table or row changes |
| `RunStores.StartIsIdempotent` | src/agent_runs/store/runs.py:282-287 | a start repeated at any moment of the run's life finds that run, whatever happened since: by its key even under another run id, or by its run id |
| `RunStores.DifferentStartIsRefused` | src/agent_runs/store/runs.py:325-340 | a strict start under a used key is refused exactly when it asks for anything else or for another queueing; one not strict finds the run |
| `RunStores.StartUnderATakenId` | src/agent_runs/store/runs.py:341-346 | a tenant finds its own run by its id; another's id is refused |
| `RunStores.KeptForLife` | src/agent_runs/store/runs.py:325-334 | tenant, key, request and durability of a run never change, so the comparison with a repeated start is stable |
| `RunStores.PurgedRows` | src/agent_runs/store/runs.py:847-849 | purging a batch one by one removes exactly those runs' rows, resolutions and logs and keeps the invariant |
| `RunStores.PurgeIsComplete` | src/agent_runs/store/runs.py:837-846 | a purge not cut short by its limit leaves no run it would take |
| `RunStores.OldestGoFirst` | src/agent_runs/store/runs.py:842-842 | runs go in the order of their last change |
| `RunStores.OldestExpiryFirst` | src/agent_runs/store/artifacts.py:104-114 | artifacts go in the order of their expiry, all of it past |
| `RunStores.RunStore.PurgeArtifacts` | src/agent_runs/ticker.py:207-224 | of the first `limit` expired artifacts, oldest first, exactly those whose blobs could be deleted go, as if one by one |
| `Effects.TurnedAway` | src/agent_runs/store/runs.py:363-369 | what is unprocessable and what is not found, by verb; nothing changes |
| `Effects.FinishEffect` | src/agent_runs/store/runs.py:218-231 | in every reachable database: a finish counts while the run is RUNNING and its caller holds it; it goes back on the queue exactly for a retryable ERROR of a durable run with fewer than three retries and no cancel asked, held back between half of 10, 20 or 40 s and the whole; else the run ends with the status, output and error sent |
| `Effects.PauseEffect` | src/agent_runs/store/runs.py:349-384 | a pause that counts leaves the run waiting on the interrupt as sent with the state sent, or CANCELLED if that was asked; what any other answers |
| `Effects.ResumeEffect` | src/agent_runs/store/runs.py:386-446 | an answer that counts is the run's last; it ends, requeues or continues the run, with its checkpoint; what any other answers |
| `Effects.CancelEffect` | src/agent_runs/store/runs.py:482-493 | a leased run is asked and otherwise left as it is, any other that has not ended ends; who and why is kept; what a repeat and an ended run answer |
| `Effects.ClaimEffectOnRow` | src/agent_runs/store/runs.py:567-570 | a claim takes exactly a QUEUED run of its agents that is not held back, from now for the seconds asked, at its attempt and checkpoint |
| `Effects.HeartbeatEffect` | src/agent_runs/store/runs.py:642-657 | counts exactly from the holder; the state sent or the one there is kept, and the lease renewed, with nothing else changed |
| `Effects.ReleaseEffect` | src/agent_runs/store/runs.py:659-679 | counts exactly from the holder; a new attempt at once with the state sent or the one there, or CANCELLED if that was asked |
| `Effects.TimeLeft` | src/agent_runs/store/runs.py:681-697 | what a lease tells: whose, until when, if a cancel was asked; and the working time left: none without a limit, else what the tighter of the two leaves, never negative |
| `Effects.DeadlineEffect` | src/agent_runs/store/runs.py:707-726 | exactly the runs not ended, queued, running or paused, past their deadline end TIMEOUT, not to be retried |
| `Effects.OverworkEffect` | src/agent_runs/store/runs.py:270-274 | exactly the running runs that worked past their own limit or past the service's end TIMEOUT |
| `Effects.LapseEffect` | src/agent_runs/store/runs.py:769-794 | a run whose lease is over is cancelled if asked, failed on the fifth lapse, else requeued held back between half of 5, 10, 20 or 40 s and the whole |
| `Effects.EscalateEffect` | src/agent_runs/store/runs.py:799-831 | an overdue question goes once, without a deadline, to the one it names; with nobody named the run ends TIMEOUT |
| `Effects.ChangesAreStamped` | src/agent_runs/store/runs.py:165-170 | every change sets updated_at to its moment, save a heartbeat that brings no state |
| `Effects.StartEffect` | src/agent_runs/store/runs.py:296-322 | a free id and key make a run at its first attempt, queued or running since now, with nothing else set |
| `Effects.AppendEffect` | src/agent_runs/store/runs.py:903-910 | events are taken exactly while RUNNING from the holder, or from an unnamed caller when none holds it; what else answers; nothing but that log changes |
| `Effects.AppendsWhatIsNew` | src/agent_runs/store/runs.py:911-940 | added are exactly the events whose (attempt, sequence) is new, the first of two alike, in the order sent |
| `Effects.EndingStartsRetention` | src/agent_runs/store/artifacts.py:95-102 | an ending sets its artifacts' expiry seven days on; nothing else changes an artifact that stays |
| `Effects.RemoveEffect` | src/agent_runs/store/artifacts.py:104-120 | an artifact goes exactly when removed past its expiry |
| `Effects.AddArtifactEffect` | src/agent_runs/store/artifacts.py:46-83 | an artifact is added exactly when its writer may and the run has none of that content |
| `Effects.ArtifactEffect` | src/agent_runs/store/runs.py:863-891 | who may add an artifact, and what others are answered |
| `Effects.PurgeEffect` | src/agent_runs/store/runs.py:837-849 | a run goes exactly when purged ended, unchanged since before the limit, without artifacts |
| `Invariants.ChangeKeepsRow` | src/agent_runs/store/runs.py:159-178 | whatever verb changed it, a row's fifteen dependent columns agree afterwards and its status moved along the state machine; tenant, request and key stay |
| `Invariants.EndedRowIsFrozen` | tests/test_state_machine.py:81-157 | no verb changes an ended run |
| `Invariants.NextKeeps` | src/agent_runs/store/runs.py:277-963 | every operation keeps the whole-database invariant |
| `Invariants.Reachable` | src/agent_runs/store/runs.py:159-240 | every database reachable by any operations satisfies it: lease fields together and only on durable RUNNING rows, awaiting exactly when PAUSED, one run per idempotency key, no orphan, expiry exactly on ended runs' artifacts, positions 1, 2, 3, ... |
| `Invariants.EndedIsFrozen` | src/agent_runs/store/runs.py:833-850 | an ended run's row, log and answers never change; it leaves only by a purge that finds no artifact kept |
| `Invariants.PurgeLeavesNothingBehind` | src/agent_runs/store/runs.py:834-849 | a purge takes all that was the run's and nothing of another run's |
| `Invariants.WrittenKeepsRetention` | src/agent_runs/store/artifacts.py:95-102 | an artifact's expiry is set exactly when its run has ended |
| `Invariants.AppendedGrows` | src/agent_runs/store/runs.py:894-941 | an append only adds at the end, at consecutive positions, no (attempt, sequence) twice, and every event sent is then logged |
| `Invariants.RepeatedAppendAddsNothing` | src/agent_runs/store/runs.py:898-901 | a retried append adds nothing |
| `Lifecycle.RankNeverFalls` | src/agent_runs/store/runs.py:209-215 | attempt and stage within the attempt never go back in a run's life |
| `Lifecycle.ClaimsCarryDistinctAttempts` | src/agent_runs/store/runs.py:535-571 | two claims of one run carry different attempts, the later the larger |
| `Lifecycle.WithoutTheLeaseNothingChanges` | src/agent_runs/store/runs.py:181-195 | a heartbeat, pause, finish, release or append naming a worker without the lease changes no table |
| `Lifecycle.RegainedByClaim` | src/agent_runs/store/runs.py:567-570 | a worker that regains a run has claimed it in between |
| `Lifecycle.FencingToken` | src/agent_runs/store/runs.py:181-186 | a worker that lost a run changes nothing by writing to it, unless it has claimed the run again at a strictly larger attempt |
| `Lifecycle.AttemptAdds` | src/agent_runs/store/runs.py:209-231 | what each verb adds to the attempt, column by column |
| `Lifecycle.ResumeRecords` | src/agent_runs/store/runs.py:422-437 | a resume that takes effect stores its answer under a key that was free |
| `Lifecycle.AttemptsConserved` | src/agent_runs/store/runs.py:209-231 | attempt = 1 + continuing answers + retried errors + min(lapses, 4) + requeuing releases, in every reachable state, with the bounds on the counters |
| `Lifecycle.ClaimsWithinAttempts` | src/agent_runs/store/runs.py:535-571 | a run has been claimed at most once per attempt |
| `Lifecycle.AtMostEightClaims` | src/agent_runs/config/constants.py:100-112 | unanswered and unreleased, a run is claimed at most eight times |
| `Cancellation.StoppingGoesOnOrEnds` | src/agent_runs/store/runs.py:218-240 | no verb pauses or requeues a run asked to stop, nor takes its lease past the bound |
| `Cancellation.LeasesBounded` | src/agent_runs/store/runs.py:681-688 | a lease never runs more than 3600 s past the clock, nor past a cancel request |
| `Cancellation.CancelIsForGood` | src/agent_runs/store/runs.py:471-480 | from a cancel at tc on, in every later state of its life the run is still stopping at the same attempt with its lease within tc + 3600 s, or has ended |
| `Cancellation.SweepCancels` | src/agent_runs/store/runs.py:774-776 | a lease sweep that reaches a run asked to stop ends it CANCELLED exactly when its lease is over by then, and else leaves it as it is |
| `Cancellation.SweepEndsIt` | src/agent_runs/store/runs.py:681-688 | a sweep any time after tc + 3600 s finds the run ended or ends it, whatever leases were asked for |
| `Cancellation.HeartbeatExtendsIff` | src/agent_runs/store/runs.py:681-688 | a heartbeat after a cancel lengthens the lease exactly when it asks for more than the lease had left at the request |
| `Cancellation.HeartbeatDoesExtend` | src/agent_runs/store/runs.py:473-475 | start, claim, cancel, heartbeat: the lease of a run asked to stop goes from 60 to 3610 |
| `WorkingTime.WorkedIsRunningTime` | src/agent_runs/store/runs.py:132-137 | at any moment the working time shown equals the total length of the run's RUNNING stretches, read off the history of its status alone |
| `WorkingTime.SqlSelectsOverworked` | src/agent_runs/store/runs.py:728-746 | the SQL condition agrees with `_limit` and `_worked` exactly unless the clock stands before running_since and the two readings straddle the limit |
| `WorkingTime.SweepIsExact` | src/agent_runs/store/runs.py:735-746 | in every reachable state the sweep selects exactly the running rows whose true running time is past their limit |
| `Repeats.VerdictAgain` | src/agent_runs/store/runs.py:198-201 | the repeat of a verb that took effect is answered as success exactly in the cases `RepeatSucceeds` lists, and never changes the row |
| `Repeats.RepeatIsHarmless` | src/agent_runs/store/runs.py:359-377 | an immediate repeat of pause, finish, release, resume or cancel changes nothing in any table; the branches that ended CANCELLED instead refuse it |
| `Repeats.AnswersAreKept` | src/agent_runs/store/runs.py:448-458 | a recorded answer stays as it was for the run's life |
| `Repeats.ResumeStaysANoOp` | src/agent_runs/store/runs.py:412-417 | whatever the run did since, any answer to an interrupt answered before changes nothing; the very same answer is a success exactly while the run does not wait on that interrupt id once more |
| `Repeats.AnswerTakesEffectIff` | src/agent_runs/store/runs.py:412-446 | an answer to what the run waits on takes effect exactly when its sender may answer, it fits, and no answer is stored for that interrupt; a stored one is what it is rolled back for |
| `Repeats.WaitsForGoodIff` | src/agent_runs/store/runs.py:408-446 | over every history: a fitting answer to the question the run waits on takes effect exactly when that interrupt id was not answered before in the run's life, and else the run goes on waiting |
| `Repeats.WaitsForGood` | docs/api.md:420-423 | a run that asks under the same interrupt id again: the retried answer is rolled back and the run stays PAUSED |
| `Claiming.NextQueued` | src/agent_runs/store/runs.py:573-607 | a first row of the query in claim order, None exactly when it selects nothing |
| `Claiming.FindClaim` | src/agent_runs/store/runs.py:554-571 | the loop growing `passed` ends; it answers None exactly when no row may be taken, and else a minimum by (share, -priority, queued_at) over all that may |
| `Claiming.PassingOver` | src/agent_runs/store/runs.py:558-566 | each exclusion strictly shrinks the selection, and only by rows with the same reason |
| `Claiming.MayTakeMeans` | src/agent_runs/store/runs.py:594-633 | what a claim may take, in the rows' own columns: queued, of its agents and queue, not held back, with places left under key and cap |
| `Claiming.ClaimedComesFirst` | src/agent_runs/store/runs.py:603-603 | the run taken: no larger share, then no lower priority, then queued no later than any other that may be taken |
| `Claiming.FairShare` | src/agent_runs/store/runs.py:543-546 | over any claims alone, while tenant b waits no tenant exceeds b's share by more than one, or what it held to begin with |
| `Claiming.FairFromTheStart` | src/agent_runs/store/runs.py:575-607 | from a fleet holding nothing: no tenant more than one run ahead of one that waits |
| `ClaimRace.WorldsAreGood` | src/agent_runs/store/runs.py:548-553 | over every interleaving of claim statements with all other operations: locks are exclusive, a counted room is still there, the bounds hold |
| `ClaimRace.NoClaimGoesPastTheLimits` | src/agent_runs/store/runs.py:609-633 | leased runs sharing a key never exceed `concurrency_per_key`, a tenant's leased runs never exceed its cap, whatever the lock hash confuses |
| `ClaimRace.NoRunIsClaimedTwice` | src/agent_runs/store/runs.py:548-550 | a committing claim finds the run still queued, leases it to its own worker, and its attempt is larger than every earlier claim's in that life |
| `ClaimRace.OthersStillHaveRoom` | src/agent_runs/store/runs.py:635-640 | a commit does not spoil what another open transaction has counted |
| `ClaimRace.PastTheLimitOnlyInProcess` | docs/api.md:244-247 | over every interleaving, RUNNING runs sharing a key exceed its limit by no more than those of them that no worker holds |
| `ClaimRace.QueuedRunsKeepTheLimit` | src/agent_runs/store/runs.py:620-633 | while no run of a tenant's key was ever started in its caller's process, RUNNING runs sharing it never exceed `concurrency_per_key`, over every interleaving |
| `ClaimRace.JoinsOnlyInProcess` | src/agent_runs/store/runs.py:438-444 | what makes a run RUNNING with a key without a claim: exactly an inserting in-process start, or an answer that continues an in-process run |
| `ClaimRace.GoesPastExactlyWhenFull` | docs/api.md:244-247 | such a step takes the key past its limit exactly when it had no place left |
| `ClaimRace.InProcessRunsAreNotHeldBack` | docs/api.md:244-247 | two in-process starts run at once under a key that allows one |
| `Ordering.OldestFirst` | src/agent_runs/store/runs.py:852-860 | ORDER BY and LIMIT: the first `limit` candidates in order, none twice, or all of them |
| `Sweeps.SweptRows` | src/agent_runs/store/runs.py:700-831 | sweeping rows one by one gives each the verdict its row had before the sweep and leaves the rest, in every table but the artifacts |
| `Sweeps.SweepIsComplete` | src/agent_runs/store/runs.py:700-831 | a sweep not cut short by its limit leaves no row it would select |
| `Sweeps.TakenInOrder` | src/agent_runs/store/runs.py:852-860 | rows are taken by deadline, running_since, lease_expires_at or awaiting_deadline, the earliest first |
| `Sweeps.PassLeavesNothingDue` | src/agent_runs/ticker.py:124-134 | over any sequence of sweeps, no later sweep makes work for an earlier one that was complete |
| `Tickers.Ticker.SweepRuns` | src/agent_runs/ticker.py:164-175 | the sweep and, run by run, the event of that run's own step, although announced only after the whole sweep |
| `Tickers.Ticker.SendWebhooks` | src/agent_runs/ticker.py:177-196 | what a receiver took leaves the outbox, what is given up on dies, the rest waits for its next attempt; no other delivery changes, and unless the batch was full none is due afterwards |
| `Tickers.Ticker.SweepPass` | src/agent_runs/ticker.py:126-129 | the four sweeps in order, each with its events; a failure keeps what was committed; after a pass of batches that were not full no run is past its deadline, overworked, lapsed or overdue |
| `Tickers.Ticker.Clean` | src/agent_runs/ticker.py:198-235 | dead deliveries, expired artifacts and ended runs go, the oldest first, and nothing else, as far as it comes; batches that were not full leave none |
| `Tickers.Ticker.Tick` | src/agent_runs/ticker.py:116-162 | skipped exactly when the breaker is open; a failure at any fire, sweep or later step, or between holding deliveries and settling them, keeps what was committed before; a tick none of whose batches was full leaves nothing for any of its steps to do |
| `Tickers.RowAnnouncesItsStep` | src/agent_runs/ticker.py:164-175 | announcing from the rows as the whole sweep left them is announcing each step |
| `Tickers.Breaker.Allows` | src/agent_runs/retry.py:43-44 | open exactly after `threshold` failures in a row, then only a call a cooldown after the last one |
| `Tickers.Breaker.RecordSuccess` | src/agent_runs/retry.py:46-50 | the breaker stands as the history with one more success says |
| `Tickers.Breaker.RecordFailure` | src/agent_runs/retry.py:52-57 | the breaker stands as the history with one more failure says; a failed trial restarts the cooldown |
| `Outbox.WebhookStore.Announce` | src/agent_runs/store/webhooks.py:205-237 | one fresh row per wanting subscription; rows already there stay as they are |
| `Outbox.WebhookStore.ClaimDue` | src/agent_runs/store/webhooks.py:239-268 | the due deliveries, longest due first, none twice, each counted and held; all of them unless the limit was reached |
| `Outbox.WebhookStore.Settle` | src/agent_runs/store/webhooks.py:270-292 | gone, backing off or dead, by the count the ticker holds, also when stale |
| `Outbox.WebhookStore.Redeliver` | src/agent_runs/store/webhooks.py:328-347 | owed again with all attempts ahead exactly when dead and the tenant's own |
| `Outbox.WebhookStore.RotateSecret` | src/agent_runs/store/webhooks.py:171-181 | the replaced secret is kept until the overlap ends; no other subscription changes |
| `Outbox.WebhookStore.Delete` | src/agent_runs/store/webhooks.py:194-202 | the tenant's own subscription goes with every delivery owed to it, else nothing |
| `Outbox.WebhookStore.DropDead` | src/agent_runs/store/webhooks.py:349-364 | the first `limit` deliveries dead before a moment, longest dead first, go and no others |
| `Outbox.HeldThroughSweeps` | src/agent_runs/store/webhooks.py:239-268 | however many other tickers' sweeps come by while it is held, a delivery stays as it is |
| `Outbox.LifeIsInTheOutbox` | src/agent_runs/store/webhooks.py:239-292 | the life of one delivery is what claims and settles do to its row in the outbox |
| `Outbox.DiesExactlyWhen` | src/agent_runs/store/webhooks.py:270-292 | settled within its holds, a delivery is dead exactly once a send was refused for good or seven have failed, and gone exactly once one was accepted |
| `Outbox.WaitsSumTo945` | src/agent_runs/config/constants.py:152-157 | 15, 30, 60, 120, 240, 480: 945 seconds in all |
| `Outbox.SeventhFailureComesLate` | src/agent_runs/retry.py:17-20 | a delivery killed by its seventh failure has been tried over at least 945 seconds |
| `Domain.WaitsDouble` | src/agent_runs/retry.py:17-20 | the first wait is the base, each next one twice the one before, none over the cap |
| `Outbox.BeginsUntried` | src/agent_runs/store/webhooks.py:222-235 | a delivery newly announced or redelivered is due at that moment, with no attempt counted |
| `Outbox.DeliveryFromItsStart` | src/agent_runs/store/webhooks.py:239-292 | from there it dies exactly of the first final refusal or the seventh failure, is gone exactly once accepted, and dies of failures not before 945 s |
| `Outbox.SweepTakesWhatIsDue` | src/agent_runs/store/webhooks.py:242-268 | a sweep holds exactly what is neither dead nor waiting, for twenty seconds, as the next attempt |
| `Outbox.DroppedAre` | src/agent_runs/store/webhooks.py:349-364 | dropped is exactly what has been dead since before the moment, the longest dead first |
| `Announcements.AnnouncesWhatHappened` | src/agent_runs/ticker.py:164-175 | every operation announces exactly what the run's rows before and after show: an ending, a pause, an escalation, each with its attempt and status; and nothing else |
| `Announcements.EscalatedTo` | src/agent_runs/store/runs.py:808-818 | an escalation names the one the question escalates to |
| `Announcements.NoEventTwice` | src/agent_runs/store/webhooks.py:82-103 | no two announcements in one life of a run share an event id |
| `Announcements.DeliveriesWereAnnounced` | src/agent_runs/store/webhooks.py:205-237 | every delivery in the outbox carries an event some operation announced |
| `Announcements.EveryEventIsOwed` | src/agent_runs/store/webhooks.py:209-237 | conflict-do-nothing swallows no event of a run in its first life: exactly one untried delivery due at once per subscription of its tenant that wants the event, none before |
| `Announcements.WhatHappensIsOwed` | src/agent_runs/api/routers/runs.py:345-348 | in a run's first life its every ending, pause and escalation, told from its rows, is owed so |
| `Announcements.SwallowedIff` | src/agent_runs/store/webhooks.py:220-237 | an announcement is swallowed whole exactly when its deliveries are all there already |
| `Announcements.LostOnlyToEarlierLives` | src/agent_runs/store/webhooks.py:209-237 | for every history of a run's id: a wanting subscription is newly owed the event exactly when no delivery of it is in the outbox; one that is comes from an earlier life of the id and stays as it was |
| `Announcements.LeavesTheOutbox` | src/agent_runs/store/webhooks.py:270-292 | over every run, with any stale settles: a delivery that left did so by an accepted attempt, its subscription's deletion, or retention after death |
| `Announcements.DeadUntilRedelivered` | src/agent_runs/store/webhooks.py:328-347 | over every run: a dead delivery stays dead until a redeliver, or leaves |
| `Announcements.ReusedIdLosesItsEvent` | src/agent_runs/store/webhooks.py:82-103 | a run id used again after a purge, the first ending still undelivered: the second ending has the same event id, adds nothing to the outbox, and is lost |
| `EventStream.LogGrows` | src/agent_runs/store/runs.py:894-941 | within a life a log only grows, and once the run has ended it is final |
| `EventStream.Follow` | src/agent_runs/api/routers/runs.py:490-514 | the frames are those of its reads, page by page, with keep-alives and `end`; whatever is appended or ends between its reads, for a run not purged from then on they are the log from the start without gap or repeat, and `end` comes only after every event |
| `EventStream.Consume` | sdk/python/src/trellis/runs/client.py:403-412 | the entries of a connection up to its `end` or to an event that is no entry |
| `EventStream.StreamEvents` | sdk/python/src/trellis/runs/client.py:393-421 | over any drops and cuts, also within an event: up to the first event whose text holds one of its reader's line breaks, the client yields each position exactly once, in order, with no gap; if there is none such it fails on no event, and has yielded all when it ends because the run has |
| `EventStream.StopsAt` | sdk/python/src/trellis/runs/client.py:407-411 | the client stops at the first event named `end`, or that decodes as no entry, having yielded the entries before it |
| `EventStream.EntryReadAs` | sdk/python/src/trellis/runs/_transport.py:166-174 | what reaches the client of any entry: the text's first piece as data, each further piece as a line of its own |
| `EventStream.BrokenEntryEnds` | sdk/python/src/trellis/runs/client.py:407-411 | of a broken text without blank pieces: the client ends as if the run had when the last `event: ` piece says `end`, fails when the last `data: ` piece is no entry, and else takes the entry that one is, or nothing |
| `EventStream.EndsEitherWay` | sdk/python/src/trellis/runs/client.py:407-410 | any beginning of a text, then a break: with `event: end` after it the client ends cleanly with events unread, without it with an error |
| `EventStream.PageAfterFinal` | src/agent_runs/store/runs.py:943-958 | a page read after a final status is of the final log while the run is there; if not, it is right exactly when nothing was left to send and nothing is, or a new run of the id has logged the very same events |
| `EventStream.PurgeHidesTheTail` | src/agent_runs/store/runs.py:943-958 | a purge between the status read and the page read: all the stream sends is `end`, although an event was logged |
| `ServerSentEvents.ReadEvents` | sdk/python/src/trellis/runs/_transport.py:164-174 | the line loop yields what the reader's line-by-line definition does |
| `ServerSentEvents.StreamReadsBack` | src/agent_runs/api/routers/runs.py:484-487 | events printed and read back are the same, every name and datum in order, exactly when none holds a line break of the reader's |
| `ServerSentEvents.EventReadsBackIff` | sdk/python/src/trellis/runs/_transport.py:166-174 | an event of JSON text is always read back by the standard's line ends, and by the SDK's exactly when it holds none of U+0085, U+2028 and U+2029 |
| `ServerSentEvents.TextReadAs` | sdk/python/src/trellis/runs/_transport.py:166-174 | what is read of any event, broken or not: the events of the blocks its pieces form, each named by its last `event: ` line and holding its last `data: ` line |
| `ServerSentEvents.CutAtTheBreak` | sdk/python/src/trellis/runs/_transport.py:166-174 | data with one break, whatever follows: the rest is a name, the data itself, or dropped |
| `ServerSentEvents.GoodEventsArrive` | sdk/python/src/trellis/runs/_transport.py:164-174 | however a stream goes on and wherever it breaks off, a beginning of the unbroken events before is read, or all of them first |
| `ServerSentEvents.SeparatorCutsTheEvent` | src/agent_runs/api/routers/runs.py:502-502 | a line separator in an event's text: the standard's reader takes the whole, the SDK's what comes before it |
| `ServerSentEvents.FirstEventsArrive` | sdk/python/src/trellis/runs/_transport.py:164-174 | wherever a printed stream breaks off, what was read is its first events, whole |
| `EventStream.EventCarriesItsPosition` | src/agent_runs/api/routers/runs.py:500-502 | each event goes out under its own position |
| `ServerSentEvents.PositionLine` | src/agent_runs/api/routers/runs.py:484-487 | an event's position is its first line |
| `Schedules.ScheduleRow.Rearm` | src/agent_runs/store/schedules.py:80-89 | a future or merely late occurrence is kept, else the clock is armed after now |
| `Schedules.ScheduleRow.Update` | src/agent_runs/store/schedules.py:169-200 | the row after an edit: re-armed exactly when retimed, kept or re-armed when re-enabled, failures cleared on re-enabling |
| `Schedules.ScheduleRow.RecordSuccess` | src/agent_runs/store/schedules.py:228-241 | armed after the later of the fire time and now, failures cleared |
| `Schedules.ScheduleRow.RecordFailure` | src/agent_runs/store/schedules.py:243-258 | paused at a permanent or third failure, else backing off |
| `Schedules.ScheduleRow.Fire` | src/agent_runs/firing.py:48-60 | refused when paused or ahead of the clock; else for the instant named, the due tick or now |
| `Schedules.ScheduleRow.FireDue` | src/agent_runs/firing.py:62-67 | fires exactly when enabled, due and not backing off, for its own tick |
| `Schedules.RearmOwesAtMostOne` | src/agent_runs/store/schedules.py:80-89 | what a resume leaves due is the one late occurrence nothing has superseded |
| `Schedules.RearmKeepsIff` | src/agent_runs/store/schedules.py:80-89 | a resume keeps the occurrence that stood exactly when it is to come, or late while the cadence goes on with nothing after it yet |
| `Schedules.CreatedStands` | src/agent_runs/store/schedules.py:98-131 | a new schedule stands before its first tick after now, nothing fired or failed |
| `Schedules.FiredInABatch` | src/agent_runs/firing.py:62-67 | each schedule of a batch is fired as the ticker fires one |
| `Schedules.FireEffect` | src/agent_runs/firing.py:48-60 | a fire by hand is refused while paused or over a minute ahead; for the instant named, the due tick or now; what it leaves when it queues and when it fails |
| `Schedules.FireDueEffect` | src/agent_runs/firing.py:62-67 | the ticker's is made exactly while enabled, due and past its wait, for the due tick; what it leaves |
| `Schedules.UpdateEffect` | src/agent_runs/store/schedules.py:169-200 | cadence and pause as sent; the clock set anew exactly by a new cadence, or by a resume; failures cleared exactly by a resume |
| `Schedules.PassedTicksStayPassed` | src/agent_runs/store/schedules.py:76-89 | over any history the clock stands where it stood, nowhere, or past every moment since: no passed tick comes back |
| `Schedules.EnabledHasStrikesLeft` | src/agent_runs/store/schedules.py:243-258 | in every history of acts each done under the row's lock, enabled implies fewer than three consecutive failures |
| `Schedules.ScheduleRow.Write` | src/agent_runs/store/schedules.py:169-200 | an update's write: of what it makes of the row it read without a lock, the columns that differ from what it read |
| `Schedules.StrikesAfterWrite` | src/agent_runs/store/schedules.py:169-200 | a raced update leaves a schedule enabled with three failures exactly when it re-enables what it read as paused without any and three have come since |
| `Schedules.ClockAfterWrite` | src/agent_runs/store/schedules.py:169-200 | a raced update takes the clock back to a passed tick exactly when it arms anew for an occurrence passed since its read; none passed before the read comes back |
| `Schedules.EnabledWithThreeStrikes` | src/agent_runs/store/schedules.py:169-200 | a history that ends enabled with three failures |
| `Schedules.PassedTickComesBack` | src/agent_runs/store/schedules.py:169-200 | a history in which the ticker fires for a tick an earlier fire of its had passed |
| `Schedules.FireTimesIncrease` | src/agent_runs/store/schedules.py:211-241 | across manual fires, failures, pauses, resumes and retimes, the ticker's fires have strictly increasing fire times |
| `Schedules.NoBacklog` | src/agent_runs/store/schedules.py:228-241 | with a fixed cadence, the ticker's fires in any window are at most one more than the cadence's occurrences in it |
| `Firings.Firing.FireTick` | src/agent_runs/firing.py:69-118 | the tick's run, new or found, and the schedule advanced with it; or the failure recorded and no run touched |
| `Firings.OneRunPerTick` | src/agent_runs/firing.py:1-13 | every further fire of a tick finds the tick's run while it is there, even after the schedule was edited |
| `Firings.ScheduleTable.FireAllDue` | src/agent_runs/ticker.py:148-162 | asking for the most overdue schedule again and again fires the first `limit` of those due at the start, in the order of their ticks, each once; unless the batch was full none is due afterwards |
| `RateLimit.TenantRateLimiter.Take` | src/agent_runs/api/ratelimit.py:65-95 | decision and bucket are the virtual scheduling algorithm's on the row as locked; a refusal's wait is told from the statement's snapshot, and without a row there raises; other tenants' buckets stay |
| `RateLimit.StaleSnapshot` | src/agent_runs/api/ratelimit.py:82-95 | whatever snapshot a request had: allowed and remaining are as if it ran alone; a refused one raises exactly when it saw no row, and else is told a wait no longer than the true one |
| `RateLimit.SecondOfTwoFirstsRaises` | src/agent_runs/api/ratelimit.py:82-95 | two first requests at once with a burst of one: the second raises |
| `RateLimit.AtMostBurstPlusRate` | src/agent_runs/api/ratelimit.py:65-95 | in any window at most burst + length * per_minute / 60 requests are allowed, whatever order the clocks come in |
| `RateLimit.RefinesTokenBucket` | src/agent_runs/api/ratelimit.py:65-95 | over any requests whose clocks do not go back, every decision and every `remaining` is that of a bucket of capacity burst that gains per_minute tokens a minute |
| `RateLimit.ComeBackAfter` | src/agent_runs/api/ratelimit.py:86-95 | a refused caller is refused until exactly tat - 60 * (burst - 1) / per_minute, and allowed at its Retry-After |
| `KeyCache.KeyRegistry.Look` | src/agent_runs/keys.py:94-99 | a fresh entry answers and becomes the most recently used; nothing else changes |
| `KeyCache.KeyRegistry.Store` | src/agent_runs/keys.py:101-105 | the entry is put last and the cache trimmed from the front to its bound |
| `KeyCache.KeyRegistry.Resolve` | src/agent_runs/keys.py:89-108 | cached while fresh, else the registry's answer; an unavailable registry leaves the cache alone |
| `KeyCache.CacheStaysGood` | src/agent_runs/keys.py:89-108 | over any overlap of resolves: every entry is a registry answer with its own expiry, in order of last use, within the bound |
| `KeyCache.HitsAreRecent` | src/agent_runs/keys.py:89-108 | a hit is the registry's own answer of the last 60 s, or 10 s for a refusal |
| `KeyCache.KeptForItsTime` | src/agent_runs/keys.py:101-103 | an answer stored is given until exactly 60 s after it was asked for, a refusal 10 s |
| `KeyCache.EvictsLeastRecentlyUsed` | src/agent_runs/keys.py:103-105 | a store evicts at most one key, the one whose last use is furthest back |
| `Signatures.VerifySignature` | sdk/python/src/trellis/runs/webhooks.py:59-86 | for every header, missing or malformed too: it raises exactly when the timestamp is more digits than Python reads and a signature is there, or, in time, the secret or a signature with no match before it cannot be encoded; it accepts exactly when `Verifies` otherwise, and rejects the rest |
| `Signatures.LongTimestampRaises` | sdk/python/src/trellis/runs/webhooks.py:69-80 | 4301 ones for a timestamp and any signature: the check raises, whatever the secret |
| `Signatures.LoneSurrogateRaises` | sdk/python/src/trellis/runs/webhooks.py:85-86 | a signature of one lone surrogate, in time: the check raises |
| `Signatures.HeaderReadsBack` | sdk/python/src/trellis/runs/webhooks.py:50-56 | the header parses back to its timestamp and exactly its digests |
| `Signatures.AcceptedExactlyWhen` | sdk/python/src/trellis/runs/webhooks.py:59-86 | a signed header is accepted exactly when its timestamp can be read, is near enough, and it carries the receiver's digest of what was received |
| `Signatures.RoundTrip` | sdk/python/src/trellis/runs/webhooks.py:50-86 | what was signed verifies under either secret exactly within the tolerance, for every timestamp Python can read back and secret it can encode |
| `Signatures.PrintsDigestsOfBoth` | sdk/python/src/trellis/runs/webhooks.py:53-56 | the header is the timestamp and each secret's digest of the decimal timestamp, a dot and the body |
| `Signatures.CoversTimeAndBody` | sdk/python/src/trellis/runs/webhooks.py:53-86 | with a digest free of collisions: signatures put under any timestamp with any body are accepted exactly for the time and body they were made for |
| `Signatures.ReadsOnePart` | sdk/python/src/trellis/runs/webhooks.py:70-75 | how any part of any header is read, after whatever came before |
| `Signatures.RotationKeepsVerifying` | src/agent_runs/store/webhooks.py:171-181 | through any rotations, a delivery held before the overlap ends verifies under the current and the just-replaced secret; later under the current alone |

## Left out

- HTTP routing, authentication middleware, problem documents, settings, metrics, logging and migrations: no hard property.
- Who may answer or cancel, whether an answer fits its JSON Schema, whether `expects` is a schema, checkpoint and payload size caps: Booleans given to the verbs, or not modelled.
- Error texts and `_counted`: an error is its code and whether it is retryable.
- Listing, paging and cursors, `get`, and the record views of rows: easy reads.
- `stable_id`, SHA-256 and id minting: taken as one to one where a result depends on it; HMAC is any function to hexadecimal digests.
- croniter and time zones: a calendar is any function naming the least occurrence strictly after an instant; the hourly floor on cadences is not claimed.
- Schedule upsert with its duplicate check, and deletion.
- Schedules.EnabledHasStrikesLeft: with `Schedules.FireTimesIncrease`, `Schedules.NoBacklog` and `Schedules.PassedTicksStayPassed` takes each act as done under the row's lock, which an update does not take; what a raced update does is stated beside them.
- Blob storage: an expired artifact's row goes by one step, and failed blob deletions are simply steps not taken.
- The SDK's worker loop and its transport's retries: their safety rests on the fencing proved here.
- The HTTP sender of webhooks: a send is any attempt, accepted, refused or to be retried. In `Outbox.Mailed` claims, redeliveries and drops are steps on one delivery.
- RunRows.RunRow: the row is one mutable record, updated column by column, and not one field per column.
- RunStores.RunStore.Start: two concurrent starts are two steps in some order, since the loser waits on the unique index; the other operations are atomic likewise, under their row lock. Only claims are also interleaved statement by statement.
- ClaimRace.NoClaimGoesPastTheLimits: a pick may take any admitted, claimable row that no other claim has locked, not only a first one in claim order; the bounds hold all the more.
- RateLimit.TenantRateLimiter.Take: exact real arithmetic; rounding to microseconds and six digits is not modelled.
- Signatures.VerifySignature: a body is a string of characters, and constant-time comparison is plain equality. Which characters stand for lone surrogates is a parameter. The limit on digits is Python's default; `Sign` prints and signs anything, where Python would raise past that limit or for a secret it cannot encode.
- ServerSentEvents.ReadEvents: takes the lines of a whole response; that the HTTP library's decoder yields those of `str.splitlines` is assumed, the library being no part of this model.
- EventStream.Follow: is faithful for a run that is not purged while it is read; `EventStream.PageAfterFinal` says what happens otherwise. Connection time-outs and pauses between polls are the given rounds.
- EventStream.StreamEvents: JSON is any codec that reads back what it prints, with no event type called `end` or holding a line break.
- EventStream.EntryReadAs: for texts without a carriage return, which JSON escapes.
