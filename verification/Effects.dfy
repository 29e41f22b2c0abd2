/** What each operation does, told from the outside: by the columns of a run before and after it, in any
    database the service can reach. */
module Effects {
  import opened Domain
  import opened Transitions
  import opened Database
  import opened Invariants
  import opened Lifecycle
  import opened RunRows

  /** The operation on the tenant's own run. */
  function By(id: string, tenant: string, verb: Verb, now: Time): Action {
    Action(OnRun(id, Some(tenant), verb), now)
  }

  /** The ticker's operation, on any tenant's. */
  function ByTicker(id: string, verb: Verb, now: Time): Action {
    Action(OnRun(id, None, verb), now)
  }

  /** No counter moved, and nothing was said about how the run ends or was answered. */
  predicate SameAttempt(r: Run, after: Run) {
    && after.attempt == r.attempt && after.errorRetries == r.errorRetries && after.leaseLapses == r.leaseLapses
    && after.queuedAt == r.queuedAt && SameStory(r, after)
  }

  predicate SameStory(r: Run, after: Run) {
    && after.output == r.output && after.error == r.error && after.lastResolution == r.lastResolution
    && after.cancelReason == r.cancelReason && after.cancelledBy == r.cancelledBy
  }

  /** The next attempt, on the queue since now. */
  predicate NextAttempt(r: Run, after: Run, now: Time) {
    after.status.Queued? && after.attempt == r.attempt + 1 && after.queuedAt == Some(now)
  }

  /** May be claimed after a wait between half of `most` and the whole of it. */
  predicate HeldBack(after: Run, most: Time, now: Time) {
    after.availableAt.Some? && most / 2.0 <= after.availableAt.value - now <= most
  }

  /** The row the run has after the action. */
  function RowOf(db: Db, a: Action, id: string): Run
    requires id in db.runs
  {
    if id in Next(db, a).runs then Next(db, a).runs[id] else db.runs[id]
  }

  /** A verb that changes a run gives it the row it answers; one that does not changes no table. */
  lemma TakesEffect(db: Db, id: string, tenant: Option<string>, verb: Verb, now: Time)
    requires id in db.runs
    ensures
      var a, reply := Action(OnRun(id, tenant, verb), now), Reply(db, id, tenant, verb, now);
      && RowOf(db, a, id) == (if reply.Changed? then reply.run else db.runs[id])
      && (!reply.Changed? ==> Next(db, a) == db)
  {
  }

  /** Every change is stamped with its moment, save a heartbeat that brings no state. */
  lemma ChangesAreStamped(db: Db, r: Run, verb: Verb, now: Time)
    requires VerbVerdict(db, r, verb, now).Changed?
    ensures VerbVerdict(db, r, verb, now).run.updatedAt == if verb.Heartbeat? && verb.state.None? then r.updatedAt else now
  {
  }

  /** Before the row is looked at: a pause whose question is another run's or cannot be answered, an answer
      to another run, and an ending that is none are unprocessable; and a run that is not there, or is
      another tenant's, is not found. Nothing changes. */
  lemma TurnedAway(db: Db, id: string, tenant: string, verb: Verb, now: Time)
    ensures
      var reply := Reply(db, id, Some(tenant), verb, now);
      var wrong :=
        match verb
        case Pause(interrupt, schemaOk, _, _) => interrupt.tenant != tenant || interrupt.run != id || !schemaOk
        case Resume(resolution, _, _) => resolution.run != id
        case Finish(ending, _, _) => ending.status.Queued? || ending.status.Running? || ending.status.Paused?
        case _ => false;
      var there := id in db.runs && db.runs[id].tenant == tenant;
      && (wrong ==> reply == Refused(Unprocessable))
      && (!wrong && !there ==> reply == Refused(NotFound))
      && (wrong || !there ==> Next(db, By(id, tenant, verb, now)) == db)
  {
    hide VerbVerdict;
  }

  // ---------------------------------------------------------------- finishing

  /** The waits before the three retries. */
  function RetryWait(retries: int): Time {
    if retries <= 0 then 10.0 else if retries == 1 then 20.0 else 40.0
  }

  /** A finish counts while the run is RUNNING and its caller is not fenced off; a run that waits may only be
      ended CANCELLED or TIMEOUT. It goes back on the queue exactly for a retryable ERROR of a durable run
      with retries left that nobody asked to cancel; else the run ends as the caller says. */
  lemma FinishEffect(db: Db, id: string, tenant: string, ending: Ending, worker: Option<string>, draw: real, now: Time)
    requires DbInv(db) && Visible(db, id, Some(tenant)) && ending.status.Final() && 0.0 <= draw <= 0.5
    ensures
      var r, verb := db.runs[id], Verb.Finish(ending, worker, draw);
      var after, reply := RowOf(db, By(id, tenant, verb, now), id), Reply(db, id, Some(tenant), verb, now);
      var holds := worker.None? || worker == r.leaseOwner;
      var again := ending.status.Error? && ending.error.Some? && ending.error.value.retryable
                   && r.Durable() && r.errorRetries < 3 && r.cancelRequestedAt.None?;
      && (reply.Changed? <==>
            holds && (r.status.Running? || (!r.status.Final() && (ending.status.Cancelled? || ending.status.Timeout?))))
      && (!reply.Changed? ==>
            && after == r
            && reply == if r.settledBy == worker && (r.status == ending.status || (ending.status.Error? && worker.Some? && r.status.Queued?))
                        then Unchanged else if !holds then Refused(LeaseLost) else Refused(Conflict))
      && (reply.Changed? ==>
            && after.settledBy == worker
            && (after.status.Queued? <==> r.status.Running? && again)
            && (r.status.Running? && again ==>
                  && NextAttempt(r, after, now) && SameStory(r, after) && after.leaseLapses == r.leaseLapses
                  && after.errorRetries == r.errorRetries + 1 && after.checkpoint == r.checkpoint
                  && HeldBack(after, RetryWait(r.errorRetries), now))
            && (!(r.status.Running? && again) ==>
                  && after.status == ending.status && after.output == ending.output && after.error == ending.error
                  && after.attempt == r.attempt && after.errorRetries == r.errorRetries && after.leaseLapses == r.leaseLapses
                  && after.cancelReason == r.cancelReason && after.cancelledBy == r.cancelledBy
                  && after.lastResolution == r.lastResolution))
  {
    hide Next, RowOf, Backoff, Jittered;
    TakesEffect(db, id, Some(tenant), Verb.Finish(ending, worker, draw), now);
    assert RowInv(db.runs[id]);
    RetryWaits(db.runs[id].errorRetries + 1, draw);
  }

  lemma RetryWaits(retries: int, draw: real)
    requires 1 <= retries <= 3 || retries == 4
    requires 0.0 <= draw <= 0.5
    ensures retries <= 3 ==>
      var most := RetryWait(retries - 1);
      && Backoff(ERROR_RETRY_BASE, retries, ERROR_RETRY_CAP) == most
      && most / 2.0 <= Jittered(most, draw) <= most
  {
    assert Pow2(0) == 1 && Pow2(1) == 2 && Pow2(2) == 4;
  }

  // ---------------------------------------------------------------- pausing, answering, cancelling

  /** A pause counts while the run is RUNNING and its caller is not fenced off. Then the run waits on the
      interrupt as sent, with the state sent; or ends CANCELLED if that was asked for. */
  lemma PauseEffect(db: Db, id: string, tenant: string, interrupt: Interrupt, state: Option<Json>, worker: Option<string>, now: Time)
    requires DbInv(db) && Visible(db, id, Some(tenant)) && interrupt.tenant == tenant && interrupt.run == id
    ensures
      var r, verb := db.runs[id], Verb.Pause(interrupt, true, state, worker);
      var after, reply := RowOf(db, By(id, tenant, verb, now), id), Reply(db, id, Some(tenant), verb, now);
      var holds := worker.None? || worker == r.leaseOwner;
      && (reply.Changed? <==> holds && r.status.Running?)
      && (!reply.Changed? ==>
            && after == r
            && reply == if r.status.Paused? && r.settledBy == worker && r.awaiting.value.id == interrupt.id
                        then Unchanged else if !holds then Refused(LeaseLost) else Refused(Conflict))
      && (reply.Changed? ==>
            && SameAttempt(r, after) && after.settledBy == worker
            && if r.cancelRequestedAt.Some? then after.status.Cancelled?
               else && after.status.Paused? && after.awaiting == Some(interrupt) && after.checkpoint == state
                    && after.assignee == interrupt.assignee && after.awaitingDeadline == interrupt.deadline)
  {
    hide Next, RowOf;
    TakesEffect(db, id, Some(tenant), Verb.Pause(interrupt, true, state, worker), now);
    assert RowInv(db.runs[id]);
  }

  /** An answer that takes effect is the run's last one. CANCEL ends the run; any other continues it with
      its checkpoint: on the queue at once if it is durable, else RUNNING where it was. */
  lemma ResumeEffect(db: Db, id: string, tenant: string, resolution: Resolution, mayAnswer: bool, fits: bool, now: Time)
    requires DbInv(db) && Visible(db, id, Some(tenant)) && resolution.run == id
    ensures
      var r, verb := db.runs[id], Verb.Resume(resolution, mayAnswer, fits);
      var after, reply := RowOf(db, By(id, tenant, verb, now), id), Reply(db, id, Some(tenant), verb, now);
      var waits := r.status.Paused? && r.awaiting.value.id == resolution.interrupt;
      && (!waits ==>
            var key := (id, resolution.interrupt);
            reply == if key in db.resolutions && db.resolutions[key].tenant == tenant && db.resolutions[key].resolution == resolution
                     then Unchanged else Refused(Conflict))
      && (waits && !mayAnswer ==> reply == Refused(Forbidden))
      && (waits && mayAnswer && !fits ==> reply == Refused(Unprocessable))
      && (reply.Changed? ==> waits && mayAnswer && fits)
      && (!reply.Changed? ==> after == r)
      && (reply.Changed? ==>
            && after.lastResolution == Some(resolution) && after.settledBy.None?
            && after.errorRetries == r.errorRetries && after.leaseLapses == r.leaseLapses
            && after.output == r.output && after.error == r.error
            && if resolution.decision.Cancel? then after.status.Cancelled? && after.attempt == r.attempt
               else && after.attempt == r.attempt + 1 && after.checkpoint == r.checkpoint
                    && if r.Durable() then NextAttempt(r, after, now) && after.availableAt.None?
                       else after.status.Running? && after.runningSince == Some(now))
  {
    hide Next, RowOf;
    TakesEffect(db, id, Some(tenant), Verb.Resume(resolution, mayAnswer, fits), now);
    assert RowInv(db.runs[id]);
  }

  /** A cancel of a leased run asks, and changes nothing else of it; of any other that has not ended, it
      ends it. Who asked and why is kept. */
  lemma CancelEffect(db: Db, id: string, tenant: string, reason: Option<string>, principal: string, mayCancel: bool, now: Time)
    requires DbInv(db) && Visible(db, id, Some(tenant))
    ensures
      var r, verb := db.runs[id], Verb.Cancel(reason, principal, mayCancel);
      var after, reply := RowOf(db, By(id, tenant, verb, now), id), Reply(db, id, Some(tenant), verb, now);
      && (reply.Changed? <==> mayCancel && !r.status.Final() && r.cancelRequestedAt.None?)
      && (!reply.Changed? ==> after == r)
      && (!mayCancel ==> reply == Refused(Forbidden))
      && (mayCancel && r.cancelRequestedAt.Some? ==> reply == Unchanged)
      && (mayCancel && r.status.Final() ==>
            reply == if r.status.Cancelled? && r.cancelledBy == Some(principal) && r.cancelReason == reason then Unchanged
                     else Refused(Conflict))
      && (reply.Changed? ==>
            && after.cancelReason == reason && after.cancelledBy == Some(principal)
            && if r.leaseOwner.Some?
               then after == r.(cancelRequestedAt := Some(now), cancelReason := reason, cancelledBy := Some(principal), updatedAt := now)
               else after.status.Cancelled? && after.attempt == r.attempt && after.output == r.output && after.error == r.error)
  {
    hide Next, RowOf;
    TakesEffect(db, id, Some(tenant), Verb.Cancel(reason, principal, mayCancel), now);
    assert RowInv(db.runs[id]);
  }

  // ---------------------------------------------------------------- the queue

  /** A claim takes the run exactly when it is QUEUED for one of the agents and not held back; the worker
      has it from now, for as long as it asked, at the attempt and with the checkpoint it stood at. */
  lemma ClaimEffectOnRow(db: Db, id: string, tenant: Option<string>, agents: set<string>, worker: string, seconds: Time, now: Time)
    requires DbInv(db) && Visible(db, id, tenant)
    ensures
      var r, a := db.runs[id], Action(OnRun(id, tenant, Verb.Claim(agents, worker, seconds)), now);
      var after := RowOf(db, a, id);
      var takes := r.status.Queued? && r.asked.agent in agents && (r.availableAt.None? || r.availableAt.value <= now);
      && (!takes ==> Next(db, a) == db)
      && (takes ==>
            && after.status.Running? && after.leaseOwner == Some(worker) && after.leaseExpiresAt == Some(now + seconds)
            && after.runningSince == Some(now) && after.cancelRequestedAt.None?
            && SameAttempt(r, after) && after.checkpoint == r.checkpoint)
  {
    hide Next, RowOf;
    TakesEffect(db, id, tenant, Verb.Claim(agents, worker, seconds), now);
    assert RowInv(db.runs[id]);
  }

  /** A heartbeat counts exactly from the worker that holds the run. It keeps the state sent, or the one
      there when none is, and renews the lease: from now, or from the request to cancel. */
  lemma HeartbeatEffect(db: Db, id: string, tenant: string, worker: string, seconds: Time, state: Option<Json>, now: Time)
    requires DbInv(db) && Visible(db, id, Some(tenant))
    ensures
      var r, verb := db.runs[id], Verb.Heartbeat(worker, seconds, state);
      var after, reply := RowOf(db, By(id, tenant, verb, now), id), Reply(db, id, Some(tenant), verb, now);
      var from := if r.cancelRequestedAt.Some? then r.cancelRequestedAt.value else now;
      && (reply.Changed? <==> r.leaseOwner == Some(worker))
      && (!reply.Changed? ==> reply == Refused(LeaseLost) && after == r)
      && (reply.Changed? ==>
            after == r.(checkpoint := if state.Some? then state else r.checkpoint,
                        updatedAt := if state.Some? then now else r.updatedAt,
                        leaseExpiresAt := Some(from + seconds)))
  {
    hide Next, RowOf;
    TakesEffect(db, id, Some(tenant), Verb.Heartbeat(worker, seconds, state), now);
    assert RowInv(db.runs[id]);
  }

  /** A release counts exactly from the worker that holds the run: a new attempt on the queue at once, with
      the state sent or the one there; or the end, if that was asked for. */
  lemma ReleaseEffect(db: Db, id: string, tenant: string, worker: string, state: Option<Json>, now: Time)
    requires DbInv(db) && Visible(db, id, Some(tenant))
    ensures
      var r, verb := db.runs[id], Verb.Release(worker, state);
      var after, reply := RowOf(db, By(id, tenant, verb, now), id), Reply(db, id, Some(tenant), verb, now);
      && (reply.Changed? <==> r.leaseOwner == Some(worker))
      && (!reply.Changed? ==>
            after == r && reply == if r.status.Queued? && r.settledBy == Some(worker) then Unchanged else Refused(LeaseLost))
      && (reply.Changed? ==>
            && after.settledBy == Some(worker) && SameStory(r, after)
            && after.errorRetries == r.errorRetries && after.leaseLapses == r.leaseLapses
            && if r.cancelRequestedAt.Some? then after.status.Cancelled? && after.attempt == r.attempt
               else && NextAttempt(r, after, now) && after.availableAt.None?
                    && after.checkpoint == if state.Some? then state else r.checkpoint)
  {
    hide Next, RowOf;
    TakesEffect(db, id, Some(tenant), Verb.Release(worker, state), now);
    assert RowInv(db.runs[id]);
  }

  /** A lease tells whose it is, until when, and if a cancel was asked for; and the working time left:
      nothing without a limit; else never less than none, never more than any limit leaves, and as much
      as one of them does. */
  lemma TimeLeft(r: Run, service: Option<Time>, now: Time)
    requires r.leaseOwner.Some? && r.leaseExpiresAt.Some?
    ensures
      var lease, own := LeaseOf(r, service, now), r.asked.timeout;
      var told := lease.remaining;
      && Some(lease.worker) == r.leaseOwner && Some(lease.expiresAt) == r.leaseExpiresAt
      && lease.cancelRequested == r.cancelRequestedAt.Some?
      && (told.None? <==> own.None? && service.None?)
      && (told.Some? ==>
            && told.value >= 0.0
            && (own.Some? && own.value > Worked(r, now) ==> told.value <= own.value - Worked(r, now))
            && (service.Some? && service.value > Worked(r, now) ==> told.value <= service.value - Worked(r, now))
            && (told.value == 0.0 <==> (own.Some? && own.value <= Worked(r, now)) || (service.Some? && service.value <= Worked(r, now)))
            && (|| told.value == 0.0
                || (own.Some? && told.value == own.value - Worked(r, now))
                || (service.Some? && told.value == service.value - Worked(r, now))))
  {
  }

  // ---------------------------------------------------------------- the sweeps

  /** Whatever it was doing, a run that has not ended and whose deadline is over ends TIMEOUT, for good. */
  lemma DeadlineEffect(db: Db, id: string, now: Time)
    requires DbInv(db) && id in db.runs
    ensures
      var r, a := db.runs[id], ByTicker(id, Verb.TimeOutPastDeadline, now);
      var after := RowOf(db, a, id);
      var late := !r.status.Final() && r.asked.deadline.Some? && r.asked.deadline.value < now;
      && (!late ==> Next(db, a) == db)
      && (late ==> TimesOut(r, after, "run_deadline", false))
  {
    hide Next, RowOf;
    TakesEffect(db, id, None, Verb.TimeOutPastDeadline, now);
    assert RowInv(db.runs[id]);
  }

  predicate TimesOut(r: Run, after: Run, code: string, retryable: bool) {
    && after.status.Timeout? && after.error == Some(Failure(code, retryable)) && after.settledBy.None?
    && after.attempt == r.attempt && after.errorRetries == r.errorRetries && after.leaseLapses == r.leaseLapses
    && after.output == r.output && after.lastResolution == r.lastResolution
  }

  /** A running run that has worked longer than its own limit, or longer than the service's, ends TIMEOUT. */
  lemma OverworkEffect(db: Db, id: string, service: Option<Time>, now: Time)
    requires DbInv(db) && id in db.runs
    requires db.runs[id].runningSince.Some? ==> db.runs[id].runningSince.value <= now
    ensures
      var r, a := db.runs[id], ByTicker(id, Verb.TimeOutOverworked(service), now);
      var after, own := RowOf(db, a, id), r.asked.timeout;
      var over := r.status.Running?
                  && ((own.Some? && Worked(r, now) > own.value) || (service.Some? && Worked(r, now) > service.value));
      && (!over ==> Next(db, a) == db)
      && (over ==> TimesOut(r, after, "run_timeout", false))
  {
    hide Next, RowOf;
    TakesEffect(db, id, None, Verb.TimeOutOverworked(service), now);
    assert RowInv(db.runs[id]);
  }

  /** The waits after the first four lapses. */
  function LapseWait(lapses: int): Time {
    if lapses <= 0 then 5.0 else if lapses == 1 then 10.0 else if lapses == 2 then 20.0 else 40.0
  }

  /** A run whose lease is over is cancelled if that was asked for; else it has lapsed once more, which ends
      it the fifth time and before that puts it on the queue, held back. */
  lemma LapseEffect(db: Db, id: string, draw: real, now: Time)
    requires DbInv(db) && id in db.runs && 0.0 <= draw <= 0.5
    ensures
      var r, a := db.runs[id], ByTicker(id, Verb.RequeueLapsed(draw), now);
      var after := RowOf(db, a, id);
      var over := r.leaseExpiresAt.Some? && r.leaseExpiresAt.value < now;
      && (!over ==> Next(db, a) == db)
      && (over ==>
            && after.settledBy.None? && after.errorRetries == r.errorRetries && after.output == r.output
            && if r.cancelRequestedAt.Some? then after.status.Cancelled? && SameAttempt(r, after)
               else if r.leaseLapses == 4
               then after.status.Error? && after.error == Some(Failure("lease_expired", true)) && after.leaseLapses == 5 && after.attempt == r.attempt
               else && NextAttempt(r, after, now) && after.leaseLapses == r.leaseLapses + 1 && SameStory(r, after)
                    && after.checkpoint == r.checkpoint && HeldBack(after, LapseWait(r.leaseLapses), now))
  {
    hide Next, RowOf, Backoff, Jittered;
    TakesEffect(db, id, None, Verb.RequeueLapsed(draw), now);
    assert RowInv(db.runs[id]);
    LapseWaits(db.runs[id].leaseLapses + 1, draw);
  }

  lemma LapseWaits(lapses: int, draw: real)
    requires 0.0 <= draw <= 0.5
    ensures 1 <= lapses <= 4 ==>
      var most := LapseWait(lapses - 1);
      && Backoff(LAPSE_RETRY_BASE, lapses, LAPSE_RETRY_CAP) == most
      && most / 2.0 <= Jittered(most, draw) <= most
  {
    assert Pow2(0) == 1 && Pow2(1) == 2 && Pow2(2) == 4 && Pow2(3) == 8;
  }

  /** A question past its deadline goes, once and as it is, to the one it names to escalate to, without
      a deadline; with nobody named the run ends TIMEOUT, to be tried again by whoever wants to. */
  lemma EscalateEffect(db: Db, id: string, now: Time)
    requires DbInv(db) && id in db.runs
    ensures
      var r, a := db.runs[id], ByTicker(id, Verb.EscalateOverdue, now);
      var after := RowOf(db, a, id);
      var over := r.status.Paused? && r.awaiting.value.deadline.Some? && r.awaiting.value.deadline.value < now;
      && (!over ==> Next(db, a) == db)
      && (over ==>
            var to := r.awaiting.value.escalateTo;
            if to.Some? && to.value != ""
            then && after.status.Paused? && SameAttempt(r, after) && after.checkpoint == r.checkpoint && after.settledBy == r.settledBy
                 && after.awaiting == Some(Interrupt(r.awaiting.value.tenant, r.awaiting.value.run, r.awaiting.value.id,
                                                     to, None, None, r.awaiting.value.question))
                 && after.assignee == to && after.awaitingDeadline.None?
            else TimesOut(r, after, "interrupt_deadline", true))
  {
    hide Next, RowOf;
    TakesEffect(db, id, None, Verb.EscalateOverdue, now);
    assert RowInv(db.runs[id]);
  }

  // ---------------------------------------------------------------- starts, events, artifacts, purges

  /** A new run is at its first attempt: on the queue since now, or running since now without a lease. */
  lemma StartEffect(db: Db, id: string, tenant: string, asked: Asked, key: Option<string>, queue: bool, now: Time)
    requires id !in db.runs
    ensures
      var after := Next(db, Action(Start(id, tenant, asked, key, queue), now));
      var free := key.None? || forall other :: other in db.runs && db.runs[other].tenant == tenant ==> db.runs[other].idempotencyKey != key;
      && (!free ==> after == db)
      && (free ==>
            && id in after.runs
            && var r := after.runs[id];
               && r.tenant == tenant && r.asked == asked && r.idempotencyKey == key
               && r.attempt == 1 && r.errorRetries == 0 && r.leaseLapses == 0 && r.worked == 0.0
               && r.checkpoint.None? && r.lastResolution.None? && r.output.None? && r.error.None? && r.settledBy.None?
               && r.cancelReason.None? && r.cancelledBy.None?
               && if queue then r.status.Queued? && r.queuedAt == Some(now) && r.availableAt.None?
                  else r.status.Running? && r.runningSince == Some(now) && r.queuedAt.None? && r.leaseOwner.None?)
  {
    if key.Some? && KeyTaken(db, tenant, key.value) {
      var other :| other in db.runs && db.runs[other].tenant == tenant && db.runs[other].idempotencyKey == key;
    }
  }

  /** A run id in use starts nothing. */
  lemma NoStartUnderATakenId(db: Db, id: string, tenant: string, asked: Asked, key: Option<string>, queue: bool, now: Time)
    requires id in db.runs
    ensures Next(db, Action(Start(id, tenant, asked, key, queue), now)) == db
  {
  }

  /** Events are taken exactly while the run is RUNNING, from the worker that holds it, or from a caller that
      names none when none does; each must name the run and its tenant. Nothing but the log changes. */
  lemma AppendEffect(db: Db, id: string, tenant: string, events: seq<RunEvent>, writer: Option<string>, now: Time)
    ensures
      var after, fault := Next(db, Action(Append(id, tenant, events, writer), now)), AppendFault(db, id, tenant, events, writer);
      var named := forall i :: 0 <= i < |events| ==> events[i].tenant == tenant && events[i].run == id;
      && (fault.None? <==> named && Visible(db, id, Some(tenant)) && db.runs[id].status.Running? && db.runs[id].leaseOwner == writer)
      && (fault.Some? ==> after == db)
      && (!named ==> fault == Some(Unprocessable))
      && (named && !Visible(db, id, Some(tenant)) ==> fault == Some(NotFound))
      && (named && Visible(db, id, Some(tenant)) && writer.Some? && fault.Some? ==> fault == Some(LeaseLost))
      && (named && Visible(db, id, Some(tenant)) && writer.None? && fault.Some? ==> fault == Some(Conflict))
      && after.runs == db.runs && after.resolutions == db.resolutions && after.artifacts == db.artifacts
      && forall other :: other != id ==> after.Log(other) == db.Log(other)
  {
  }

  predicate Alike(one: RunEvent, other: RunEvent) {
    one.attempt == other.attempt && one.sequence == other.sequence
  }

  /** `picked` are the events, by their places, whose identity is new to the log; of two alike the first. */
  ghost predicate NewOnes(log: seq<LogEntry>, events: seq<RunEvent>, picked: seq<nat>) {
    && (forall i, j :: 0 <= i < j < |picked| ==> picked[i] < picked[j])
    && (forall i :: 0 <= i < |picked| ==> picked[i] < |events|)
    && (forall n :: 0 <= n < |events| ==>
          (n in picked <==> !Holds(log, events[n]) && forall m :: 0 <= m < n ==> !Alike(events[m], events[n])))
  }

  /** The log has an event of that attempt and sequence. */
  predicate Holds(log: seq<LogEntry>, e: RunEvent) {
    exists i :: 0 <= i < |log| && Alike(log[i].event, e)
  }

  lemma HoldsIfLogged(log: seq<LogEntry>, e: RunEvent)
    ensures Holds(log, e) <==> Logged(log, e)
  {
  }

  /** The entries after the log's own are those events, in the order sent. */
  ghost predicate AddsInOrder(log: seq<LogEntry>, events: seq<RunEvent>, picked: seq<nat>, result: seq<LogEntry>) {
    && |result| == |log| + |picked|
    && forall i :: 0 <= i < |picked| && picked[i] < |events| ==> result[|log| + i].event == events[picked[i]]
  }

  function Shifted(picked: seq<nat>): (shifted: seq<nat>)
    ensures |shifted| == |picked| && forall i :: 0 <= i < |picked| ==> shifted[i] == picked[i] + 1
  {
    seq(|picked|, i requires 0 <= i < |picked| => picked[i] + 1)
  }

  lemma ShiftedHas(picked: seq<nat>, n: nat)
    ensures 0 !in Shifted(picked) && (n + 1 in Shifted(picked) <==> n in picked)
  {
    if n in picked {
      var i :| 0 <= i < |picked| && picked[i] == n;
      assert Shifted(picked)[i] == n + 1;
    }
  }

  lemma PicksOneMore(log: seq<LogEntry>, events: seq<RunEvent>, more: seq<nat>)
    requires events != []
    requires
      var next := if Logged(log, events[0]) then log else log + [LogEntry(LastPosition(log) + 1, events[0])];
      NewOnes(next, events[1..], more)
    ensures NewOnes(log, events, if Logged(log, events[0]) then Shifted(more) else [0] + Shifted(more))
  {
    hide Logged, LastPosition, Holds;
    var picked := if Logged(log, events[0]) then Shifted(more) else [0] + Shifted(more);
    forall n | 0 <= n < |events|
      ensures n in picked <==> !Holds(log, events[n]) && forall m :: 0 <= m < n ==> !Alike(events[m], events[n])
    {
      HoldsIfLogged(log, events[n]);
      if n > 0 {
        var next := if Logged(log, events[0]) then log else log + [LogEntry(LastPosition(log) + 1, events[0])];
        HoldsIfLogged(next, events[1..][n - 1]);
        LaterEvents(log, events, n);
        ShiftedHas(more, n - 1);
      } else {
        ShiftedHas(more, 0);
      }
    }
  }

  lemma AddsKnown(log: seq<LogEntry>, events: seq<RunEvent>, more: seq<nat>, result: seq<LogEntry>)
    requires events != [] && AddsInOrder(log, events[1..], more, result)
    ensures AddsInOrder(log, events, Shifted(more), result)
  {
    assert forall n :: 0 <= n < |events| - 1 ==> events[1..][n] == events[n + 1];
  }

  lemma AddsNew(log: seq<LogEntry>, entry: LogEntry, events: seq<RunEvent>, more: seq<nat>, result: seq<LogEntry>)
    requires events != [] && entry.event == events[0] && AddsInOrder(log + [entry], events[1..], more, result) && log + [entry] <= result
    ensures AddsInOrder(log, events, [0] + Shifted(more), result)
  {
    assert result[|log|] == (log + [entry])[|log|] == entry;
    var picked := [0] + Shifted(more);
    forall i | 0 <= i < |picked| && picked[i] < |events|
      ensures result[|log| + i].event == events[picked[i]]
    {
      if i > 0 {
        assert picked[i] == more[i - 1] + 1;
        assert events[1..][more[i - 1]] == events[picked[i]];
        assert result[|log + [entry]| + (i - 1)].event == events[1..][more[i - 1]];
      }
    }
  }

  /** Of the events sent, those and only those are added whose identity is new, in the order sent. */
  lemma {:induction false} AppendsWhatIsNew(log: seq<LogEntry>, events: seq<RunEvent>) returns (picked: seq<nat>)
    ensures NewOnes(log, events, picked) && AddsInOrder(log, events, picked, Appended(log, events))
    decreases |events|
  {
    hide Logged, LastPosition, NewOnes, AddsInOrder, Shifted;
    if events == [] {
      picked := [];
      NoneNew(log);
    } else {
      var e, rest := events[0], events[1..];
      var entry := LogEntry(LastPosition(log) + 1, e);
      if Logged(log, e) {
        var more := AppendsWhatIsNew(log, rest);
        PicksOneMore(log, events, more);
        AddsKnown(log, events, more, Appended(log, events));
        picked := Shifted(more);
      } else {
        var more := AppendsWhatIsNew(log + [entry], rest);
        PicksOneMore(log, events, more);
        AppendedGrowsFrom(log + [entry], rest);
        AddsNew(log, entry, events, more, Appended(log, events));
        picked := [0] + Shifted(more);
      }
    }
  }

  lemma NoneNew(log: seq<LogEntry>)
    ensures NewOnes(log, [], []) && AddsInOrder(log, [], [], Appended(log, []))
  {
  }

  lemma {:induction false} AppendedGrowsFrom(log: seq<LogEntry>, events: seq<RunEvent>)
    ensures log <= Appended(log, events)
    decreases |events|
  {
    hide Logged, LastPosition;
    if events != [] {
      AppendedGrowsFrom(if Logged(log, events[0]) then log else log + [LogEntry(LastPosition(log) + 1, events[0])], events[1..]);
    }
  }

  lemma LaterEvents(log: seq<LogEntry>, events: seq<RunEvent>, n: nat)
    requires 0 < n < |events|
    ensures
      var e, rest := events[0], events[1..];
      var next := if Logged(log, e) then log else log + [LogEntry(LastPosition(log) + 1, e)];
      (!Logged(next, rest[n - 1]) && forall m :: 0 <= m < n - 1 ==> !Alike(rest[m], rest[n - 1])) <==>
        (!Logged(log, events[n]) && forall m :: 0 <= m < n ==> !Alike(events[m], events[n]))
  {
    var e, rest := events[0], events[1..];
    LoggedAfterAppend(log, LogEntry(LastPosition(log) + 1, e), events[n]);
    assert rest[n - 1] == events[n];
    assert forall m :: 0 <= m < n - 1 ==> rest[m] == events[m + 1];
    if Logged(log, e) && Alike(e, events[n]) {
      LoggedAlike(log, e, events[n]);
    }
    if forall m :: 0 <= m < n ==> !Alike(events[m], events[n]) {
      assert !Alike(events[0], events[n]);
    }
    if Alike(e, events[n]) {
      assert Alike(events[0], events[n]);
    }
    if (forall m :: 0 <= m < n - 1 ==> !Alike(rest[m], rest[n - 1])) && !Alike(e, events[n]) {
      forall m | 0 <= m < n ensures !Alike(events[m], events[n]) {
        if m > 0 {
          assert rest[m - 1] == events[m];
        }
      }
    }
  }

  lemma LoggedAlike(log: seq<LogEntry>, e: RunEvent, other: RunEvent)
    requires Logged(log, e) && Alike(e, other)
    ensures Logged(log, other)
  {
  }

  /** The run ended by this step. */
  predicate EndsNow(db: Db, a: Action, id: string) {
    && id in db.runs && !db.runs[id].status.Final()
    && id in Next(db, a).runs && Next(db, a).runs[id].status.Final()
  }

  lemma OnRunExpires(db: Db, a: Action, artifact: string)
    requires artifact in db.artifacts && a.step.OnRun? && Touches(db, a, a.step.id)
    ensures artifact in Next(db, a).artifacts
    ensures
      var before, after := db.artifacts[artifact], Next(db, a).artifacts[artifact];
      var ends := before.run == a.step.id && a.step.id in Next(db, a).runs && Next(db, a).runs[a.step.id].status.Final();
      after == if ends && before.expiresAt.None? then before.(expiresAt := Some(a.now + 604800.0)) else before
  {
    hide VerbVerdict;
  }

  lemma OthersDoNotExpire(db: Db, a: Action, artifact: string)
    requires artifact in db.artifacts && artifact in Next(db, a).artifacts && !a.step.OnRun?
    ensures Next(db, a).artifacts[artifact] == db.artifacts[artifact]
    ensures !EndsNow(db, a, db.artifacts[artifact].run)
  {
  }

  /** An ending starts the run's artifacts' seven days; nothing else touches an artifact that stays. */
  lemma EndingStartsRetention(db: Db, a: Action, artifact: string)
    requires DbInv(db) && artifact in db.artifacts && artifact in Next(db, a).artifacts
    ensures
      var before, after := db.artifacts[artifact], Next(db, a).artifacts[artifact];
      after == if EndsNow(db, a, before.run) then before.(expiresAt := Some(a.now + 604800.0)) else before
  {
    hide Next, RowInv, LogInv;
    var run := db.artifacts[artifact].run;
    if !a.step.OnRun? {
      OthersDoNotExpire(db, a, artifact);
    } else if !Touches(db, a, a.step.id) {
      RefusedChangesNothing(db, a);
    } else {
      OnRunExpires(db, a, artifact);
      if a.step.id == run {
        EndedDoesNotChange(db, a, run);
      } else {
        OtherRunsUntouched(db, a, run);
      }
    }
  }

  lemma EndedDoesNotChange(db: Db, a: Action, id: string)
    requires DbInv(db) && id in db.runs && Touches(db, a, id)
    ensures !db.runs[id].status.Final() && id in Next(db, a).runs
  {
    hide Next;
    Touched(db, a, id);
    if db.runs[id].status.Final() {
      EndedRowIsFrozen(db, db.runs[id], a.step.verb, a.now);
    }
  }

  /** An artifact goes exactly when it is removed past its expiry. */
  lemma RemoveEffect(db: Db, a: Action, artifact: string)
    requires artifact in db.artifacts
    ensures artifact !in Next(db, a).artifacts <==>
      && a.step == RemoveArtifact(artifact)
      && db.artifacts[artifact].expiresAt.Some? && db.artifacts[artifact].expiresAt.value < a.now
  {
  }

  /** A run goes exactly when it is purged ended, unchanged since before the limit, and without artifacts. */
  lemma PurgeEffect(db: Db, a: Action, id: string)
    requires id in db.runs
    ensures id !in Next(db, a).runs <==>
      && a.step.Purge? && a.step.id == id
      && db.runs[id].status.Final() && db.runs[id].updatedAt < a.step.before
      && forall artifact :: artifact in db.artifacts ==> db.artifacts[artifact].run != id
  {
  }

  /** An artifact is added exactly when its writer may and the run has none of that content; the database
      refuses an id in use. */
  lemma AddArtifactEffect(db: Db, id: string, tenant: string, artifact: string, checksum: string, writer: Option<string>, role: string, now: Time)
    ensures
      var after := Next(db, Action(Step.AddArtifact(id, tenant, artifact, checksum, writer, role), now));
      var adds := ArtifactFault(db, id, tenant, writer, role).None? && artifact !in db.artifacts
                  && forall a :: a in db.artifacts && db.artifacts[a].run == id ==> db.artifacts[a].checksum != checksum;
      after == if adds then db.(artifacts := db.artifacts[artifact := Artifact(id, checksum, None)]) else db
  {
  }

  /** Who may add an artifact: the holder or unnamed caller of a RUNNING run, a service key to a PAUSED one. */
  lemma ArtifactEffect(db: Db, id: string, tenant: string, writer: Option<string>, role: string)
    ensures
      var fault := ArtifactFault(db, id, tenant, writer, role);
      && (fault.None? <==>
            && Visible(db, id, Some(tenant))
            && ((db.runs[id].status.Running? && db.runs[id].leaseOwner == writer) || (db.runs[id].status.Paused? && role == "service")))
      && (!Visible(db, id, Some(tenant)) ==> fault == Some(NotFound))
      && (Visible(db, id, Some(tenant)) && fault.Some? ==>
            fault == Some(if db.runs[id].status.Paused? then Forbidden else if writer.Some? then LeaseLost else Conflict))
  {
  }
}
