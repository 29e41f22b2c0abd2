/** What each operation does to one run's row: the store's private helpers, and the decision each
    verb and each sweep takes under the row lock. */
module Transitions {
  import opened Domain

  // ---------------------------------------------------------------- the helpers

  /** How long the run has been RUNNING by `now`, in all. */
  function Worked(r: Run, now: Time): Time {
    if r.runningSince.None? then r.worked
    else r.worked + (if now > r.runningSince.value then now - r.runningSince.value else 0.0)
  }

  /** The row after the one transition, `_move`; callers check `CanBecome` first. */
  function Moved(r: Run, to: Status, now: Time): Run {
    r.(worked := Worked(r, now),
       runningSince := if to.Running? then Some(now) else None,
       status := to,
       updatedAt := now,
       settledBy := None,
       availableAt := if to.Queued? then r.availableAt else None,
       leaseOwner := if to.Running? then r.leaseOwner else None,
       leaseExpiresAt := if to.Running? then r.leaseExpiresAt else None,
       cancelRequestedAt := if to.Running? then r.cancelRequestedAt else None,
       awaiting := if to.Paused? then r.awaiting else None,
       assignee := if to.Paused? then r.assignee else None,
       awaitingDeadline := if to.Paused? then r.awaitingDeadline else None,
       checkpoint := if to.Final() then None else r.checkpoint)
  }

  /** Requeued: a new attempt, which no claim may take before `wait` is over. */
  function Requeued(r: Run, now: Time, wait: Option<Time>): Run {
    var m := Moved(r, Queued, now);
    m.(attempt := m.attempt + 1,
       queuedAt := Some(now),
       availableAt := if wait.None? then None else Some(now + wait.value))
  }

  /** The lease runs from the cancel request when there is one, else from now. */
  function Leasing(r: Run, worker: string, seconds: Time, now: Time): Run {
    var from := if r.cancelRequestedAt.Some? then r.cancelRequestedAt.value else now;
    r.(leaseOwner := Some(worker), leaseExpiresAt := Some(from + seconds))
  }

  /** A named worker that does not hold the lease. */
  predicate FencedOff(r: Run, worker: Option<string>) {
    worker.Some? && r.leaseOwner != worker
  }

  predicate Settled(r: Run, status: Status, worker: Option<string>) {
    r.status == status && r.settledBy == worker
  }

  /** Does the failure lead to a retry and not to an end? */
  predicate Retried(r: Run, ending: Ending) {
    && ending.status.Error?
    && ending.error.Some? && ending.error.value.retryable
    && r.status.Running?
    && r.Durable()
    && r.errorRetries < MAX_ERROR_RETRIES
    && r.cancelRequestedAt.None?
  }

  /** The tighter of the two working-time limits, the run's and the service's. */
  function Limit(r: Run, service: Option<Time>): Option<Time> {
    if r.asked.timeout.None? then service
    else if service.None? then r.asked.timeout
    else Some(Least(r.asked.timeout.value, service.value))
  }

  // ---------------------------------------------------------------- the verbs

  datatype Verdict = Refused(fault: Fault) | Unchanged | Changed(run: Run)

  function MoveTo(r: Run, to: Status, now: Time): Verdict {
    if r.status.CanBecome(to) then Changed(Moved(r, to, now)) else Refused(Conflict)
  }

  function PauseVerdict(r: Run, interrupt: Interrupt, checkpoint: Option<Json>,
                        worker: Option<string>, now: Time): Verdict
  {
    if Settled(r, Paused, worker) && r.WaitsOn(interrupt.id) then Unchanged
    else if FencedOff(r, worker) then Refused(LeaseLost)
    else if r.cancelRequestedAt.Some? then
      if r.status.CanBecome(Cancelled) then Changed(Moved(r, Cancelled, now).(settledBy := worker))
      else Refused(Conflict)
    else if r.status.CanBecome(Paused) then
      Changed(Moved(r, Paused, now).(
                checkpoint := checkpoint,
                awaiting := Some(interrupt),
                assignee := interrupt.assignee,
                awaitingDeadline := interrupt.deadline,
                settledBy := worker))
    else Refused(Conflict)
  }

  /** `kept` is the answer stored for this interrupt, `taken` whether its primary key is. */
  function ResumeVerdict(r: Run, resolution: Resolution, kept: Option<Resolution>, taken: bool,
                         mayAnswer: bool, fits: bool, now: Time): Verdict
  {
    if !r.WaitsOn(resolution.interrupt) then
      if kept == Some(resolution) then Unchanged else Refused(Conflict)
    else if !mayAnswer then Refused(Forbidden)
    else if !fits then Refused(Unprocessable)
    else
      var next := ResumedAs(r.(lastResolution := Some(resolution)), resolution.decision, now);
      if next.Changed? && taken then Refused(Integrity) else next
  }

  function ResumedAs(r: Run, decision: Decision, now: Time): Verdict {
    if decision.Cancel? then MoveTo(r, Cancelled, now)
    else if r.Durable() then
      if r.status.CanBecome(Queued) then Changed(Requeued(r, now, None)) else Refused(Conflict)
    else if r.status.CanBecome(Running) then
      Changed(Moved(r, Running, now).(attempt := r.attempt + 1))
    else Refused(Conflict)
  }

  function CancelVerdict(r: Run, reason: Option<string>, principal: string, mayCancel: bool, now: Time): Verdict
  {
    if !mayCancel then Refused(Forbidden)
    else if || r.cancelRequestedAt.Some?
            || (r.status.Cancelled? && r.cancelledBy == Some(principal) && r.cancelReason == reason) then Unchanged
    else if r.Leased() then
      Changed(r.(cancelRequestedAt := Some(now), updatedAt := now,
                 cancelReason := reason, cancelledBy := Some(principal)))
    else if r.status.CanBecome(Cancelled) then
      Changed(Moved(r, Cancelled, now).(cancelReason := reason, cancelledBy := Some(principal)))
    else Refused(Conflict)
  }

  function FinishVerdict(r: Run, ending: Ending, worker: Option<string>, draw: real, now: Time): Verdict
  {
    var requeued := ending.status.Error? && worker.Some? && Settled(r, Queued, worker);
    if Settled(r, ending.status, worker) || requeued then Unchanged
    else if FencedOff(r, worker) then Refused(LeaseLost)
    else if Retried(r, ending) then
      var counted := r.(errorRetries := r.errorRetries + 1);
      var wait := Backoff(ERROR_RETRY_BASE, counted.errorRetries, ERROR_RETRY_CAP);
      if r.status.CanBecome(Queued) then
        Changed(Requeued(counted, now, Some(Jittered(wait, draw))).(settledBy := worker))
      else Refused(Conflict)
    else if r.status.CanBecome(ending.status) then
      Changed(Moved(r, ending.status, now).(
                output := ending.output, error := ending.error, settledBy := worker))
    else Refused(Conflict)
  }

  /** A row a claim may take: queued, of one of the worker's agents, past any backoff. */
  predicate Claimable(r: Run, agents: set<string>, now: Time) {
    && r.status.Queued?
    && r.asked.agent in agents
    && (r.availableAt.None? || r.availableAt.value <= now)
  }

  function ClaimVerdict(r: Run, agents: set<string>, worker: string, seconds: Time, now: Time): Verdict {
    if Claimable(r, agents, now) then Changed(Leasing(Moved(r, Running, now), worker, seconds, now))
    else Unchanged
  }

  function HeartbeatVerdict(r: Run, worker: string, seconds: Time, checkpoint: Option<Json>, now: Time): Verdict
  {
    if FencedOff(r, Some(worker)) then Refused(LeaseLost)
    else if !r.status.Running? then Refused(LeaseLost)
    else
      var saved := if checkpoint.None? then r else r.(checkpoint := checkpoint, updatedAt := now);
      Changed(Leasing(saved, worker, seconds, now))
  }

  function ReleaseVerdict(r: Run, worker: string, checkpoint: Option<Json>, now: Time): Verdict {
    if Settled(r, Queued, Some(worker)) then Unchanged
    else if FencedOff(r, Some(worker)) then Refused(LeaseLost)
    else if r.cancelRequestedAt.Some? then
      if r.status.CanBecome(Cancelled) then Changed(Moved(r, Cancelled, now).(settledBy := Some(worker)))
      else Refused(Conflict)
    else if r.status.CanBecome(Queued) then
      var q := Requeued(r, now, None);
      Changed(q.(checkpoint := if checkpoint.None? then q.checkpoint else checkpoint,
                 settledBy := Some(worker)))
    else Refused(Conflict)
  }

  // ---------------------------------------------------------------- the ticker's sweeps

  predicate PastDeadline(r: Run, now: Time) {
    && (r.status.Queued? || r.status.Running? || r.status.Paused?)
    && r.asked.deadline.Some? && r.asked.deadline.value < now
  }

  function TimedOut(r: Run, code: string, retryable: bool, now: Time): Run {
    Moved(r, Timeout, now).(error := Some(Failure(code, retryable)))
  }

  function DeadlineVerdict(r: Run, now: Time): Verdict {
    if PastDeadline(r, now) then Changed(TimedOut(r, "run_deadline", false, now)) else Unchanged
  }

  /** The sweep's SQL condition: LEAST ignores a NULL, a comparison with NULL selects nothing, and
      the stretch going on is not clamped at zero. */
  predicate Overworked(r: Run, service: Option<Time>, now: Time) {
    var allowed := Limit(r, service);
    && r.status.Running?
    && allowed.Some? && r.runningSince.Some?
    && r.worked + (now - r.runningSince.value) > allowed.value
  }

  function OverworkVerdict(r: Run, service: Option<Time>, now: Time): Verdict {
    if Overworked(r, service, now) then Changed(TimedOut(r, "run_timeout", false, now)) else Unchanged
  }

  predicate Lapsed(r: Run, now: Time) {
    r.status.Running? && r.leaseExpiresAt.Some? && r.leaseExpiresAt.value < now
  }

  function LapseVerdict(r: Run, draw: real, now: Time): Verdict {
    if !Lapsed(r, now) then Unchanged
    else if r.cancelRequestedAt.Some? then Changed(Moved(r, Cancelled, now))
    else
      var counted := r.(leaseLapses := r.leaseLapses + 1);
      if counted.leaseLapses >= MAX_LEASE_LAPSES then
        Changed(Moved(counted, Error, now).(error := Some(Failure("lease_expired", true))))
      else
        var wait := Backoff(LAPSE_RETRY_BASE, counted.leaseLapses, LAPSE_RETRY_CAP);
        Changed(Requeued(counted, now, Some(Jittered(wait, draw))))
  }

  predicate Overdue(r: Run, now: Time) {
    r.status.Paused? && r.awaiting.Some? && r.awaitingDeadline.Some? && r.awaitingDeadline.value < now
  }

  function EscalateVerdict(r: Run, now: Time): Verdict {
    if !Overdue(r, now) then Unchanged
    else
      var asked := r.awaiting.value;
      if asked.escalateTo.Some? && asked.escalateTo.value != "" then
        var escalated := asked.(assignee := asked.escalateTo, escalateTo := None, deadline := None);
        Changed(r.(awaiting := Some(escalated), assignee := escalated.assignee,
                   awaitingDeadline := None, updatedAt := now))
      else Changed(TimedOut(r, "interrupt_deadline", true, now))
  }
}
