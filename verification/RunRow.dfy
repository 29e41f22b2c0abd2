/** A run's row as an operation holds it, locked and changed in place. */
module RunRows {
  import opened Domain
  import opened Transitions

  /** What a claim and a heartbeat tell the worker. */
  datatype Lease = Lease(worker: string, expiresAt: Time, remaining: Option<Time>, cancelRequested: bool)

  /** The lease a row stands for: the working time left is never told as less than none. */
  function LeaseOf(r: Run, service: Option<Time>, now: Time): Lease
    requires r.leaseOwner.Some? && r.leaseExpiresAt.Some?
  {
    var limit := Limit(r, service);
    Lease(r.leaseOwner.value, r.leaseExpiresAt.value,
          if limit.None? then None
          else Some(if limit.value - Worked(r, now) > 0.0 then limit.value - Worked(r, now) else 0.0),
          r.cancelRequestedAt.Some?)
  }

  /** The row as loaded under its lock; every method changes `run`'s columns in place. */
  class RunRow {
    var run: Run

    constructor (run: Run)
      ensures this.run == run
    {
      this.run := run;
    }

    /** The one transition check, and what each transition clears. False: refused, nothing done. */
    method Move(to: Status, now: Time) returns (moved: bool)
      modifies this
      ensures moved <==> old(run).status.CanBecome(to)
      ensures run == if moved then Moved(old(run), to, now) else old(run)
    {
      if !run.status.CanBecome(to) {
        return false;
      }
      run := run.(worked := Worked(run, now));
      run := run.(runningSince := if to.Running? then Some(now) else None);
      run := run.(status := to, updatedAt := now, settledBy := None);
      if !to.Queued? {
        run := run.(availableAt := None);
      }
      if !to.Running? {
        run := run.(leaseOwner := None, leaseExpiresAt := None, cancelRequestedAt := None);
      }
      if !to.Paused? {
        run := run.(awaiting := None, assignee := None, awaitingDeadline := None);
      }
      if to.Final() {
        run := run.(checkpoint := None);
      }
      return true;
    }

    method Requeue(now: Time, wait: Option<Time>) returns (moved: bool)
      modifies this
      ensures moved <==> old(run).status.CanBecome(Queued)
      ensures run == if moved then Requeued(old(run), now, wait) else old(run)
    {
      moved := Move(Queued, now);
      if moved {
        run := run.(attempt := run.attempt + 1, queuedAt := Some(now));
        run := run.(availableAt := if wait.None? then None else Some(now + wait.value));
      }
    }

    /** Was a cancel asked for? Then the run ends here, if it may. */
    method CancelledInstead(now: Time) returns (cancelled: bool, moved: bool)
      modifies this
      ensures cancelled <==> old(run).cancelRequestedAt.Some?
      ensures moved <==> cancelled && old(run).status.CanBecome(Cancelled)
      ensures run == if moved then Moved(old(run), Cancelled, now) else old(run)
    {
      if run.cancelRequestedAt.None? {
        return false, false;
      }
      moved := Move(Cancelled, now);
      cancelled := true;
    }

    /** An answered run ends, goes back on the queue, or runs on in its caller's process. */
    method Continue(decision: Decision, now: Time) returns (moved: bool)
      modifies this
      ensures ResumedAs(old(run), decision, now) == if moved then Changed(run) else Refused(Conflict)
    {
      if decision.Cancel? {
        moved := Move(Cancelled, now);
      } else if run.queuedAt.Some? {
        moved := Requeue(now, None);
      } else {
        moved := Move(Running, now);
        if moved {
          run := run.(attempt := run.attempt + 1);
        }
      }
    }

    method LeaseTo(worker: string, seconds: Time, service: Option<Time>, now: Time) returns (lease: Lease)
      modifies this
      ensures run == Leasing(old(run), worker, seconds, now)
      ensures lease == LeaseOf(run, service, now)
    {
      var cancelling := run.cancelRequestedAt;
      var expiresAt := (if cancelling.Some? then cancelling.value else now) + seconds;
      run := run.(leaseOwner := Some(worker), leaseExpiresAt := Some(expiresAt));
      var limit := Limit(run, service);
      var remaining: Option<Time> := None;
      if limit.Some? {
        var left := limit.value - Worked(run, now);
        remaining := Some(if left > 0.0 then left else 0.0);
      }
      return Lease(worker, expiresAt, remaining, cancelling.Some?);
    }
  }
}
