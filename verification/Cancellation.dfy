/** What a cancel asked of a leased run leads to, whatever its worker, people and the ticker do. */
module Cancellation {
  import opened Domain
  import opened Transitions
  import opened Database
  import opened Invariants
  import opened Lifecycle

  /** Asked to stop at `tc`, still running under a lease that ends within one longest lease. */
  predicate Stopping(r: Run, tc: Time) {
    && r.Leased()
    && r.cancelRequestedAt == Some(tc)
    && r.leaseExpiresAt.Some? && r.leaseExpiresAt.value <= tc + MAX_LEASE_SECONDS
  }

  /** Whatever the verb, a run asked to stop goes on stopping or ends: it is never paused, never
      put back on the queue, and no heartbeat takes its lease past the bound. */
  lemma StoppingGoesOnOrEnds(db: Db, r: Run, verb: Verb, now: Time, tc: Time)
    requires RowInv(r) && Stopping(r, tc)
    requires VerbVerdict(db, r, verb, now).Changed?
    requires verb.Finish? ==> verb.ending.status.Final()
    requires verb.Heartbeat? ==> verb.seconds <= MAX_LEASE_SECONDS
    ensures
      var after := VerbVerdict(db, r, verb, now).run;
      after.status.Final() || (Stopping(after, tc) && after.attempt == r.attempt)
  {
  }

  // ---------------------------------------------------------------- the lease's bound

  function Clock(trace: seq<Action>, n: nat): Time
    requires 0 < n <= |trace|
  {
    trace[n - 1].now
  }

  /** A lease never runs further than one longest lease past the clock, nor past a cancel request. */
  predicate LeaseBounded(r: Run, clock: Time) {
    r.leaseExpiresAt.Some? ==>
      && r.leaseExpiresAt.value <= clock + MAX_LEASE_SECONDS
      && (r.cancelRequestedAt.Some? ==>
            && r.cancelRequestedAt.value <= clock
            && r.leaseExpiresAt.value <= r.cancelRequestedAt.value + MAX_LEASE_SECONDS)
  }

  lemma ChangeKeepsLeaseBound(db: Db, r: Run, verb: Verb, now: Time, clock: Time)
    requires RowInv(r) && LeaseBounded(r, clock) && clock <= now
    requires VerbVerdict(db, r, verb, now).Changed?
    requires verb.Heartbeat? ==> verb.seconds <= MAX_LEASE_SECONDS
    requires verb.Claim? ==> verb.seconds <= MAX_LEASE_SECONDS
    ensures LeaseBounded(VerbVerdict(db, r, verb, now).run, now)
  {
  }

  lemma {:induction false} LeasesBounded(trace: seq<Action>, n: nat, id: string)
    requires Timely(trace) && 0 < n <= |trace| && id in After(trace, n).runs
    ensures LeaseBounded(After(trace, n).runs[id], Clock(trace, n))
  {
    hide Next;
    var db, a := After(trace, n - 1), trace[n - 1];
    Reachable(trace, n - 1);
    if id !in db.runs {
      BornByStart(db, a, id);
    } else {
      LeasesBounded(trace, n - 1, id);
      assert Clock(trace, n - 1) <= a.now;
      RowAfter(db, a, id);
      if Touches(db, a, id) {
        Touched(db, a, id);
        assert LeaseInBounds(a.step);
        ChangeKeepsLeaseBound(db, db.runs[id], a.step.verb, a.now, Clock(trace, n - 1));
      }
    }
  }

  // ---------------------------------------------------------------- over every trace

  /** A leased run was asked to cancel; in every state from there on, it is
      either still stopping (same attempt, lease within `tc` + 3600 s) or it has ended. */
  lemma {:induction false} CancelIsForGood(trace: seq<Action>, id: string, i: nat, j: nat)
    requires Timely(trace) && i <= j <= |trace| && Alive(trace, id, i, j)
    requires After(trace, i).runs[id].cancelRequestedAt.Some?
    ensures
      var before, after := After(trace, i).runs[id], After(trace, j).runs[id];
      || after.status.Final()
      || (Stopping(after, before.cancelRequestedAt.value) && after.attempt == before.attempt)
    decreases j
  {
    hide Next;
    var tc := After(trace, i).runs[id].cancelRequestedAt.value;
    if i == j {
      Reachable(trace, i);
      assert 0 < i;
      LeasesBounded(trace, i, id);
    } else {
      CancelIsForGood(trace, id, i, j - 1);
      var db, a := After(trace, j - 1), trace[j - 1];
      Reachable(trace, j - 1);
      assert id in db.runs && id in After(trace, j).runs;
      RowAfter(db, a, id);
      if db.runs[id].status.Final() {
        EndedIsFrozen(db, a, id);
      } else if Touches(db, a, id) {
        Touched(db, a, id);
        assert LeaseInBounds(a.step);
        StoppingGoesOnOrEnds(db, db.runs[id], a.step.verb, a.now, tc);
      }
    }
  }

  /** The `k`-th operation is a lease sweep that reaches the run. */
  predicate SweepReaches(trace: seq<Action>, k: nat, id: string)
    requires k < |trace|
  {
    && trace[k].step.OnRun? && trace[k].step.id == id && trace[k].step.tenant.None?
    && trace[k].step.verb.RequeueLapsed?
  }

  /** A lease sweep that reaches a run asked to stop ends it CANCELLED exactly when its lease is
      over by then; else it leaves the run as it is. */
  lemma SweepCancels(trace: seq<Action>, id: string, i: nat, k: nat)
    requires Timely(trace) && i <= k < |trace| && Alive(trace, id, i, k)
    requires After(trace, i).runs[id].cancelRequestedAt.Some? && !After(trace, k).runs[id].status.Final()
    requires SweepReaches(trace, k, id)
    ensures id in After(trace, k + 1).runs && After(trace, k).runs[id].leaseExpiresAt.Some?
    ensures After(trace, k + 1).runs[id].status.Cancelled? <==> After(trace, k).runs[id].leaseExpiresAt.value < trace[k].now
    ensures !After(trace, k + 1).runs[id].status.Cancelled? ==> After(trace, k + 1).runs[id] == After(trace, k).runs[id]
  {
    hide Next;
    CancelIsForGood(trace, id, i, k);
    var db, a := After(trace, k), trace[k];
    Reachable(trace, k);
    LiveRunsStay(db, a, id);
    RowAfter(db, a, id);
  }

  /** So whatever leases its heartbeats ask for, a sweep any time after one longest lease from the
      request finds the run ended or ends it. */
  lemma SweepEndsIt(trace: seq<Action>, id: string, i: nat, k: nat)
    requires Timely(trace) && i <= k < |trace| && Alive(trace, id, i, k)
    requires After(trace, i).runs[id].cancelRequestedAt.Some? && SweepReaches(trace, k, id)
    requires trace[k].now > After(trace, i).runs[id].cancelRequestedAt.value + MAX_LEASE_SECONDS
    ensures id in After(trace, k + 1).runs && After(trace, k + 1).runs[id].status.Final()
    ensures After(trace, k).runs[id].status.Final() || After(trace, k + 1).runs[id].status.Cancelled?
  {
    hide Next;
    CancelIsForGood(trace, id, i, k);
    if After(trace, k).runs[id].status.Final() {
      Reachable(trace, k);
      EndedIsFrozen(After(trace, k), trace[k], id);
      RowAfter(After(trace, k), trace[k], id);
    } else {
      SweepCancels(trace, id, i, k);
    }
  }

  // ---------------------------------------------------------------- what a heartbeat still moves

  /** The lifecycle notes say a heartbeat no longer extends the lease of a run asked to stop. It is
      measured from the request instead, so it does extend it exactly when it asks for more than
      the lease had left at the request. */
  lemma HeartbeatExtendsIff(r: Run, tc: Time, seconds: Time, state: Option<Json>, now: Time)
    requires RowInv(r) && Stopping(r, tc)
    ensures
      var beat := HeartbeatVerdict(r, r.leaseOwner.value, seconds, state, now);
      && beat.Changed? && beat.run.leaseExpiresAt.Some?
      && (beat.run.leaseExpiresAt.value > r.leaseExpiresAt.value <==> seconds > r.leaseExpiresAt.value - tc)
  {
  }

  const BEGINS := Action(Start("x", "t", Asked("a", None, None, 0, None, ""), None, true), 0.0)
  const TAKEN := Action(OnRun("x", Some("t"), Verb.Claim({"a"}, "w", 60.0)), 0.0)
  const ASKED_TO_STOP := Action(OnRun("x", Some("t"), Verb.Cancel(None, "p", true)), 10.0)
  const BEATS := Action(OnRun("x", Some("t"), Verb.Heartbeat("w", 3600.0, None)), 20.0)

  lemma StopsAndBeats()
    ensures
      var stopping := Next(Next(Next(EMPTY, BEGINS), TAKEN), ASKED_TO_STOP);
      && "x" in stopping.runs && Stopping(stopping.runs["x"], 10.0) && stopping.runs["x"].leaseExpiresAt == Some(60.0)
      && "x" in Next(stopping, BEATS).runs && Next(stopping, BEATS).runs["x"].leaseExpiresAt == Some(3610.0)
  {
    var started := Next(EMPTY, BEGINS);
    assert started.runs["x"] == Started("t", BEGINS.step.asked, None, true, 0.0);
    var claimed := Next(started, TAKEN);
    assert claimed.runs["x"] == ClaimVerdict(started.runs["x"], {"a"}, "w", 60.0, 0.0).run;
    var stopping := Next(claimed, ASKED_TO_STOP);
    assert stopping.runs["x"] == CancelVerdict(claimed.runs["x"], None, "p", true, 10.0).run;
  }

  /** A cancel asked 10 s into a 60 s lease; the next heartbeat asks for an hour and gets it. */
  lemma HeartbeatDoesExtend()
    ensures
      var trace := [BEGINS, TAKEN, ASKED_TO_STOP, BEATS];
      && Timely(trace)
      && "x" in After(trace, 3).runs && Stopping(After(trace, 3).runs["x"], 10.0)
      && After(trace, 3).runs["x"].leaseExpiresAt == Some(60.0)
      && "x" in After(trace, 4).runs && After(trace, 4).runs["x"].leaseExpiresAt == Some(3610.0)
  {
    hide Next;
    var trace := [BEGINS, TAKEN, ASKED_TO_STOP, BEATS];
    StopsAndBeats();
    assert After(trace, 1) == Next(After(trace, 0), trace[0]);
    assert After(trace, 2) == Next(After(trace, 1), trace[1]);
    assert After(trace, 3) == Next(After(trace, 2), trace[2]);
    assert After(trace, 4) == Next(After(trace, 3), trace[3]);
  }
}
