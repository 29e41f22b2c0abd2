/** What holds over every trace of operations: the attempt as a fencing token, and the conservation
    of attempts. */
module Lifecycle {
  import opened Domain
  import opened Transitions
  import opened Database
  import opened Invariants

  // ---------------------------------------------------------------- one step, one run

  predicate Touches(db: Db, a: Action, id: string) {
    && a.step.OnRun? && a.step.id == id
    && Reply(db, id, a.step.tenant, a.step.verb, a.now).Changed?
  }

  /** A run's row changes only by a verb on that run. */
  lemma RowAfter(db: Db, a: Action, id: string)
    requires id in db.runs && id in Next(db, a).runs
    ensures Next(db, a).runs[id] ==
      if Touches(db, a, id) then Reply(db, id, a.step.tenant, a.step.verb, a.now).run else db.runs[id]
  {
    if a.step.OnRun? && a.step.id != id {
      OtherRunsUntouched(db, a, id);
    }
  }

  /** A change unfolded: the row was there, was consistent, and the verb was well formed. */
  lemma Touched(db: Db, a: Action, id: string)
    requires Touches(db, a, id)
    ensures id in db.runs && id in Next(db, a).runs
    ensures VerbVerdict(db, db.runs[id], a.step.verb, a.now) == Changed(Next(db, a).runs[id])
    ensures a.step.verb.Finish? ==> a.step.verb.ending.status.Final()
    ensures a.step.verb.Resume? ==> a.step.verb.resolution.run == id
  {
  }

  // ---------------------------------------------------------------- how far a run has come

  /** A run's progress: its attempt, and within the attempt how far it has come. */
  function Stage(r: Run): int {
    if r.status.Queued? then 0
    else if r.status.Running? then 1
    else if r.status.Paused? then if r.awaitingDeadline.Some? then 2 else 3
    else 4
  }

  function Rank(r: Run): int {
    5 * r.attempt + Stage(r)
  }

  lemma ChangeNeverGoesBack(db: Db, r: Run, verb: Verb, now: Time)
    requires RowInv(r) && VerbVerdict(db, r, verb, now).Changed?
    requires verb.Finish? ==> verb.ending.status.Final()
    ensures
      var after := VerbVerdict(db, r, verb, now).run;
      && Rank(r) <= Rank(after)
      && (Rank(r) == Rank(after) ==> after.status == r.status)
      && r.attempt <= after.attempt
  {
  }

  lemma StepNeverGoesBack(db: Db, a: Action, id: string)
    requires DbInv(db) && id in db.runs && id in Next(db, a).runs
    ensures Rank(db.runs[id]) <= Rank(Next(db, a).runs[id])
    ensures db.runs[id].attempt <= Next(db, a).runs[id].attempt
  {
    hide Next;
    RowAfter(db, a, id);
    if Touches(db, a, id) {
      Touched(db, a, id);
      ChangeNeverGoesBack(db, db.runs[id], a.step.verb, a.now);
    }
  }

  lemma NeverGoesBackAt(trace: seq<Action>, id: string, k: nat)
    requires k < |trace| && id in After(trace, k).runs && id in After(trace, k + 1).runs
    ensures Rank(After(trace, k).runs[id]) <= Rank(After(trace, k + 1).runs[id])
    ensures After(trace, k).runs[id].attempt <= After(trace, k + 1).runs[id].attempt
  {
    hide Next;
    Reachable(trace, k);
    StepNeverGoesBack(After(trace, k), trace[k], id);
  }

  /** Within one life of a run nothing takes it back to an earlier stage of an attempt. */
  lemma {:induction false} RankNeverFalls(trace: seq<Action>, id: string, i: nat, j: nat)
    requires i <= j <= |trace| && Alive(trace, id, i, j)
    ensures Rank(After(trace, i).runs[id]) <= Rank(After(trace, j).runs[id])
    ensures After(trace, i).runs[id].attempt <= After(trace, j).runs[id].attempt
    decreases j
  {
    hide Next;
    if i < j {
      RankNeverFalls(trace, id, i, j - 1);
      NeverGoesBackAt(trace, id, j - 1);
    }
  }

  // ---------------------------------------------------------------- the fencing token

  /** The `k`-th operation is a claim that took the run for `worker`. */
  predicate ClaimedAt(trace: seq<Action>, k: nat, id: string, worker: string)
    requires k < |trace|
  {
    && Touches(After(trace, k), trace[k], id)
    && trace[k].step.verb.Claim? && trace[k].step.verb.claimer == worker
  }

  predicate HeldAt(trace: seq<Action>, k: nat, id: string, worker: string)
    requires k <= |trace|
  {
    id in After(trace, k).runs && After(trace, k).runs[id].leaseOwner == Some(worker)
  }

  function AttemptAt(trace: seq<Action>, k: nat, id: string): int
    requires k <= |trace| && id in After(trace, k).runs
  {
    After(trace, k).runs[id].attempt
  }

  /** A claim finds the run queued and leaves it leased, at the attempt it found. */
  lemma ClaimTakesTheQueued(trace: seq<Action>, k: nat, id: string, worker: string)
    requires k < |trace| && ClaimedAt(trace, k, id, worker)
    ensures id in After(trace, k).runs && After(trace, k).runs[id].status.Queued?
    ensures HeldAt(trace, k + 1, id, worker) && After(trace, k + 1).runs[id].status.Running?
    ensures AttemptAt(trace, k + 1, id) == AttemptAt(trace, k, id)
  {
    hide Next;
    Touched(After(trace, k), trace[k], id);
  }

  /** No two claims of a run carry the same attempt: a later claim's is larger. */
  lemma ClaimsCarryDistinctAttempts(trace: seq<Action>, id: string, i: nat, j: nat, one: string, other: string)
    requires i < j < |trace| && Alive(trace, id, i, j)
    requires ClaimedAt(trace, i, id, one) && ClaimedAt(trace, j, id, other)
    ensures AttemptAt(trace, i, id) < AttemptAt(trace, j, id)
  {
    hide Next;
    ClaimTakesTheQueued(trace, i, id, one);
    ClaimTakesTheQueued(trace, j, id, other);
    assert Alive(trace, id, i + 1, j);
    RankNeverFalls(trace, id, i + 1, j);
  }

  /** The action writes in the name of `worker` to this run. */
  predicate WritesAs(step: Step, id: string, worker: string) {
    || (step.OnRun? && step.id == id && step.verb.Names() == Some(worker))
    || (step.Append? && step.id == id && step.writer == Some(worker))
  }

  /** A worker that does not hold the lease changes nothing in any table. */
  lemma WithoutTheLeaseNothingChanges(db: Db, a: Action, id: string, worker: string)
    requires WritesAs(a.step, id, worker)
    requires id in db.runs ==> db.runs[id].leaseOwner != Some(worker)
    ensures Next(db, a) == db
  {
    if a.step.OnRun? {
      RefusedChangesNothing(db, a);
    }
  }

  lemma LeaseComesOnlyByClaim(db: Db, r: Run, verb: Verb, now: Time, worker: string)
    requires VerbVerdict(db, r, verb, now).Changed?
    requires r.leaseOwner != Some(worker) && VerbVerdict(db, r, verb, now).run.leaseOwner == Some(worker)
    ensures verb.Claim? && verb.claimer == worker
  {
  }

  /** A worker that did not hold the run and now does has claimed it in between. */
  lemma {:induction false} RegainedByClaim(trace: seq<Action>, id: string, worker: string, i: nat, j: nat)
    returns (c: nat)
    requires i <= j <= |trace| && Alive(trace, id, i, j)
    requires !HeldAt(trace, i, id, worker) && HeldAt(trace, j, id, worker)
    ensures i <= c < j && ClaimedAt(trace, c, id, worker)
    decreases j
  {
    hide Next;
    if HeldAt(trace, j - 1, id, worker) {
      c := RegainedByClaim(trace, id, worker, i, j - 1);
    } else {
      c := j - 1;
      var db := After(trace, c);
      assert id in db.runs && id in Next(db, trace[c]).runs;
      RowAfter(db, trace[c], id);
      Touched(db, trace[c], id);
      LeaseComesOnlyByClaim(db, db.runs[id], trace[c].step.verb, trace[c].now, worker);
    }
  }

  /** The fencing token. A worker held the run (at `h`), lost it (by `i`), and writes to it again
      (at `k`): the write changes nothing at all, unless the worker has claimed the run once more
      in between, at a strictly larger attempt. */
  lemma FencingToken(trace: seq<Action>, id: string, worker: string, h: nat, i: nat, k: nat)
    requires h <= i <= k < |trace| && Alive(trace, id, h, k)
    requires HeldAt(trace, h, id, worker) && !HeldAt(trace, i, id, worker)
    requires WritesAs(trace[k].step, id, worker)
    ensures
      || After(trace, k + 1) == After(trace, k)
      || exists c :: i <= c < k && ClaimedAt(trace, c, id, worker) && id in After(trace, c).runs
                     && AttemptAt(trace, h, id) < AttemptAt(trace, c, id)
  {
    hide Next;
    if !HeldAt(trace, k, id, worker) {
      WithoutTheLeaseNothingChanges(After(trace, k), trace[k], id, worker);
    } else {
      var c := RegainedByClaim(trace, id, worker, i, k);
      ClaimTakesTheQueued(trace, c, id, worker);
      Reachable(trace, h);
      assert Alive(trace, id, h, c);
      RankNeverFalls(trace, id, h, c);
    }
  }

  // ---------------------------------------------------------------- conservation of attempts

  /** The operation is a release that requeued the run. */
  predicate RequeuedByRelease(trace: seq<Action>, k: nat, id: string)
    requires k < |trace|
  {
    && Touches(After(trace, k), trace[k], id)
    && trace[k].step.verb.Release?
    && After(trace, k + 1).runs[id].status.Queued?
  }

  /** Releases that requeued the run, in its present life. */
  function Releases(trace: seq<Action>, n: nat, id: string): nat
    requires n <= |trace|
  {
    if n == 0 || id !in After(trace, n).runs then 0
    else Releases(trace, n - 1, id) + if RequeuedByRelease(trace, n - 1, id) then 1 else 0
  }

  /** Claims of the run, in its present life. */
  function Claims(trace: seq<Action>, n: nat, id: string): nat
    requires n <= |trace|
  {
    if n == 0 || id !in After(trace, n).runs then 0
    else
      var claimed := Touches(After(trace, n - 1), trace[n - 1], id) && trace[n - 1].step.verb.Claim?;
      Claims(trace, n - 1, id) + if claimed then 1 else 0
  }

  /** The answers that continued the run: its rows of run_resolutions but the cancels. */
  function Continuations(db: Db, id: string): set<(string, string)> {
    set k | k in db.resolutions && k.0 == id && !db.resolutions[k].resolution.decision.Cancel?
  }

  function Min(a: int, b: int): int {
    if a <= b then a else b
  }

  /** What one verb adds to the attempt. */
  lemma AttemptAdds(db: Db, r: Run, verb: Verb, now: Time)
    requires RowInv(r) && VerbVerdict(db, r, verb, now).Changed?
    requires verb.Finish? ==> verb.ending.status.Final()
    ensures
      var after := VerbVerdict(db, r, verb, now).run;
      after.attempt == r.attempt
        + (if verb.Resume? && !verb.resolution.decision.Cancel? then 1 else 0)
        + (after.errorRetries - r.errorRetries)
        + (Min(after.leaseLapses, MAX_LEASE_LAPSES - 1) - Min(r.leaseLapses, MAX_LEASE_LAPSES - 1))
        + (if verb.Release? && after.status.Queued? then 1 else 0)
  {
    if verb.Pause? || verb.Resume? || verb.Cancel? || verb.Finish? {
      CallersAddAttempts(db, r, verb, now);
    }
  }

  lemma CallersAddAttempts(db: Db, r: Run, verb: Verb, now: Time)
    requires RowInv(r) && VerbVerdict(db, r, verb, now).Changed?
    requires verb.Finish? ==> verb.ending.status.Final()
    requires verb.Pause? || verb.Resume? || verb.Cancel? || verb.Finish?
    ensures
      var after := VerbVerdict(db, r, verb, now).run;
      after.attempt == r.attempt
        + (if verb.Resume? && !verb.resolution.decision.Cancel? then 1 else 0)
        + (after.errorRetries - r.errorRetries)
        + (Min(after.leaseLapses, MAX_LEASE_LAPSES - 1) - Min(r.leaseLapses, MAX_LEASE_LAPSES - 1))
        + (if verb.Release? && after.status.Queued? then 1 else 0)
  {
  }

  /** A resume that takes effect stores its answer under a key that was free. */
  lemma ResumeRecords(db: Db, a: Action, id: string)
    requires DbInv(db) && Touches(db, a, id) && a.step.verb.Resume?
    ensures
      var key := (id, a.step.verb.resolution.interrupt);
      && key !in db.resolutions
      && id in db.runs && db.runs[id].WaitsOn(a.step.verb.resolution.interrupt)
      && Next(db, a).resolutions == db.resolutions[key :=
           Answered(db.runs[id].tenant, a.step.verb.resolution, db.runs[id].awaiting.value, db.runs[id].attempt)]
  {
    Touched(db, a, id);
  }

  lemma ContinuationsAfter(db: Db, a: Action, id: string)
    requires DbInv(db) && id in db.runs && id in Next(db, a).runs
    ensures |Continuations(Next(db, a), id)| == |Continuations(db, id)| +
      if Touches(db, a, id) && a.step.verb.Resume? && !a.step.verb.resolution.decision.Cancel? then 1 else 0
  {
    hide Next;
    var after := Next(db, a);
    if Touches(db, a, id) && a.step.verb.Resume? {
      ResumeRecords(db, a, id);
      OneAnswerMore(db, after, id, (id, a.step.verb.resolution.interrupt));
    } else {
      SameAnswers(db, a, id);
      assert Continuations(after, id) == Continuations(db, id);
    }
  }

  lemma OneAnswerMore(db: Db, after: Db, id: string, key: (string, string))
    requires key.0 == id && key !in db.resolutions && key in after.resolutions
    requires after.resolutions == db.resolutions[key := after.resolutions[key]]
    ensures |Continuations(after, id)| == |Continuations(db, id)| +
      if after.resolutions[key].resolution.decision.Cancel? then 0 else 1
  {
    if after.resolutions[key].resolution.decision.Cancel? {
      assert Continuations(after, id) == Continuations(db, id);
    } else {
      assert Continuations(after, id) == Continuations(db, id) + {key};
    }
  }

  lemma SameAnswers(db: Db, a: Action, id: string)
    requires id in db.runs && id in Next(db, a).runs
    requires !(Touches(db, a, id) && a.step.verb.Resume?)
    ensures forall k: (string, string) :: k.0 == id ==>
      && (k in Next(db, a).resolutions <==> k in db.resolutions)
      && (k in db.resolutions ==> Next(db, a).resolutions[k] == db.resolutions[k])
  {
    if a.step.OnRun? && a.step.id != id {
      OtherRunsUntouched(db, a, id);
    }
  }

  /** Only a start brings a run into being. */
  lemma BornByStart(db: Db, a: Action, id: string)
    requires id !in db.runs && id in Next(db, a).runs
    ensures a.step.Start? && a.step.id == id
    ensures Next(db, a) == db.(runs := db.runs[id := Started(a.step.owner, a.step.asked, a.step.key, a.step.queue, a.now)])
  {
  }

  /** A run that was ever queued always was, and one kept in its caller's process stays there. */
  lemma DurableForLife(db: Db, r: Run, verb: Verb, now: Time)
    requires RowInv(r) && VerbVerdict(db, r, verb, now).Changed?
    requires verb.Finish? ==> verb.ending.status.Final()
    ensures VerbVerdict(db, r, verb, now).run.Durable() == r.Durable()
  {
  }

  lemma NewRunHasNoAnswers(db: Db, a: Action, id: string)
    requires DbInv(db) && id !in db.runs && id in Next(db, a).runs
    ensures Continuations(Next(db, a), id) == {}
    ensures
      var r := Next(db, a).runs[id];
      r.attempt == 1 && r.errorRetries == 0 && r.leaseLapses == 0 && !r.status.Final()
  {
    BornByStart(db, a, id);
  }

  /** What the attempt counts, but for the releases, which no column keeps. */
  function Counted(db: Db, id: string): int
    requires id in db.runs
  {
    1 + |Continuations(db, id)| + db.runs[id].errorRetries + Min(db.runs[id].leaseLapses, MAX_LEASE_LAPSES - 1)
  }

  lemma StepConserves(db: Db, a: Action, id: string)
    requires DbInv(db) && id in db.runs && id in Next(db, a).runs
    ensures
      var after := Next(db, a);
      var released := Touches(db, a, id) && a.step.verb.Release? && after.runs[id].status.Queued?;
      after.runs[id].attempt - Counted(after, id)
        == db.runs[id].attempt - Counted(db, id) + if released then 1 else 0
  {
    hide Next;
    RowAfter(db, a, id);
    ContinuationsAfter(db, a, id);
    if Touches(db, a, id) {
      Touched(db, a, id);
      AttemptAdds(db, db.runs[id], a.step.verb, a.now);
    }
  }

  /** Every attempt is accounted for: the first, one per answer that continued the run, one per
      retried error, one per lapse but the last, and one per requeuing release. */
  lemma {:induction false} AttemptsConserved(trace: seq<Action>, n: nat, id: string)
    requires n <= |trace| && id in After(trace, n).runs
    ensures
      var r := After(trace, n).runs[id];
      && r.attempt == 1 + |Continuations(After(trace, n), id)| + r.errorRetries
           + Min(r.leaseLapses, MAX_LEASE_LAPSES - 1) + Releases(trace, n, id)
      && 0 <= r.errorRetries <= MAX_ERROR_RETRIES
      && 0 <= r.leaseLapses <= MAX_LEASE_LAPSES
      && (r.leaseLapses == MAX_LEASE_LAPSES ==> r.status.Final())
  {
    hide Next;
    Reachable(trace, n);
    if n > 0 {
      Reachable(trace, n - 1);
      if id !in After(trace, n - 1).runs {
        NewRunHasNoAnswers(After(trace, n - 1), trace[n - 1], id);
      } else {
        AttemptsConserved(trace, n - 1, id);
        StepConserves(After(trace, n - 1), trace[n - 1], id);
      }
    }
  }

  lemma {:induction false} ClaimsWithinAttempts(trace: seq<Action>, n: nat, id: string)
    requires n <= |trace| && id in After(trace, n).runs
    ensures
      var r := After(trace, n).runs[id];
      Claims(trace, n, id) <= r.attempt - if r.status.Queued? then 1 else 0
  {
    hide Next;
    if n > 0 {
      var db, a := After(trace, n - 1), trace[n - 1];
      Reachable(trace, n - 1);
      if id !in db.runs {
        NewRunHasNoAnswers(db, a, id);
      } else {
        ClaimsWithinAttempts(trace, n - 1, id);
        RowAfter(db, a, id);
        if Touches(db, a, id) {
          Touched(db, a, id);
          QueuedMeansNextAttempt(db, db.runs[id], a.step.verb, a.now);
        }
      }
    }
  }

  lemma QueuedMeansNextAttempt(db: Db, r: Run, verb: Verb, now: Time)
    requires RowInv(r) && VerbVerdict(db, r, verb, now).Changed?
    requires verb.Finish? ==> verb.ending.status.Final()
    ensures
      var after := VerbVerdict(db, r, verb, now).run;
      && after.attempt >= r.attempt
      && (verb.Claim? ==> r.status.Queued? && after.status.Running? && after.attempt == r.attempt)
      && (after.status.Queued? ==> after.attempt == r.attempt + 1)
  {
  }

  /** A run nobody answered and no worker let go of is claimed at most eight times, whatever fails. */
  lemma AtMostEightClaims(trace: seq<Action>, n: nat, id: string)
    requires n <= |trace| && id in After(trace, n).runs
    requires Continuations(After(trace, n), id) == {} && Releases(trace, n, id) == 0
    ensures Claims(trace, n, id) <= 8
  {
    hide Next;
    AttemptsConserved(trace, n, id);
    ClaimsWithinAttempts(trace, n, id);
  }
}
