/** The working-time clock: what `worked_seconds` and `running_since` add up to. */
module WorkingTime {
  import opened Domain
  import opened Transitions
  import opened Database
  import opened Invariants
  import opened Lifecycle

  /** The time from the previous operation to the `k`-th. */
  function Gap(trace: seq<Action>, k: nat): Time
    requires k < |trace|
  {
    if k == 0 then 0.0 else trace[k].now - trace[k - 1].now
  }

  predicate RunningAt(trace: seq<Action>, k: nat, id: string)
    requires k <= |trace|
  {
    id in After(trace, k).runs && After(trace, k).runs[id].status.Running?
  }

  /** The total length of the run's RUNNING stretches up to the `n`-th operation, in its present
      life, read off the history of its status alone. */
  function RunningTime(trace: seq<Action>, n: nat, id: string): Time
    requires n <= |trace|
  {
    if n == 0 || id !in After(trace, n).runs then 0.0
    else RunningTime(trace, n - 1, id) + if RunningAt(trace, n - 1, id) then Gap(trace, n - 1) else 0.0
  }

  /** A verb's effect on the clock: it runs on, or the stretch up to now is put away. */
  lemma ClockAfterChange(db: Db, r: Run, verb: Verb, now: Time)
    requires RowInv(r) && VerbVerdict(db, r, verb, now).Changed?
    requires verb.Finish? ==> verb.ending.status.Final()
    ensures
      var after := VerbVerdict(db, r, verb, now).run;
      Worked(after, now) == Worked(r, now)
    ensures
      var after := VerbVerdict(db, r, verb, now).run;
      after.runningSince == r.runningSince || (after.runningSince.Some? ==> after.runningSince.value == now)
  {
    if verb.Pause? || verb.Finish? || verb.Release? {
      HandingBackStopsClock(db, r, verb, now);
    }
  }

  lemma HandingBackStopsClock(db: Db, r: Run, verb: Verb, now: Time)
    requires RowInv(r) && VerbVerdict(db, r, verb, now).Changed?
    requires verb.Pause? || verb.Finish? || verb.Release?
    requires verb.Finish? ==> verb.ending.status.Final()
    ensures
      var after := VerbVerdict(db, r, verb, now).run;
      after.runningSince.None? && Worked(after, now) == Worked(r, now)
  {
  }

  lemma ClockRunsOn(r: Run, t: Time, now: Time)
    requires RowInv(r) && t <= now
    requires r.runningSince.Some? ==> r.runningSince.value <= t
    ensures Worked(r, now) == Worked(r, t) + if r.status.Running? then now - t else 0.0
  {
  }

  lemma ClockAcrossStep(db: Db, a: Action, id: string, t: Time)
    requires DbInv(db) && id in db.runs && id in Next(db, a).runs && t <= a.now
    requires db.runs[id].runningSince.Some? ==> db.runs[id].runningSince.value <= t
    ensures
      var after := Next(db, a).runs[id];
      && Worked(after, a.now) == Worked(db.runs[id], a.now)
      && (after.runningSince.Some? ==> after.runningSince.value <= a.now)
  {
    hide Next;
    RowAfter(db, a, id);
    if Touches(db, a, id) {
      Touched(db, a, id);
      ClockAfterChange(db, db.runs[id], a.step.verb, a.now);
    }
  }

  /** At every moment the working time a run shows is the total length of its RUNNING stretches:
      across attempts, pauses, requeues and lapses, not counting time queued or waiting. */
  lemma {:induction false} WorkedIsRunningTime(trace: seq<Action>, n: nat, id: string, now: Time)
    requires Timely(trace) && 0 < n <= |trace| && id in After(trace, n).runs
    requires trace[n - 1].now <= now
    ensures
      var r := After(trace, n).runs[id];
      && (r.runningSince.Some? ==> r.runningSince.value <= trace[n - 1].now)
      && Worked(r, now) == RunningTime(trace, n, id)
           + if r.status.Running? then now - trace[n - 1].now else 0.0
    decreases n
  {
    hide Next;
    var db, a := After(trace, n - 1), trace[n - 1];
    Reachable(trace, n - 1);
    Reachable(trace, n);
    if id !in db.runs {
      BornByStart(db, a, id);
    } else {
      assert n > 1;
      assert trace[n - 2].now <= a.now;
      WorkedIsRunningTime(trace, n - 1, id, a.now);
      ClockAcrossStep(db, a, id, trace[n - 2].now);
      ClockRunsOn(After(trace, n).runs[id], a.now, now);
    }
  }

  // ---------------------------------------------------------------- the overwork sweep

  /** What the sweep is for: a limit is set and the working time is past it. */
  predicate PastLimit(r: Run, service: Option<Time>, now: Time) {
    var limit := Limit(r, service);
    limit.Some? && Worked(r, now) > limit.value
  }

  /** The sweep's SQL finds exactly the running rows past their limit, unless the clock stands
      before the row's own `running_since` and the two readings fall on different sides of it. */
  lemma SqlSelectsOverworked(r: Run, service: Option<Time>, now: Time)
    requires RowInv(r) && r.status.Running?
    ensures
      var limit := Limit(r, service);
      (Overworked(r, service, now) <==> PastLimit(r, service, now)) <==>
        !(limit.Some? && now < r.runningSince.value
          && r.worked > limit.value >= r.worked + (now - r.runningSince.value))
  {
  }

  /** In every reachable database, at any moment from the last operation on, the two agree. */
  lemma SweepIsExact(trace: seq<Action>, n: nat, id: string, service: Option<Time>, now: Time)
    requires Timely(trace) && 0 < n <= |trace| && id in After(trace, n).runs
    requires trace[n - 1].now <= now
    ensures
      var r := After(trace, n).runs[id];
      && (Overworked(r, service, now) <==> r.status.Running? && PastLimit(r, service, now))
      && (Overworked(r, service, now) <==>
            var limit := Limit(r, service);
            && r.status.Running? && limit.Some?
            && RunningTime(trace, n, id) + (now - trace[n - 1].now) > limit.value)
  {
    hide Next;
    Reachable(trace, n);
    WorkedIsRunningTime(trace, n, id, now);
  }
}
