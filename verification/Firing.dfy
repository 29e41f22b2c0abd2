/** A schedule's tick becomes a run, and the schedule moves on, both or neither. */
module Firings {
  import opened Domain
  import opened Database
  import opened Invariants
  import opened RunStores
  import opened Ordering
  import Schedules

  /** The idempotency key of a schedule's tick. */
  type TickKey = (string, Time) -> string

  class Firing {
    const runs: RunStore
    const row: Schedules.ScheduleRow

    constructor (runs: RunStore, row: Schedules.ScheduleRow)
      ensures this.runs == runs && this.row == row
    {
      this.runs, this.row := runs, row;
    }

    /** Queue the tick's run and advance the schedule, or record why it could not be queued.
        `fails` is the database's error, if any, and whether a retry may help; `minted` is the id a
        new run gets. */
    method FireTick(next: Schedules.Calendar, key: TickKey, schedule: string, tenant: string, asked: Asked,
                    minted: string, fireTime: Time, fails: Option<bool>, now: Time)
      returns (run: Option<string>)
      requires minted !in runs.runs && key(schedule, fireTime) != ""
      modifies runs, row
      ensures run.Some? <==> fails.None?
      ensures run.Some? ==>
        && HasKey(runs.Contents(), run.value, tenant, key(schedule, fireTime))
        && (run.value in old(runs.runs) || run.value == minted)
        && runs.Contents() == Next(old(runs.Contents()), Action(Start(minted, tenant, asked, Some(key(schedule, fireTime)), true), now))
        && (minted in runs.runs ==> run.value == minted)
        && StartAnswered(old(runs.Contents()), minted, tenant, asked, Some(key(schedule, fireTime)), true, false,
                         if run.value == minted then Created else Found(run.value))
      ensures run.None? ==> runs.Contents() == old(runs.Contents())
      ensures row.Value() ==
        Schedules.Fired(next, old(row.Value()), fireTime,
                        if fails.None? then Schedules.Queued else Schedules.NotQueued(fails.value), now)
    {
      if fails.Some? {
        row.RecordFailure(fails.value, now);
        return None;
      }
      var started := runs.Start(minted, tenant, asked, Some(key(schedule, fireTime)), true, false, now);
      row.RecordSuccess(next, fireTime, now);
      run := Some(if started.Found? then started.id else minted);
    }
  }

  // ---------------------------------------------------------------- one run a tick

  lemma KeyForLife(trace: seq<Action>, id: string, i: nat, j: nat, tenant: string, key: string)
    requires i <= j <= |trace| && Alive(trace, id, i, j) && HasKey(After(trace, i), id, tenant, key)
    ensures HasKey(After(trace, j), id, tenant, key)
  {
    hide Next;
    var r := After(trace, i).runs[id];
    KeptForLife(trace, id, i, j, tenant, r.asked, r.idempotencyKey, r.Durable());
  }

  /** Fired by hand, by several tickers, retried after an edit: while the tick's run is there, every
      further fire of the tick finds that run, whatever the schedule asks for by then. */
  lemma OneRunPerTick(trace: seq<Action>, i: nat, k: nat, run: string, tenant: string, key: string,
                      minted: string, asked: Asked, answer: StartAnswer)
    requires i <= k <= |trace| && Alive(trace, run, i, k) && key != ""
    requires HasKey(After(trace, i), run, tenant, key)
    requires StartAnswered(After(trace, k), minted, tenant, asked, Some(key), true, false, answer)
    ensures answer == Found(run)
  {
    hide Next;
    KeyForLife(trace, run, i, k, tenant, key);
    Reachable(trace, k);
    var db := After(trace, k);
    assert KeyTaken(db, tenant, key);
    var found :| HasKey(db, found, tenant, key) && answer == Found(found);
  }

  // ---------------------------------------------------------------- all that is due

  /** What the schedules ask for, by their ids and ticks, and what the database does: the ids it mints
      for the fires of a batch, and for which schedule it fails to queue, retryably or not. */
  datatype Plan = Plan(tenant: string -> string, asks: (string, Time) -> Asked, key: TickKey, mint: nat -> string,
                       fails: string -> Option<bool>)

  /** Minted ids are new and no two are alike, from the `n`-th on; no key is empty. */
  ghost predicate Mints(plan: Plan, runs: map<string, Run>, n: nat) {
    && (forall i :: n <= i ==> plan.mint(i) !in runs)
    && (forall i, j :: n <= i < j ==> plan.mint(i) != plan.mint(j))
    && (forall s, t :: plan.key(s, t) != "")
  }

  function StartOf(plan: Plan, id: string, at: Time, n: nat, now: Time): Action {
    Action(Start(plan.mint(n), plan.tenant(id), plan.asks(id, at), Some(plan.key(id, at)), true), now)
  }

  /** The run store after the fires of a batch, each for its schedule's own tick. */
  function RunsAfter(db: Db, rows: map<string, Schedules.Schedule>, ids: seq<string>, plan: Plan, now: Time): Db {
    if ids == [] then db
    else
      var n, id := |ids| - 1, ids[|ids| - 1];
      var before := RunsAfter(db, rows, ids[..n], plan, now);
      if plan.fails(id).Some? then before else Next(before, StartOf(plan, id, Schedules.NextAt(rows)(id), n, now))
  }

  lemma StartedKeeps(db: Db, plan: Plan, id: string, at: Time, n: nat, now: Time)
    requires DbInv(db) && Mints(plan, db.runs, n)
    ensures
      var after := Next(db, StartOf(plan, id, at, n, now));
      DbInv(after) && Mints(plan, after.runs, n + 1)
  {
    hide DbInv;
    NextKeeps(db, StartOf(plan, id, at, n, now));
  }

  /** A batch of fires under way. */
  ghost predicate FiringOn(next: Schedules.Calendar, was: map<string, Schedules.Schedule>, db: Db, plan: Plan, now: Time,
                           ids: seq<string>, rows: map<string, Schedules.Schedule>, runs: Db)
  {
    && Picked(Schedules.DueSchedules(was, now), Schedules.NextAt(was), ids, Schedules.DueSchedules(rows, now))
    && rows == Schedules.TableAfter(next, was, ids, plan.fails, now)
    && runs == RunsAfter(db, was, ids, plan, now)
  }

  lemma NothingFiredYet(next: Schedules.Calendar, was: map<string, Schedules.Schedule>, db: Db, plan: Plan, now: Time)
    ensures FiringOn(next, was, db, plan, now, [], was, db)
  {
    assert Schedules.TableAfter(next, was, [], plan.fails, now) == was;
  }

  /** A schedule still due stands as it stood at first. */
  lemma StillAsItWas(next: Schedules.Calendar, was: map<string, Schedules.Schedule>, db: Db, plan: Plan, now: Time,
                     ids: seq<string>, rows: map<string, Schedules.Schedule>, runs: Db, id: string)
    requires FiringOn(next, was, db, plan, now, ids, rows, runs) && id in Schedules.DueSchedules(rows, now)
    ensures id in was && id in rows && rows[id] == was[id] && Schedules.IsDue(was[id], now)
    ensures Schedules.NextAt(rows)(id) == Schedules.NextAt(was)(id)
  {
    assert id in Schedules.DueSchedules(was, now);
  }

  lemma DueAfterOne(next: Schedules.Calendar, occurs: (Schedules.Timing, Time) -> bool, rows: map<string, Schedules.Schedule>,
                    fails: Option<bool>, now: Time, id: string, after: map<string, Schedules.Schedule>)
    requires Schedules.Names(next, occurs) && id in Schedules.DueSchedules(rows, now)
    requires after == rows[id := Schedules.TickFired(next, rows[id], fails, now)]
    ensures Schedules.DueSchedules(after, now) == Schedules.DueSchedules(rows, now) - {id}
  {
    Schedules.FiredIsNotDue(next, occurs, rows[id], fails, now);
  }

  lemma FiredOneMore(next: Schedules.Calendar, occurs: (Schedules.Timing, Time) -> bool, was: map<string, Schedules.Schedule>, db: Db,
                     plan: Plan, now: Time, ids: seq<string>, rows: map<string, Schedules.Schedule>, runs: Db, id: string,
                     after: map<string, Schedules.Schedule>)
    requires Schedules.Names(next, occurs) && FiringOn(next, was, db, plan, now, ids, rows, runs)
    requires id in Schedules.DueSchedules(rows, now)
    requires forall other :: other in Schedules.DueSchedules(rows, now) ==> Schedules.NextAt(rows)(id) <= Schedules.NextAt(rows)(other)
    requires id in rows && after == rows[id := Schedules.TickFired(next, rows[id], plan.fails(id), now)]
    ensures
      var started := if plan.fails(id).Some? then runs else Next(runs, StartOf(plan, id, Schedules.NextAt(was)(id), |ids|, now));
      FiringOn(next, was, db, plan, now, ids + [id], after, started)
  {
    hide Schedules.Names, Schedules.IsDue, Schedules.TickFired, Schedules.NextAt, Picked, Schedules.TableAfter, Next, StartOf;
    var more := ids + [id];
    forall other | other in Schedules.DueSchedules(rows, now)
      ensures Schedules.NextAt(rows)(other) == Schedules.NextAt(was)(other)
    {
      StillAsItWas(next, was, db, plan, now, ids, rows, runs, other);
    }
    StillAsItWas(next, was, db, plan, now, ids, rows, runs, id);
    PickOne(Schedules.DueSchedules(was, now), Schedules.NextAt(was), ids, Schedules.DueSchedules(rows, now), id);
    DueAfterOne(next, occurs, rows, plan.fails(id), now, id, after);
    assert more[..|ids|] == ids && more[|ids|] == id;
    TableOneMore(next, was, ids, plan.fails, now, rows, id);
  }

  lemma TableOneMore(next: Schedules.Calendar, was: map<string, Schedules.Schedule>, ids: seq<string>, fails: string -> Option<bool>, now: Time,
                     rows: map<string, Schedules.Schedule>, id: string)
    requires rows == Schedules.TableAfter(next, was, ids, fails, now) && id in was && rows[id] == was[id]
    ensures rows[id := Schedules.TickFired(next, rows[id], fails(id), now)] == Schedules.TableAfter(next, was, ids + [id], fails, now)
  {
    hide Schedules.TickFired;
    assert forall x :: x in ids + [id] <==> x in ids || x == id;
  }

  lemma BatchIsOver(next: Schedules.Calendar, was: map<string, Schedules.Schedule>, db: Db, plan: Plan, now: Time,
                    ids: seq<string>, rows: map<string, Schedules.Schedule>, runs: Db, limit: nat)
    requires FiringOn(next, was, db, plan, now, ids, rows, runs) && |ids| <= limit
    requires |ids| == limit || Schedules.DueSchedules(rows, now) == {}
    ensures FirstOf(Schedules.DueSchedules(was, now), Schedules.NextAt(was), limit, ids)
    ensures rows == Schedules.TableAfter(next, was, ids, plan.fails, now) && runs == RunsAfter(db, was, ids, plan, now)
  {
    hide Next, Schedules.IsDue;
    PickedAreFirst(Schedules.DueSchedules(was, now), Schedules.NextAt(was), limit, ids, Schedules.DueSchedules(rows, now));
  }

  class ScheduleTable {
    var rows: map<string, Schedules.Schedule>

    constructor ()
      ensures rows == map[]
    {
      rows := map[];
    }

    /** Fire one due schedule for its own tick, as the `n`-th of a batch. */
    method FireOne(next: Schedules.Calendar, runs: RunStore, plan: Plan, now: Time, n: nat, id: string)
      requires id in rows && Schedules.IsDue(rows[id], now) && DbInv(runs.Contents()) && Mints(plan, runs.runs, n)
      modifies this, runs
      ensures rows == old(rows)[id := Schedules.TickFired(next, old(rows)[id], plan.fails(id), now)]
      ensures
        var at := Schedules.NextAt(old(rows))(id);
        runs.Contents() == if plan.fails(id).Some? then old(runs.Contents()) else Next(old(runs.Contents()), StartOf(plan, id, at, n, now))
      ensures DbInv(runs.Contents()) && Mints(plan, runs.runs, n + 1)
    {
      hide DbInv, Mints, Next, StartAnswered, Schedules.Fired, HasKey;
      var at := Schedules.NextAt(rows)(id);
      IsDueAt(rows, now, id);
      StartedKeeps(runs.Contents(), plan, id, at, n, now);
      MintsOn(plan, runs.runs, n, id, at);
      var row := new Schedules.ScheduleRow.Load(rows[id]);
      var firing := new Firing(runs, row);
      var run := firing.FireTick(next, plan.key, id, plan.tenant(id), plan.asks(id, at), plan.mint(n), at, plan.fails(id), now);
      rows := rows[id := row.Value()];
    }

    /** The batch: ask for the most overdue schedule and fire it, one transaction each, until none is due
        or the batch is full. That is the first `limit` of the schedules due when it began, in the order
        of their ticks, each fired once, and when it was not full none is due. */
    method FireAllDue(next: Schedules.Calendar, ghost occurs: (Schedules.Timing, Time) -> bool, runs: RunStore, plan: Plan, now: Time, limit: nat)
      returns (ids: seq<string>)
      requires Schedules.Names(next, occurs) && DbInv(runs.Contents()) && Mints(plan, runs.runs, 0)
      modifies this, runs
      ensures FirstOf(Schedules.DueSchedules(old(rows), now), Schedules.NextAt(old(rows)), limit, ids)
      ensures rows == Schedules.TableAfter(next, old(rows), ids, plan.fails, now)
      ensures runs.Contents() == RunsAfter(old(runs.Contents()), old(rows), ids, plan, now) && DbInv(runs.Contents())
      ensures |ids| < limit ==> Schedules.DueSchedules(rows, now) == {}
    {
      hide Schedules.Names, DbInv, Mints, Next, RunsAfter, FirstOf, Picked, Schedules.TableAfter, Schedules.NextAt, Schedules.IsDue, Schedules.TickFired, FiringOn;
      ghost var was, db := rows, runs.Contents();
      ids := [];
      NothingFiredYet(next, was, db, plan, now);
      while |ids| < limit
        invariant |ids| <= limit && FiringOn(next, was, db, plan, now, ids, rows, runs.Contents())
        invariant DbInv(runs.Contents()) && Mints(plan, runs.runs, |ids|)
        decreases limit - |ids|
      {
        var due := Schedules.DueSchedules(rows, now);
        if due == {} {
          break;
        }
        var id := Earliest(due, Schedules.NextAt(rows));
        StillAsItWas(next, was, db, plan, now, ids, rows, runs.Contents(), id);
        ghost var before, table := runs.Contents(), rows;
        FireOne(next, runs, plan, now, |ids|, id);
        FiredOneMore(next, occurs, was, db, plan, now, ids, table, before, id, rows);
        ids := ids + [id];
      }
      BatchIsOver(next, was, db, plan, now, ids, rows, runs.Contents(), limit);
    }
  }

  lemma IsDueAt(rows: map<string, Schedules.Schedule>, now: Time, id: string)
    requires id in rows && Schedules.IsDue(rows[id], now)
    ensures rows[id].nextFireAt == Some(Schedules.NextAt(rows)(id))
  {
  }

  lemma MintsOn(plan: Plan, runs: map<string, Run>, n: nat, id: string, at: Time)
    requires Mints(plan, runs, n)
    ensures plan.mint(n) !in runs && plan.key(id, at) != "" && Mints(plan, runs, n + 1)
  {
  }
}
