/** The ticker's sweeps over the runs: which rows a sweep takes, that taking them one by one is
    taking them at once, and that a whole pass leaves nothing due. */
module Sweeps {
  import opened Domain
  import opened Transitions
  import opened Database
  import opened Invariants
  import opened Lifecycle
  import opened Ordering

  // ---------------------------------------------------------------- a sweep

  /** The four sweeps. `draw` gives the jitter's random number for each run. */
  datatype Sweep = PastDeadlines | Overworking(service: Option<Time>) | Lapses(draw: string -> real) | OverdueAnswers
  {
    predicate Selects(r: Run, now: Time) {
      match this
      case PastDeadlines => PastDeadline(r, now)
      case Overworking(service) => Overworked(r, service, now)
      case Lapses(_) => Lapsed(r, now)
      case OverdueAnswers => Overdue(r, now)
    }

    function VerbFor(id: string): Verb {
      match this
      case PastDeadlines => TimeOutPastDeadline
      case Overworking(service) => TimeOutOverworked(service)
      case Lapses(draw) => RequeueLapsed(draw(id))
      case OverdueAnswers => EscalateOverdue
    }

    function OrderOf(r: Run): Option<Time> {
      match this
      case PastDeadlines => r.asked.deadline
      case Overworking(_) => r.runningSince
      case Lapses(_) => r.leaseExpiresAt
      case OverdueAnswers => r.awaitingDeadline
    }
  }

  function Candidates(db: Db, sweep: Sweep, now: Time): set<string> {
    set id | id in db.runs && sweep.Selects(db.runs[id], now)
  }

  /** What the rows are ordered by. */
  function At(db: Db, sweep: Sweep): string -> Time {
    id => if id in db.runs && sweep.OrderOf(db.runs[id]).Some? then sweep.OrderOf(db.runs[id]).value else 0.0
  }

  function StepOn(sweep: Sweep, id: string, now: Time): Action {
    Action(OnRun(id, None, sweep.VerbFor(id)), now)
  }

  /** One row after another. */
  function SweptAll(db: Db, sweep: Sweep, ids: seq<string>, now: Time): Db {
    if ids == [] then db
    else Next(SweptAll(db, sweep, ids[..|ids| - 1], now), StepOn(sweep, ids[|ids| - 1], now))
  }

  /** A sweep took the first `limit` rows it selects, and moved each. */
  ghost predicate Swept(db: Db, sweep: Sweep, now: Time, limit: nat, ids: seq<string>, after: Db) {
    && FirstOf(Candidates(db, sweep, now), At(db, sweep), limit, ids)
    && after == SweptAll(db, sweep, ids, now)
  }

  predicate Distinct(ids: seq<string>) {
    forall i, j :: 0 <= i < j < |ids| ==> ids[i] != ids[j]
  }

  /** A sweep's step on one run looks at no other table or row. */
  function RowSwept(sweep: Sweep, id: string, r: Run, now: Time): Run {
    var v := VerbVerdict(EMPTY, r, sweep.VerbFor(id), now);
    if v.Changed? then v.run else r
  }

  lemma StepSweepsRow(db: Db, sweep: Sweep, id: string, now: Time)
    requires id in db.runs
    ensures
      var after := Next(db, StepOn(sweep, id, now));
      && after.runs == db.runs[id := RowSwept(sweep, id, db.runs[id], now)]
      && after.resolutions == db.resolutions && after.logs == db.logs
  {
    var v := Reply(db, id, None, sweep.VerbFor(id), now);
    assert v == VerbVerdict(EMPTY, db.runs[id], sweep.VerbFor(id), now);
  }

  /** One by one or at once: each row taken has the verdict its row had before the sweep, every
      other row is as it was, and the invariant holds. */
  lemma {:induction false} SweptRows(db: Db, sweep: Sweep, ids: seq<string>, now: Time)
    requires DbInv(db) && Distinct(ids) && forall i :: 0 <= i < |ids| ==> ids[i] in db.runs
    ensures
      var after := SweptAll(db, sweep, ids, now);
      && DbInv(after)
      && after.runs.Keys == db.runs.Keys
      && (forall id :: id in db.runs ==>
            after.runs[id] == if id in ids then RowSwept(sweep, id, db.runs[id], now) else db.runs[id])
      && after.resolutions == db.resolutions && after.logs == db.logs
  {
    hide Next, DbInv, RowSwept;
    if ids != [] {
      var most, last := ids[..|ids| - 1], ids[|ids| - 1];
      SweptRows(db, sweep, most, now);
      var between := SweptAll(db, sweep, most, now);
      StepSweepsRow(between, sweep, last, now);
      NextKeeps(between, StepOn(sweep, last, now));
      assert last !in most;
      assert forall id :: id in ids <==> id in most || id == last;
    }
  }

  /** A row a sweep has moved it does not select again. */
  lemma NotTwice(sweep: Sweep, id: string, r: Run, now: Time)
    requires RowInv(r)
    ensures !sweep.Selects(RowSwept(sweep, id, r, now), now) || !sweep.Selects(r, now)
  {
  }

  lemma SweptIsSwept(db: Db, sweep: Sweep, now: Time, limit: nat, ids: seq<string>, after: Db)
    requires DbInv(db) && Swept(db, sweep, now, limit, ids, after)
    ensures DbInv(after) && after.runs.Keys == db.runs.Keys
    ensures forall id :: id in db.runs ==>
      after.runs[id] == if id in ids then RowSwept(sweep, id, db.runs[id], now) else db.runs[id]
  {
    hide SweptAll, RowSwept;
    assert Distinct(ids);
    SweptRows(db, sweep, ids, now);
  }

  /** A sweep that was not cut short by its limit leaves no row it would select: run again at the
      same moment it finds nothing. */
  lemma SweepIsComplete(db: Db, sweep: Sweep, now: Time, limit: nat, ids: seq<string>, after: Db)
    requires DbInv(db) && Swept(db, sweep, now, limit, ids, after) && |ids| < limit
    ensures forall id :: id in after.runs ==> !sweep.Selects(after.runs[id], now)
  {
    hide SweptAll, RowSwept;
    SweptIsSwept(db, sweep, now, limit, ids, after);
    forall id | id in after.runs
      ensures !sweep.Selects(after.runs[id], now)
    {
      if id in ids {
        assert id in Candidates(db, sweep, now);
        NotTwice(sweep, id, db.runs[id], now);
      }
    }
  }

  /** What a sweep takes it takes by the column its reason stands in: the earliest deadline, the longest
      running, the lease or the question longest over, before the others. */
  lemma TakenInOrder(db: Db, sweep: Sweep, now: Time, limit: nat, ids: seq<string>, after: Db, i: nat, other: string)
    requires DbInv(db) && Swept(db, sweep, now, limit, ids, after) && i < |ids|
    requires other in db.runs && sweep.Selects(db.runs[other], now) && (other !in ids || exists j :: i < j < |ids| && ids[j] == other)
    ensures ids[i] in db.runs
    ensures
      var r, later := db.runs[ids[i]], db.runs[other];
      match sweep
      case PastDeadlines => r.asked.deadline.Some? && later.asked.deadline.Some? && r.asked.deadline.value <= later.asked.deadline.value
      case Overworking(_) => r.runningSince.Some? && later.runningSince.Some? && r.runningSince.value <= later.runningSince.value
      case Lapses(_) => r.leaseExpiresAt.Some? && later.leaseExpiresAt.Some? && r.leaseExpiresAt.value <= later.leaseExpiresAt.value
      case OverdueAnswers => r.awaitingDeadline.Some? && later.awaitingDeadline.Some? && r.awaitingDeadline.value <= later.awaitingDeadline.value
  {
    hide SweptAll;
    assert other in Candidates(db, sweep, now) && ids[i] in Candidates(db, sweep, now);
    assert At(db, sweep)(ids[i]) <= At(db, sweep)(other);
  }

  // ---------------------------------------------------------------- a whole pass

  /** A row one sweep moves does not become one an earlier sweep of the pass selects. */
  lemma EarlierSweepsStayDone(earlier: Sweep, sweep: Sweep, id: string, r: Run, now: Time)
    requires RowInv(r) && !earlier.Selects(r, now)
    ensures !earlier.Selects(RowSwept(sweep, id, r, now), now)
  {
  }

  lemma StillNoneSelected(earlier: Sweep, db: Db, sweep: Sweep, now: Time, limit: nat, ids: seq<string>, after: Db)
    requires DbInv(db) && Swept(db, sweep, now, limit, ids, after)
    requires forall id :: id in db.runs ==> !earlier.Selects(db.runs[id], now)
    ensures forall id :: id in after.runs ==> !earlier.Selects(after.runs[id], now)
  {
    hide SweptAll, RowSwept, Sweep.Selects, Swept, RowInv;
    SweptIsSwept(db, sweep, now, limit, ids, after);
    forall id | id in after.runs
      ensures !earlier.Selects(after.runs[id], now)
    {
      if id in ids {
        EarlierSweepsStayDone(earlier, sweep, id, db.runs[id], now);
      }
    }
  }

  /** The sweeps of one pass over the runs, in order, from `dbs[0]`. */
  ghost predicate Pass(sweeps: seq<Sweep>, dbs: seq<Db>, picks: seq<seq<string>>, limit: nat, now: Time) {
    && |dbs| == |sweeps| + 1 && |picks| == |sweeps|
    && forall i :: 0 <= i < |sweeps| ==> Swept(dbs[i], sweeps[i], now, limit, picks[i], dbs[i + 1])
  }

  /** However many sweeps a pass makes, in whatever order: none it made in full has anything left to
      do when the pass is over. */
  lemma {:induction false} PassLeavesNothingDue(sweeps: seq<Sweep>, dbs: seq<Db>, picks: seq<seq<string>>, limit: nat, now: Time, n: nat)
    requires Pass(sweeps, dbs, picks, limit, now) && n <= |sweeps| && DbInv(dbs[0])
    ensures DbInv(dbs[n])
    ensures forall i, id :: 0 <= i < n && |picks[i]| < limit && id in dbs[n].runs ==> !sweeps[i].Selects(dbs[n].runs[id], now)
  {
    hide Swept, DbInv, Sweep.Selects;
    if n > 0 {
      PassLeavesNothingDue(sweeps, dbs, picks, limit, now, n - 1);
      assert Swept(dbs[n - 1], sweeps[n - 1], now, limit, picks[n - 1], dbs[n]);
      SweptIsSwept(dbs[n - 1], sweeps[n - 1], now, limit, picks[n - 1], dbs[n]);
      if |picks[n - 1]| < limit {
        SweepIsComplete(dbs[n - 1], sweeps[n - 1], now, limit, picks[n - 1], dbs[n]);
      }
      forall i | 0 <= i < n - 1 && |picks[i]| < limit
        ensures forall id :: id in dbs[n].runs ==> !sweeps[i].Selects(dbs[n].runs[id], now)
      {
        StillNoneSelected(sweeps[i], dbs[n - 1], sweeps[n - 1], now, limit, picks[n - 1], dbs[n]);
      }
    }
  }
}
