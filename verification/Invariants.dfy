/** The whole-database invariant: every operation keeps it, so every reachable database has it. */
module Invariants {
  import opened Domain
  import opened Transitions
  import opened Database

  // ---------------------------------------------------------------- what holds of a row

  /** The fields of a row agree with its status and with one another. */
  predicate RowInv(r: Run) {
    && r.attempt >= 1
    && 0 <= r.errorRetries <= MAX_ERROR_RETRIES
    && 0 <= r.leaseLapses <= MAX_LEASE_LAPSES
    && (r.leaseLapses == MAX_LEASE_LAPSES ==> r.status.Final())
    && r.worked >= 0.0
    && (r.runningSince.Some? <==> r.status.Running?)
    && (r.leaseOwner.Some? <==> r.leaseExpiresAt.Some?)
    && (r.leaseOwner.Some? <==> r.status.Running? && r.Durable())
    && (r.cancelRequestedAt.Some? ==> r.leaseOwner.Some?)
    && (r.awaiting.Some? <==> r.status.Paused?)
    && r.assignee == (if r.awaiting.Some? then r.awaiting.value.assignee else None)
    && r.awaitingDeadline == (if r.awaiting.Some? then r.awaiting.value.deadline else None)
    && (r.status.Queued? ==> r.Durable())
    && (r.availableAt.Some? ==> r.status.Queued?)
    && (r.status.Final() ==> r.checkpoint.None?)
  }

  /** What every change keeps: a consistent row, a move the state machine allows, and what the
      start asked for. */
  predicate GoodChange(r: Run, after: Run) {
    && RowInv(after)
    && (after.status == r.status || r.status.CanBecome(after.status))
    && after.tenant == r.tenant && after.asked == r.asked && after.idempotencyKey == r.idempotencyKey
  }

  lemma CallersKeepRow(db: Db, r: Run, verb: Verb, now: Time)
    requires RowInv(r) && VerbVerdict(db, r, verb, now).Changed?
    requires verb.Pause? || verb.Resume? || verb.Cancel?
    ensures GoodChange(r, VerbVerdict(db, r, verb, now).run)
  {
  }

  lemma WorkersKeepRow(db: Db, r: Run, verb: Verb, now: Time)
    requires RowInv(r) && VerbVerdict(db, r, verb, now).Changed?
    requires verb.Finish? || verb.Claim? || verb.Heartbeat? || verb.Release?
    requires verb.Finish? ==> verb.ending.status.Final()
    ensures GoodChange(r, VerbVerdict(db, r, verb, now).run)
  {
  }

  lemma TickerKeepsRow(db: Db, r: Run, verb: Verb, now: Time)
    requires RowInv(r) && VerbVerdict(db, r, verb, now).Changed?
    requires verb.TimeOutPastDeadline? || verb.TimeOutOverworked? || verb.RequeueLapsed? || verb.EscalateOverdue?
    ensures GoodChange(r, VerbVerdict(db, r, verb, now).run)
  {
  }

  /** A change a verb makes keeps the row consistent, and moves it along the state machine. */
  lemma ChangeKeepsRow(db: Db, r: Run, verb: Verb, now: Time)
    requires RowInv(r)
    requires VerbVerdict(db, r, verb, now).Changed?
    requires verb.Finish? ==> verb.ending.status.Final()
    ensures GoodChange(r, VerbVerdict(db, r, verb, now).run)
  {
    if verb.Pause? || verb.Resume? || verb.Cancel? {
      CallersKeepRow(db, r, verb, now);
    } else if verb.Finish? || verb.Claim? || verb.Heartbeat? || verb.Release? {
      WorkersKeepRow(db, r, verb, now);
    } else {
      TickerKeepsRow(db, r, verb, now);
    }
  }

  /** No verb changes a run that has ended. */
  lemma EndedRowIsFrozen(db: Db, r: Run, verb: Verb, now: Time)
    requires RowInv(r) && r.status.Final()
    ensures !VerbVerdict(db, r, verb, now).Changed?
  {
  }

  // ---------------------------------------------------------------- what holds of the tables

  /** Positions run 1, 2, 3, ... and no (attempt, sequence) is logged twice. */
  ghost predicate LogInv(log: seq<LogEntry>) {
    && (forall i :: 0 <= i < |log| ==> log[i].position == i + 1)
    && (forall i, j :: 0 <= i < j < |log| ==>
          log[i].event.attempt != log[j].event.attempt || log[i].event.sequence != log[j].event.sequence)
  }

  ghost predicate RowsInv(runs: map<string, Run>) {
    forall id :: id in runs ==> RowInv(runs[id])
  }

  /** One run per tenant and idempotency key. */
  ghost predicate KeysInv(runs: map<string, Run>) {
    forall id, other :: id in runs && other in runs && id != other
                        && runs[id].tenant == runs[other].tenant && runs[id].idempotencyKey.Some? ==>
      runs[id].idempotencyKey != runs[other].idempotencyKey
  }

  /** No resolution, log or artifact without its run. */
  ghost predicate NoOrphans(db: Db) {
    && (forall k :: k in db.resolutions ==>
          && k.0 in db.runs
          && db.resolutions[k].tenant == db.runs[k.0].tenant
          && db.resolutions[k].resolution.run == k.0
          && db.resolutions[k].resolution.interrupt == k.1)
    && (forall id :: id in db.logs ==> id in db.runs && LogInv(db.logs[id]))
    && (forall a :: a in db.artifacts ==> db.artifacts[a].run in db.runs)
  }

  /** An artifact's retention runs exactly once its run has ended. */
  ghost predicate RetentionInv(db: Db) {
    forall a :: a in db.artifacts && db.artifacts[a].run in db.runs ==>
      (db.artifacts[a].expiresAt.Some? <==> db.runs[db.artifacts[a].run].status.Final())
  }

  ghost predicate DbInv(db: Db) {
    RowsInv(db.runs) && KeysInv(db.runs) && NoOrphans(db) && RetentionInv(db)
  }

  /** What belongs to a run, in every table but the artifacts. */
  ghost predicate SameRun(db: Db, after: Db, id: string)
    requires id in db.runs && id in after.runs
  {
    && after.runs[id] == db.runs[id]
    && after.Log(id) == db.Log(id)
    && (forall k: (string, string) :: k.0 == id ==>
          && (k in after.resolutions <==> k in db.resolutions)
          && (k in db.resolutions ==> after.resolutions[k] == db.resolutions[k]))
  }

  // ---------------------------------------------------------------- the log

  lemma LastPositionIsLength(log: seq<LogEntry>)
    requires LogInv(log)
    ensures LastPosition(log) == |log|
  {
    if log != [] {
      LastPositionIsLength(log[..|log| - 1]);
    }
  }

  lemma LoggedAfterAppend(log: seq<LogEntry>, entry: LogEntry, e: RunEvent)
    ensures Logged(log + [entry], e) <==>
      Logged(log, e) || (entry.event.attempt == e.attempt && entry.event.sequence == e.sequence)
  {
    var longer := log + [entry];
    if Logged(log, e) {
      var i :| 0 <= i < |log| && log[i].event.attempt == e.attempt && log[i].event.sequence == e.sequence;
      assert longer[i] == log[i];
    }
    assert longer[|log|] == entry;
    if Logged(longer, e) {
      var i :| 0 <= i < |longer| && longer[i].event.attempt == e.attempt && longer[i].event.sequence == e.sequence;
      if i < |log| {
        assert log[i] == longer[i];
      }
    }
  }

  lemma OneMore(log: seq<LogEntry>, e: RunEvent)
    requires LogInv(log) && !Logged(log, e)
    ensures LogInv(log + [LogEntry(LastPosition(log) + 1, e)])
  {
    LastPositionIsLength(log);
  }

  /** An append only adds at the end, keeps positions and identities, and logs every event sent. */
  lemma {:induction false} AppendedGrows(log: seq<LogEntry>, events: seq<RunEvent>)
    requires LogInv(log)
    ensures LogInv(Appended(log, events))
    ensures log <= Appended(log, events)
    ensures forall i :: 0 <= i < |events| ==> Logged(Appended(log, events), events[i])
    decreases |events|
  {
    if events == [] {
    } else if Logged(log, events[0]) {
      AppendedGrows(log, events[1..]);
      LoggedInLonger(log, Appended(log, events), events[0]);
      assert forall i :: 1 <= i < |events| ==> events[i] == events[1..][i - 1];
    } else {
      var longer := log + [LogEntry(LastPosition(log) + 1, events[0])];
      OneMore(log, events[0]);
      AppendedGrows(longer, events[1..]);
      LoggedAfterAppend(log, LogEntry(LastPosition(log) + 1, events[0]), events[0]);
      LoggedInLonger(longer, Appended(log, events), events[0]);
      assert forall i :: 1 <= i < |events| ==> events[i] == events[1..][i - 1];
    }
  }

  lemma LoggedInLonger(log: seq<LogEntry>, longer: seq<LogEntry>, e: RunEvent)
    requires log <= longer && Logged(log, e)
    ensures Logged(longer, e)
  {
    var i :| 0 <= i < |log| && log[i].event.attempt == e.attempt && log[i].event.sequence == e.sequence;
    assert longer[i] == log[i];
  }

  lemma {:induction false} NothingNew(log: seq<LogEntry>, events: seq<RunEvent>)
    requires forall i :: 0 <= i < |events| ==> Logged(log, events[i])
    ensures Appended(log, events) == log
    decreases |events|
  {
    if events != [] {
      assert Logged(log, events[0]);
      assert forall i :: 0 <= i < |events[1..]| ==> events[1..][i] == events[i + 1];
      NothingNew(log, events[1..]);
    }
  }

  /** A retried append adds nothing. */
  lemma RepeatedAppendAddsNothing(log: seq<LogEntry>, events: seq<RunEvent>)
    requires LogInv(log)
    ensures Appended(Appended(log, events), events) == Appended(log, events)
  {
    AppendedGrows(log, events);
    NothingNew(Appended(log, events), events);
  }

  // ---------------------------------------------------------------- every operation keeps it

  /** Adding a row under a fresh id and a fresh idempotency key. */
  lemma InsertKeeps(db: Db, id: string, r: Run, after: Db)
    requires DbInv(db) && id !in db.runs && RowInv(r)
    requires r.idempotencyKey.Some? ==> !KeyTaken(db, r.tenant, r.idempotencyKey.value)
    requires after == db.(runs := db.runs[id := r])
    ensures DbInv(after)
  {
    assert KeysInv(after.runs);
    assert NoOrphans(after);
    assert RetentionInv(after);
  }

  lemma StartKeeps(db: Db, a: Action)
    requires DbInv(db) && a.step.Start?
    ensures DbInv(Next(db, a))
  {
    var Start(id, owner, asked, key, queue) := a.step;
    if Inserts(db, id, owner, key) {
      InsertKeeps(db, id, Started(owner, asked, key, queue, a.now), Next(db, a));
    }
  }

  lemma AnsweringLeavesNoOrphans(db: Db, key: (string, string), answered: Answered, after: Db)
    requires NoOrphans(db) && key.0 in db.runs && answered.tenant == db.runs[key.0].tenant
    requires answered.resolution.run == key.0 && answered.resolution.interrupt == key.1
    requires after == db.(resolutions := db.resolutions[key := answered])
    ensures NoOrphans(after)
  {
  }

  lemma RecordedKeeps(db: Db, id: string, verb: Verb)
    requires DbInv(db) && id in db.runs
    requires verb.Resume? ==> verb.resolution.run == id
    ensures DbInv(Recorded(db, id, db.runs[id], verb))
  {
    var r := db.runs[id];
    if verb.Resume? && r.awaiting.Some? {
      AnsweringLeavesNoOrphans(db, (id, verb.resolution.interrupt),
        Answered(r.tenant, verb.resolution, r.awaiting.value, r.attempt), Recorded(db, id, r, verb));
    }
  }

  lemma ReplacingKeepsKeys(db: Db, id: string, r: Run, after: Db)
    requires KeysInv(db.runs) && id in db.runs && after.runs == db.runs[id := r]
    requires r.tenant == db.runs[id].tenant && r.idempotencyKey == db.runs[id].idempotencyKey
    ensures KeysInv(after.runs)
  {
  }

  lemma ReplacingLeavesNoOrphans(db: Db, id: string, r: Run, after: Db)
    requires NoOrphans(db) && id in db.runs && after.runs == db.runs[id := r]
    requires r.tenant == db.runs[id].tenant
    requires after.resolutions == db.resolutions && after.logs == db.logs
    requires after.artifacts.Keys == db.artifacts.Keys
    requires forall a :: a in db.artifacts ==> after.artifacts[a].run == db.artifacts[a].run
    ensures NoOrphans(after)
  {
  }

  lemma WrittenKeepsRetention(db: Db, id: string, r: Run, now: Time)
    requires RetentionInv(db) && id in db.runs && !db.runs[id].status.Final()
    ensures RetentionInv(Written(db, id, r, now))
  {
    var after := Written(db, id, r, now);
    forall a | a in after.artifacts && after.artifacts[a].run in after.runs
      ensures after.artifacts[a].expiresAt.Some? <==> after.runs[after.artifacts[a].run].status.Final()
    {
      assert a in db.artifacts && after.artifacts[a].run == db.artifacts[a].run;
    }
  }

  /** Replacing the row of a run that has not ended, and expiring its artifacts if it now has. */
  lemma WrittenKeeps(db: Db, id: string, r: Run, now: Time)
    requires DbInv(db) && id in db.runs && RowInv(r) && !db.runs[id].status.Final()
    requires r.tenant == db.runs[id].tenant && r.idempotencyKey == db.runs[id].idempotencyKey
    ensures DbInv(Written(db, id, r, now))
  {
    var after := Written(db, id, r, now);
    assert RowsInv(after.runs);
    ReplacingKeepsKeys(db, id, r, after);
    ReplacingLeavesNoOrphans(db, id, r, after);
    WrittenKeepsRetention(db, id, r, now);
  }

  lemma OnRunKeeps(db: Db, a: Action)
    requires DbInv(db) && a.step.OnRun?
    ensures DbInv(Next(db, a))
  {
    var OnRun(id, tenant, verb) := a.step;
    var answer := Reply(db, id, tenant, verb, a.now);
    if answer.Changed? {
      var r := db.runs[id];
      if r.status.Final() {
        EndedRowIsFrozen(db, r, verb, a.now);
      }
      ChangeKeepsRow(db, r, verb, a.now);
      RecordedKeeps(db, id, verb);
      WrittenKeeps(Recorded(db, id, r, verb), id, answer.run, a.now);
    }
  }

  lemma AppendKeeps(db: Db, a: Action)
    requires DbInv(db) && a.step.Append?
    ensures DbInv(Next(db, a))
  {
    var Append(id, owner, events, writer) := a.step;
    if AppendFault(db, id, owner, events, writer).None? {
      AppendedGrows(db.Log(id), events);
    }
  }

  lemma ArtifactsKeep(db: Db, after: Db)
    requires DbInv(db) && after == db.(artifacts := after.artifacts)
    requires forall a :: a in after.artifacts ==>
      && after.artifacts[a].run in db.runs
      && (after.artifacts[a].expiresAt.Some? <==> db.runs[after.artifacts[a].run].status.Final())
    ensures DbInv(after)
  {
    assert NoOrphans(after);
  }

  lemma AddArtifactKeeps(db: Db, a: Action)
    requires DbInv(db) && a.step.AddArtifact?
    ensures DbInv(Next(db, a))
  {
    ArtifactsKeep(db, Next(db, a));
  }

  lemma RemoveArtifactKeeps(db: Db, a: Action)
    requires DbInv(db) && a.step.RemoveArtifact?
    ensures DbInv(Next(db, a))
  {
    ArtifactsKeep(db, Next(db, a));
  }

  /** A purge takes with the run everything that belonged to it, and nothing of another's. */
  lemma PurgeLeavesNothingBehind(db: Db, id: string, before: Time, now: Time)
    requires Purgeable(db, id, before)
    ensures
      var after := Next(db, Action(Purge(id, before), now));
      && id !in after.runs && after.Log(id) == []
      && (forall k :: k in after.resolutions ==> k.0 != id)
      && (forall a :: a in after.artifacts ==> after.artifacts[a].run != id)
      && after.artifacts == db.artifacts
      && (forall other :: other != id ==> (other in after.runs <==> other in db.runs))
      && (forall other :: other != id && other in db.runs ==> SameRun(db, after, other))
  {
  }

  lemma PurgedKeeps(db: Db, id: string)
    requires DbInv(db) && forall a :: a in db.artifacts ==> db.artifacts[a].run != id
    ensures DbInv(Purged(db, id))
  {
    var after := Purged(db, id);
    hide RowInv, LogInv;
    assert forall other :: other in after.runs ==> other in db.runs && after.runs[other] == db.runs[other];
    assert KeysInv(after.runs);
    assert NoOrphans(after);
  }

  lemma PurgeKeeps(db: Db, a: Action)
    requires DbInv(db) && a.step.Purge?
    ensures DbInv(Next(db, a))
  {
    if Purgeable(db, a.step.id, a.step.before) {
      PurgedKeeps(db, a.step.id);
    }
  }

  lemma NextKeeps(db: Db, a: Action)
    requires DbInv(db)
    ensures DbInv(Next(db, a))
  {
    match a.step
    case Start(_, _, _, _, _) => StartKeeps(db, a);
    case OnRun(_, _, _) => OnRunKeeps(db, a);
    case Append(_, _, _, _) => AppendKeeps(db, a);
    case AddArtifact(_, _, _, _, _, _) => AddArtifactKeeps(db, a);
    case RemoveArtifact(_) => RemoveArtifactKeeps(db, a);
    case Purge(_, _) => PurgeKeeps(db, a);
  }

  /** Every reachable database satisfies the invariant. */
  lemma {:induction false} Reachable(trace: seq<Action>, n: nat)
    requires n <= |trace|
    ensures DbInv(After(trace, n))
  {
    hide Next;
    if n > 0 {
      Reachable(trace, n - 1);
      NextKeeps(After(trace, n - 1), trace[n - 1]);
    }
  }

  // ---------------------------------------------------------------- ended runs and retention

  lemma OtherRunsUntouched(db: Db, a: Action, id: string)
    requires id in db.runs && a.step.OnRun? && a.step.id != id
    ensures id in Next(db, a).runs && SameRun(db, Next(db, a), id)
  {
    var OnRun(other, tenant, verb) := a.step;
    var answer := Reply(db, other, tenant, verb, a.now);
    if answer.Changed? {
      var recorded := Recorded(db, other, db.runs[other], verb);
      assert SameRun(db, recorded, id);
    }
  }

  lemma RefusedChangesNothing(db: Db, a: Action)
    requires a.step.OnRun?
    requires !Reply(db, a.step.id, a.step.tenant, a.step.verb, a.now).Changed?
    ensures Next(db, a) == db
  {
  }

  lemma EndedTakesNoMore(db: Db, a: Action, id: string)
    requires !a.step.OnRun? && id in db.runs && db.runs[id].status.Final()
    ensures id in Next(db, a).runs ==> SameRun(db, Next(db, a), id)
    ensures id !in Next(db, a).runs ==> a.step.Purge? && a.step.id == id && Purgeable(db, id, a.step.before)
  {
    hide Appended, Started, KeyTaken, HasContent, VerbVerdict;
    if a.step.Purge? && Purgeable(db, a.step.id, a.step.before) && a.step.id != id {
      PurgeLeavesNothingBehind(db, a.step.id, a.step.before, a.now);
    }
  }

  /** Once ended, the row, its log and its resolutions never change again; the run leaves only by
      a purge that finds it ended with no artifact kept. */
  lemma EndedIsFrozen(db: Db, a: Action, id: string)
    requires DbInv(db)
    requires id in db.runs && db.runs[id].status.Final()
    ensures id in Next(db, a).runs ==> SameRun(db, Next(db, a), id)
    ensures id !in Next(db, a).runs ==> a.step.Purge? && a.step.id == id && Purgeable(db, id, a.step.before)
  {
    if !a.step.OnRun? {
      EndedTakesNoMore(db, a, id);
    } else if a.step.id != id {
      OtherRunsUntouched(db, a, id);
    } else {
      EndedRowIsFrozen(db, db.runs[id], a.step.verb, a.now);
      RefusedChangesNothing(db, a);
    }
  }

  /** A run that has not ended is never deleted. */
  lemma LiveRunsStay(db: Db, a: Action, id: string)
    requires id in db.runs && !db.runs[id].status.Final()
    ensures id in Next(db, a).runs
  {
  }
}
