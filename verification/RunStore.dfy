/** The run store as it works: each operation loads the row it needs, changes it in place, and
    flushes it. Each is proved to be the step of `Database` it stands for. */
module RunStores {
  import opened Domain
  import opened Transitions
  import opened Database
  import opened Invariants
  import opened Lifecycle
  import opened Claiming
  import opened RunRows
  import opened Sweeps
  import opened Ordering

  // ---------------------------------------------------------------- what an operation answers

  /** The operation answered `v` and left the tables as its step does. */
  ghost predicate Did(db: Db, id: string, tenant: Option<string>, verb: Verb, now: Time, v: Verdict, after: Db) {
    && v == Reply(db, id, tenant, verb, now)
    && after == Next(db, Action(OnRun(id, tenant, verb), now))
  }

  lemma DidChange(db: Db, id: string, tenant: Option<string>, verb: Verb, now: Time, r: Run)
    requires id in db.runs && Reply(db, id, tenant, verb, now) == Changed(r)
    ensures Did(db, id, tenant, verb, now, Changed(r), Written(Recorded(db, id, db.runs[id], verb), id, r, now))
  {
  }

  // ---------------------------------------------------------------- starting

  datatype StartAnswer = Created | Found(id: string) | NotStarted(fault: Fault)

  /** The start is not the one this run came from. */
  predicate Differs(r: Run, asked: Asked, queue: bool) {
    r.asked != asked || r.Durable() != queue
  }

  predicate HasKey(db: Db, id: string, tenant: string, key: string) {
    id in db.runs && db.runs[id].tenant == tenant && db.runs[id].idempotencyKey == Some(key)
  }

  /** What a start answers: the new run; else the run its key made, unless it asked for another;
      else the tenant's own run of that id. */
  ghost predicate StartAnswered(db: Db, id: string, tenant: string, asked: Asked, key: Option<string>, queue: bool, strict: bool,
                                answer: StartAnswer)
  {
    if Inserts(db, id, tenant, key) then answer == Created
    else if key.Some? && key.value != "" && KeyTaken(db, tenant, key.value) then
      exists k :: HasKey(db, k, tenant, key.value)
                  && answer == if strict && Differs(db.runs[k], asked, queue) then NotStarted(Conflict) else Found(k)
    else answer == if id in db.runs && db.runs[id].tenant == tenant then Found(id) else NotStarted(Conflict)
  }

  /** What a start asked for, the run keeps for life. */
  predicate StartedAs(r: Run, tenant: string, asked: Asked, key: Option<string>, queue: bool) {
    r.tenant == tenant && r.idempotencyKey == key && !Differs(r, asked, queue)
  }

  lemma {:induction false} KeptForLife(trace: seq<Action>, id: string, i: nat, j: nat, tenant: string, asked: Asked, key: Option<string>, queue: bool)
    requires i <= j <= |trace| && Alive(trace, id, i, j)
    requires StartedAs(After(trace, i).runs[id], tenant, asked, key, queue)
    ensures StartedAs(After(trace, j).runs[id], tenant, asked, key, queue)
    decreases j
  {
    hide Next;
    if i < j {
      KeptForLife(trace, id, i, j - 1, tenant, asked, key, queue);
      var db, a := After(trace, j - 1), trace[j - 1];
      Reachable(trace, j - 1);
      assert id in db.runs && id in After(trace, j).runs;
      RowAfter(db, a, id);
      if Touches(db, a, id) {
        Touched(db, a, id);
        ChangeKeepsRow(db, db.runs[id], a.step.verb, a.now);
        DurableForLife(db, db.runs[id], a.step.verb, a.now);
      }
    }
  }

  lemma RepeatFinds(db: Db, id: string, tenant: string, asked: Asked, key: Option<string>, queue: bool, strict: bool,
                    other: string, answer: StartAnswer)
    requires KeysInv(db.runs) && id in db.runs && StartedAs(db.runs[id], tenant, asked, key, queue)
    requires other == id || (key.Some? && key.value != "")
    requires StartAnswered(db, other, tenant, asked, key, queue, strict, answer)
    ensures answer == Found(id)
  {
    if key.Some? {
      assert HasKey(db, id, tenant, key.value);
    }
  }

  /** A start repeated at any time in the run's life finds the run it made, whatever happened to the
      run since: by its key, even under a new run id, or without a key by its run id. */
  lemma StartIsIdempotent(trace: seq<Action>, i: nat, k: nat, other: string, strict: bool, answer: StartAnswer)
    requires i < k <= |trace| && trace[i].step.Start? && Alive(trace, trace[i].step.id, i + 1, k)
    requires Inserts(After(trace, i), trace[i].step.id, trace[i].step.owner, trace[i].step.key)
    requires other == trace[i].step.id || (trace[i].step.key.Some? && trace[i].step.key.value != "")
    requires
      var s := trace[i].step;
      StartAnswered(After(trace, k), other, s.owner, s.asked, s.key, s.queue, strict, answer)
    ensures answer == Found(trace[i].step.id)
  {
    hide Next, StartAnswered;
    var s := trace[i].step;
    assert s.id in After(trace, i + 1).runs;
    BornByStart(After(trace, i), trace[i], s.id);
    KeptForLife(trace, s.id, i + 1, k, s.owner, s.asked, s.key, s.queue);
    Reachable(trace, k);
    RepeatFinds(After(trace, k), s.id, s.owner, s.asked, s.key, s.queue, strict, other, answer);
  }

  /** A strict start under a key that another request used, told by any field of what it asks for or by
      whether it is to be queued, is refused; one that is not strict finds that run all the same. */
  lemma DifferentStartIsRefused(db: Db, id: string, other: string, tenant: string, asked: Asked, key: string, queue: bool, strict: bool,
                                answer: StartAnswer)
    requires DbInv(db) && HasKey(db, id, tenant, key) && key != ""
    requires StartAnswered(db, other, tenant, asked, Some(key), queue, strict, answer)
    ensures
      var r := db.runs[id];
      answer == if strict && (r.asked != asked || queue != r.queuedAt.Some?) then NotStarted(Conflict) else Found(id)
  {
    assert KeyTaken(db, tenant, key);
  }

  /** Without a key in use: the tenant finds its own run by its id, and another's id is refused. */
  lemma StartUnderATakenId(db: Db, id: string, tenant: string, asked: Asked, queue: bool, strict: bool, answer: StartAnswer)
    requires id in db.runs && StartAnswered(db, id, tenant, asked, None, queue, strict, answer)
    ensures answer == if db.runs[id].tenant == tenant then Found(id) else NotStarted(Conflict)
  {
  }

  // ---------------------------------------------------------------- appending

  lemma {:induction false} AppendedLast(log: seq<LogEntry>, events: seq<RunEvent>, e: RunEvent)
    ensures
      var before := Appended(log, events);
      Appended(log, events + [e]) ==
        if Logged(before, e) then before else before + [LogEntry(LastPosition(before) + 1, e)]
    decreases |events|
  {
    var more := events + [e];
    if events == [] {
      assert more == [e] && more[1..] == [];
    } else {
      assert more[1..] == events[1..] + [e] && more[0] == events[0];
      var next := if Logged(log, events[0]) then log else log + [LogEntry(LastPosition(log) + 1, events[0])];
      AppendedLast(next, events[1..], e);
    }
  }

  lemma LastPositionAfter(log: seq<LogEntry>, e: RunEvent)
    ensures LastPosition(log + [LogEntry(LastPosition(log) + 1, e)]) == LastPosition(log) + 1
  {
    var longer := log + [LogEntry(LastPosition(log) + 1, e)];
    assert longer[..|longer| - 1] == log;
  }

  /** The (attempt, sequence) of the events asked for that the log has. */
  function SeenOf(log: seq<LogEntry>, events: seq<RunEvent>): set<(int, int)> {
    set e | e in events && Logged(log, e) :: (e.attempt, e.sequence)
  }

  lemma SeenIsLogged(log: seq<LogEntry>, events: seq<RunEvent>, e: RunEvent)
    requires e in events
    ensures (e.attempt, e.sequence) in SeenOf(log, events) <==> Logged(log, e)
  {
    if (e.attempt, e.sequence) in SeenOf(log, events) {
      var other :| other in events && Logged(log, other) && (other.attempt, other.sequence) == (e.attempt, e.sequence);
      var i :| 0 <= i < |log| && log[i].event.attempt == other.attempt && log[i].event.sequence == other.sequence;
    }
  }

  lemma SeenGrows(log: seq<LogEntry>, events: seq<RunEvent>, e: RunEvent)
    requires e in events
    ensures SeenOf(log + [LogEntry(LastPosition(log) + 1, e)], events) == SeenOf(log, events) + {(e.attempt, e.sequence)}
  {
    var entry := LogEntry(LastPosition(log) + 1, e);
    forall x | x in events
      ensures Logged(log + [entry], x) <==> Logged(log, x) || (x.attempt, x.sequence) == (e.attempt, e.sequence)
    {
      LoggedAfterAppend(log, entry, x);
    }
  }

  /** An append under way: the log as the events before the `i`-th have made it. */
  ghost predicate Appending(log: seq<LogEntry>, events: seq<RunEvent>, i: nat, now: seq<LogEntry>,
                            seen: set<(int, int)>, position: int, added: nat)
    requires i <= |events|
  {
    && now == Appended(log, events[..i])
    && seen == SeenOf(now, events)
    && position == LastPosition(now)
    && |now| == |log| + added
  }

  lemma AppendOne(log: seq<LogEntry>, events: seq<RunEvent>, i: nat, now: seq<LogEntry>, seen: set<(int, int)>, position: int, added: nat)
    requires i < |events| && Appending(log, events, i, now, seen, position, added)
    ensures
      var e := events[i];
      if (e.attempt, e.sequence) in seen then Appending(log, events, i + 1, now, seen, position, added)
      else Appending(log, events, i + 1, now + [LogEntry(position + 1, e)], seen + {(e.attempt, e.sequence)}, position + 1, added + 1)
  {
    hide SeenOf, Appended, LastPosition, Logged;
    var e := events[i];
    assert events[..i + 1] == events[..i] + [e];
    AppendedLast(log, events[..i], e);
    SeenIsLogged(now, events, e);
    LastPositionAfter(now, e);
    SeenGrows(now, events, e);
  }

  /** What an append answers. */
  datatype AppendAnswer = EventsAppended(appended: int, position: int) | NotAppended(fault: Fault)

  lemma NothingAppended(log: seq<LogEntry>, events: seq<RunEvent>)
    ensures Appending(log, events, 0, log, SeenOf(log, events), LastPosition(log), 0)
  {
  }

  lemma AllAppended(log: seq<LogEntry>, events: seq<RunEvent>, now: seq<LogEntry>, seen: set<(int, int)>, position: int, added: nat)
    requires Appending(log, events, |events|, now, seen, position, added)
    ensures now == Appended(log, events) && position == LastPosition(now) && |now| == |log| + added
  {
    assert events[..|events|] == events;
  }

  lemma AppendTakes(db: Db, id: string, tenant: string, events: seq<RunEvent>, worker: Option<string>, now: Time)
    requires AppendFault(db, id, tenant, events, worker).None?
    ensures Next(db, Action(Append(id, tenant, events, worker), now)) == db.(logs := db.logs[id := Appended(db.Log(id), events)])
  {
  }

  // ---------------------------------------------------------------- sweeping

  lemma NothingSwept(db: Db, sweep: Sweep, ids: seq<string>, now: Time)
    ensures SweptAll(db, sweep, ids[..0], now) == db
  {
  }

  /** When a picked row comes up it is as it was when picked. */
  lemma RowComesUp(db: Db, sweep: Sweep, limit: nat, ids: seq<string>, now: Time, i: nat)
    requires DbInv(db) && i < |ids| && FirstOf(Candidates(db, sweep, now), At(db, sweep), limit, ids)
    ensures
      var id, between := ids[i], SweptAll(db, sweep, ids[..i], now);
      && id in db.runs && RowInv(db.runs[id]) && sweep.Selects(db.runs[id], now)
      && id in between.runs && between.runs[id] == db.runs[id]
  {
    hide SweptAll, RowSwept;
    var id := ids[i];
    assert id in Candidates(db, sweep, now);
    assert Distinct(ids[..i]) && id !in ids[..i];
    forall j | 0 <= j < i
      ensures ids[..i][j] in db.runs
    {
      assert ids[j] in Candidates(db, sweep, now);
    }
    SweptRows(db, sweep, ids[..i], now);
  }

  lemma OneMoreSwept(db: Db, sweep: Sweep, limit: nat, ids: seq<string>, now: Time, i: nat, r: Run)
    requires DbInv(db) && i < |ids| && FirstOf(Candidates(db, sweep, now), At(db, sweep), limit, ids)
    requires ids[i] in db.runs && VerbVerdict(EMPTY, db.runs[ids[i]], sweep.VerbFor(ids[i]), now) == Changed(r)
    ensures SweptAll(db, sweep, ids[..i + 1], now) == Written(SweptAll(db, sweep, ids[..i], now), ids[i], r, now)
  {
    hide FirstOf, DbInv;
    RowComesUp(db, sweep, limit, ids, now, i);
    var id, more := ids[i], ids[..i + 1];
    assert more[..i] == ids[..i] && more[i] == id;
    StepWrites(SweptAll(db, sweep, ids[..i], now), sweep, id, now, r);
  }

  lemma StepWrites(db: Db, sweep: Sweep, id: string, now: Time, r: Run)
    requires id in db.runs && VerbVerdict(EMPTY, db.runs[id], sweep.VerbFor(id), now) == Changed(r)
    ensures Next(db, StepOn(sweep, id, now)) == Written(db, id, r, now)
  {
    assert Reply(db, id, None, sweep.VerbFor(id), now) == Changed(r);
  }

  // ---------------------------------------------------------------- retention

  lemma PurgesOnlyPurgeable(db: Db, before: Time, limit: nat, gone: seq<string>)
    requires FirstOf(PurgeCandidates(db, before), UpdatedAt(db), limit, gone)
    ensures Distinct(gone) && forall i :: 0 <= i < |gone| ==> Purgeable(db, gone[i], before)
  {
  }

  /** The runs that ended longest ago go first, and the artifacts that expired longest ago. */
  lemma OldestGoFirst(db: Db, before: Time, limit: nat, gone: seq<string>, i: nat, j: nat)
    requires FirstOf(PurgeCandidates(db, before), UpdatedAt(db), limit, gone) && i < j < |gone|
    ensures gone[i] in db.runs && gone[j] in db.runs && db.runs[gone[i]].updatedAt <= db.runs[gone[j]].updatedAt
  {
    assert UpdatedAt(db)(gone[i]) <= UpdatedAt(db)(gone[j]);
  }

  lemma OldestExpiryFirst(db: Db, now: Time, limit: nat, expired: seq<string>, i: nat, j: nat)
    requires FirstOf(ExpiredArtifacts(db, now), ExpiresAt(db), limit, expired) && i < j < |expired|
    ensures expired[i] in db.artifacts && expired[j] in db.artifacts
    ensures
      var one, other := db.artifacts[expired[i]].expiresAt, db.artifacts[expired[j]].expiresAt;
      one.Some? && other.Some? && one.value <= other.value < now
  {
    assert expired[i] in ExpiredArtifacts(db, now) && expired[j] in ExpiredArtifacts(db, now);
    assert ExpiresAt(db)(expired[i]) <= ExpiresAt(db)(expired[j]);
  }

  /** A purge that was not cut short by its limit leaves no run it would take. */
  lemma PurgeIsComplete(db: Db, before: Time, limit: nat, gone: seq<string>, now: Time)
    requires DbInv(db) && FirstOf(PurgeCandidates(db, before), UpdatedAt(db), limit, gone) && |gone| < limit
    ensures DbInv(PurgedAll(db, gone, before, now))
    ensures PurgeCandidates(PurgedAll(db, gone, before, now), before) == {}
  {
    hide PurgedAll, DbInv;
    PurgesOnlyPurgeable(db, before, limit, gone);
    PurgedRows(db, gone, before, now);
  }

  function PurgeCandidates(db: Db, before: Time): set<string> {
    set id | id in db.runs && Purgeable(db, id, before)
  }

  function UpdatedAt(db: Db): string -> Time {
    id => if id in db.runs then db.runs[id].updatedAt else 0.0
  }

  function PurgedAll(db: Db, ids: seq<string>, before: Time, now: Time): Db {
    if ids == [] then db
    else Next(PurgedAll(db, ids[..|ids| - 1], before, now), Action(Purge(ids[|ids| - 1], before), now))
  }

  /** One by one or at once: the runs picked go, with all that is theirs; the rest stays. */
  lemma {:induction false} PurgedRows(db: Db, ids: seq<string>, before: Time, now: Time)
    requires DbInv(db) && Distinct(ids) && forall i :: 0 <= i < |ids| ==> Purgeable(db, ids[i], before)
    ensures
      var after := PurgedAll(db, ids, before, now);
      && DbInv(after) && after.artifacts == db.artifacts
      && after.runs == (map id | id in db.runs && id !in ids :: db.runs[id])
      && after.resolutions == (map k | k in db.resolutions && k.0 !in ids :: db.resolutions[k])
      && after.logs == (map id | id in db.logs && id !in ids :: db.logs[id])
  {
    hide DbInv, Next;
    if ids != [] {
      var most, last := ids[..|ids| - 1], ids[|ids| - 1];
      PurgedRows(db, most, before, now);
      var between := PurgedAll(db, most, before, now);
      assert last !in most;
      NextKeeps(between, Action(Purge(last, before), now));
      PurgeIsPurged(between, last, before, now);
      assert forall id :: id in ids <==> id in most || id == last;
    }
  }

  lemma PurgeIsPurged(db: Db, id: string, before: Time, now: Time)
    requires Purgeable(db, id, before)
    ensures Next(db, Action(Purge(id, before), now)) == Purged(db, id)
  {
  }

  function ExpiredArtifacts(db: Db, now: Time): set<string> {
    set a | a in db.artifacts && db.artifacts[a].expiresAt.Some? && db.artifacts[a].expiresAt.value < now
  }

  function ExpiresAt(db: Db): string -> Time {
    a => if a in db.artifacts && db.artifacts[a].expiresAt.Some? then db.artifacts[a].expiresAt.value else 0.0
  }

  function RemovedAll(db: Db, artifacts: seq<string>, now: Time): Db {
    if artifacts == [] then db
    else Next(RemovedAll(db, artifacts[..|artifacts| - 1], now), Action(RemoveArtifact(artifacts[|artifacts| - 1]), now))
  }

  /** One by one or at once: the artifacts picked go, and nothing else. */
  lemma {:induction false} RemovedRows(db: Db, artifacts: seq<string>, now: Time)
    requires DbInv(db) && Distinct(artifacts) && forall i :: 0 <= i < |artifacts| ==> artifacts[i] in ExpiredArtifacts(db, now)
    ensures DbInv(RemovedAll(db, artifacts, now))
    ensures RemovedAll(db, artifacts, now) == db.(artifacts := db.artifacts - (set a | a in artifacts))
  {
    hide DbInv, Next;
    if artifacts != [] {
      var most, last := artifacts[..|artifacts| - 1], artifacts[|artifacts| - 1];
      RemovedRows(db, most, now);
      assert last !in most;
      RemoveTakes(RemovedAll(db, most, now), last, now);
      NextKeeps(RemovedAll(db, most, now), Action(RemoveArtifact(last), now));
      assert (set a | a in artifacts) == (set a | a in most) + {last};
    }
  }

  lemma RemoveTakes(db: Db, a: string, now: Time)
    requires a in ExpiredArtifacts(db, now)
    ensures Next(db, Action(RemoveArtifact(a), now)) == db.(artifacts := db.artifacts - {a})
  {
  }

  /** The picked artifacts whose blobs could be deleted, in order. */
  function Deleted(expired: seq<string>, deletes: string -> bool): seq<string> {
    if expired == [] then []
    else Deleted(expired[..|expired| - 1], deletes)
         + if deletes(expired[|expired| - 1]) then [expired[|expired| - 1]] else []
  }

  lemma {:induction false} DeletedAre(expired: seq<string>, deletes: string -> bool)
    requires Distinct(expired)
    ensures Distinct(Deleted(expired, deletes))
    ensures forall a :: a in Deleted(expired, deletes) <==> a in expired && deletes(a)
  {
    if expired != [] {
      var most, last := expired[..|expired| - 1], expired[|expired| - 1];
      DeletedAre(most, deletes);
      assert last !in most;
      assert forall a :: a in expired <==> a in most || a == last;
    }
  }

  lemma NoneDeleted(expired: seq<string>, deletes: string -> bool)
    ensures Deleted(expired[..0], deletes) == []
  {
  }

  lemma DeletedOneMore(expired: seq<string>, deletes: string -> bool, i: nat)
    requires i < |expired|
    ensures Deleted(expired[..i + 1], deletes) == Deleted(expired[..i], deletes) + if deletes(expired[i]) then [expired[i]] else []
  {
    assert expired[..i + 1][..i] == expired[..i];
  }

  /** What is removed of the first expired artifacts: those whose blobs went. */
  lemma RemovedAreExpired(db: Db, expired: seq<string>, deletes: string -> bool, now: Time, limit: nat)
    requires DbInv(db) && FirstOf(ExpiredArtifacts(db, now), ExpiresAt(db), limit, expired)
    ensures
      var gone, after := Deleted(expired, deletes), RemovedAll(db, Deleted(expired, deletes), now);
      && DbInv(after)
      && (set a | a in gone) == (set a | a in expired && deletes(a))
      && after == db.(artifacts := db.artifacts - (set a | a in expired && deletes(a)))
  {
    hide DbInv, RemovedAll, Deleted, ExpiredArtifacts;
    var gone := Deleted(expired, deletes);
    assert Distinct(expired);
    DeletedAre(expired, deletes);
    forall i | 0 <= i < |gone| ensures gone[i] in ExpiredArtifacts(db, now) {
      assert gone[i] in gone;
    }
    RemovedRows(db, gone, now);
    assert (set a | a in gone) == (set a | a in expired && deletes(a));
  }

  /** A batch that was not full leaves no expired artifact whose blob could be deleted. */
  lemma ExpiryIsComplete(db: Db, expired: seq<string>, deletes: string -> bool, now: Time, limit: nat, after: Db)
    requires FirstOf(ExpiredArtifacts(db, now), ExpiresAt(db), limit, expired) && |expired| < limit
    requires after.artifacts == db.artifacts - (set a | a in expired && deletes(a))
    ensures forall a :: a in ExpiredArtifacts(after, now) ==> !deletes(a)
  {
    forall a | a in ExpiredArtifacts(after, now) ensures !deletes(a) {
      assert a in ExpiredArtifacts(db, now);
      assert a in expired;
    }
  }

  // ---------------------------------------------------------------- the store

  class RunStore {
    const service: Option<Time>
    const perKey: int
    const cap: Option<int>
    var runs: map<string, Run>
    var resolutions: map<(string, string), Answered>
    var logs: map<string, seq<LogEntry>>
    var artifacts: map<string, Artifact>

    function Contents(): Db
      reads this
    {
      Db(runs, resolutions, logs, artifacts)
    }

    constructor (service: Option<Time>, perKey: int, cap: Option<int>)
      ensures Contents() == EMPTY
      ensures this.service == service && this.perKey == perKey && this.cap == cap
    {
      this.service, this.perKey, this.cap := service, perKey, cap;
      runs, resolutions, logs, artifacts := map[], map[], map[], map[];
    }

    /** The changed row is written back; a run that just ended starts its artifacts' retention. */
    method Flush(id: string, row: RunRow, now: Time)
      modifies this`runs, this`artifacts
      ensures Contents() == Written(old(Contents()), id, row.run, now)
    {
      runs := runs[id := row.run];
      if row.run.status.Final() {
        artifacts := map a | a in artifacts ::
          if artifacts[a].run == id && artifacts[a].expiresAt.None?
          then artifacts[a].(expiresAt := Some(now + ARTIFACT_RETENTION)) else artifacts[a];
      }
    }

    method Start(id: string, tenant: string, asked: Asked, key: Option<string>, queue: bool, strict: bool, now: Time)
      returns (answer: StartAnswer)
      modifies this`runs
      ensures StartAnswered(old(Contents()), id, tenant, asked, key, queue, strict, answer)
      ensures Contents() == Next(old(Contents()), Action(Step.Start(id, tenant, asked, key, queue), now))
    {
      if id !in runs && (key.None? || !KeyTaken(Contents(), tenant, key.value)) {
        runs := runs[id := Started(tenant, asked, key, queue, now)];
        return Created;
      }
      if key.Some? && key.value != "" {
        if KeyTaken(Contents(), tenant, key.value) {
          assert exists k :: HasKey(Contents(), k, tenant, key.value) by {
            var k :| k in runs && runs[k].tenant == tenant && runs[k].idempotencyKey == Some(key.value);
            assert HasKey(Contents(), k, tenant, key.value);
          }
          var k :| k in runs && HasKey(Contents(), k, tenant, key.value);
          if strict && Differs(runs[k], asked, queue) {
            return NotStarted(Conflict);
          }
          return Found(k);
        }
      }
      if id in runs && runs[id].tenant == tenant {
        return Found(id);
      }
      return NotStarted(Conflict);
    }

    // -------------------------------------------------------------- transitions

    method Pause(tenant: string, id: string, interrupt: Interrupt, schemaOk: bool, state: Option<Json>, worker: Option<string>, now: Time)
      returns (v: Verdict)
      modifies this
      ensures Did(old(Contents()), id, Some(tenant), Verb.Pause(interrupt, schemaOk, state, worker), now, v, Contents())
    {
      hide Moved;
      if interrupt.tenant != tenant || interrupt.run != id || !schemaOk {
        return Refused(Unprocessable);
      }
      if id !in runs || runs[id].tenant != tenant {
        return Refused(NotFound);
      }
      var row := new RunRow(runs[id]);
      if Settled(row.run, Paused, worker) && row.run.WaitsOn(interrupt.id) {
        return Unchanged;
      }
      if FencedOff(row.run, worker) {
        return Refused(LeaseLost);
      }
      var cancelled, moved := row.CancelledInstead(now);
      if !cancelled {
        moved := row.Move(Paused, now);
        if moved {
          row.run := row.run.(checkpoint := state, awaiting := Some(interrupt));
          row.run := row.run.(assignee := interrupt.assignee, awaitingDeadline := interrupt.deadline);
        }
      }
      if !moved {
        return Refused(Conflict);
      }
      row.run := row.run.(settledBy := worker);
      Flush(id, row, now);
      return Changed(row.run);
    }

    method Resume(tenant: string, id: string, resolution: Resolution, mayAnswer: bool, fits: bool, now: Time)
      returns (v: Verdict)
      modifies this
      ensures Did(old(Contents()), id, Some(tenant), Verb.Resume(resolution, mayAnswer, fits), now, v, Contents())
    {
      hide ResumedAs;
      ghost var before, verb := Contents(), Verb.Resume(resolution, mayAnswer, fits);
      if resolution.run != id {
        return Refused(Unprocessable);
      }
      if id !in runs || runs[id].tenant != tenant {
        return Refused(NotFound);
      }
      var row := new RunRow(runs[id]);
      var key := (id, resolution.interrupt);
      if !row.run.WaitsOn(resolution.interrupt) {
        if key in resolutions && resolutions[key].tenant == tenant && resolutions[key].resolution == resolution {
          return Unchanged;
        }
        return Refused(Conflict);
      }
      var asked := row.run.awaiting.value;
      if !mayAnswer {
        return Refused(Forbidden);
      }
      if !fits {
        return Refused(Unprocessable);
      }
      var answered := Answered(tenant, resolution, asked, row.run.attempt);
      row.run := row.run.(lastResolution := Some(resolution));
      var moved := row.Continue(resolution.decision, now);
      if !moved {
        return Refused(Conflict);
      }
      if key in resolutions {
        return Refused(Integrity);
      }
      resolutions := resolutions[key := answered];
      Flush(id, row, now);
      DidChange(before, id, Some(tenant), verb, now, row.run);
      return Changed(row.run);
    }

    method Cancel(tenant: string, id: string, reason: Option<string>, principal: string, mayCancel: bool, now: Time)
      returns (v: Verdict)
      modifies this
      ensures Did(old(Contents()), id, Some(tenant), Verb.Cancel(reason, principal, mayCancel), now, v, Contents())
    {
      if id !in runs || runs[id].tenant != tenant {
        return Refused(NotFound);
      }
      var row := new RunRow(runs[id]);
      if !mayCancel {
        return Refused(Forbidden);
      }
      var asked := row.run.cancelledBy == Some(principal) && row.run.cancelReason == reason;
      if row.run.cancelRequestedAt.Some? || (row.run.status.Cancelled? && asked) {
        return Unchanged;
      }
      if row.run.status.Running? && row.run.leaseOwner.Some? {
        row.run := row.run.(cancelRequestedAt := Some(now), updatedAt := now);
      } else {
        var moved := row.Move(Cancelled, now);
        if !moved {
          return Refused(Conflict);
        }
      }
      row.run := row.run.(cancelReason := reason, cancelledBy := Some(principal));
      Flush(id, row, now);
      return Changed(row.run);
    }

    method Finish(tenant: string, id: string, ending: Ending, worker: Option<string>, draw: real, now: Time)
      returns (v: Verdict)
      modifies this
      ensures Did(old(Contents()), id, Some(tenant), Verb.Finish(ending, worker, draw), now, v, Contents())
    {
      hide Moved, Requeued, Backoff, Jittered;
      if !ending.status.Final() {
        return Refused(Unprocessable);
      }
      if id !in runs || runs[id].tenant != tenant {
        return Refused(NotFound);
      }
      var row := new RunRow(runs[id]);
      var requeued := ending.status.Error? && worker.Some? && Settled(row.run, Queued, worker);
      if Settled(row.run, ending.status, worker) || requeued {
        return Unchanged;
      }
      if FencedOff(row.run, worker) {
        return Refused(LeaseLost);
      }
      var moved: bool;
      if Retried(row.run, ending) {
        row.run := row.run.(errorRetries := row.run.errorRetries + 1);
        var wait := Backoff(ERROR_RETRY_BASE, row.run.errorRetries, ERROR_RETRY_CAP);
        moved := row.Requeue(now, Some(Jittered(wait, draw)));
      } else {
        moved := row.Move(ending.status, now);
        if moved {
          row.run := row.run.(output := ending.output, error := ending.error);
        }
      }
      if !moved {
        return Refused(Conflict);
      }
      row.run := row.run.(settledBy := worker);
      Flush(id, row, now);
      return Changed(row.run);
    }

    // -------------------------------------------------------------- the queue

    /** Lease a run to the worker: one that comes first in claim order among all that may be taken. It
        answers None only when there is none such. */
    method Claim(tenant: Option<string>, agents: set<string>, worker: string, seconds: Time, now: Time)
      returns (claimed: Option<(string, Lease)>)
      requires RowsInv(runs)
      modifies this
      ensures
        var q := Query(tenant, agents, now, perKey, cap);
        && (claimed.None? ==> Contents() == old(Contents()) && forall id :: id in runs ==> !MayTake(Contents(), q, id))
        && (claimed.Some? ==>
              && ClaimStep(old(Contents()), q, claimed.value.0, Contents())
              && Contents() == Next(old(Contents()), ClaimOf(q, claimed.value.0, worker, seconds))
              && claimed.value.0 in runs && runs[claimed.value.0].leaseOwner == Some(worker)
              && runs[claimed.value.0].leaseExpiresAt == Some(now + seconds)
              && claimed.value.1 == LeaseOf(runs[claimed.value.0], service, now))
    {
      ghost var before := Contents();
      var q := Query(tenant, agents, now, perKey, cap);
      var found := FindClaim(Contents(), q);
      if found.None? {
        return None;
      }
      var id := found.value;
      var row := new RunRow(runs[id]);
      var moved := row.Move(Running, now);
      var lease := row.LeaseTo(worker, seconds, service, now);
      Flush(id, row, now);
      Claimed(before, q, id, worker, seconds, row.run, Contents());
      return Some((id, lease));
    }

    method Heartbeat(tenant: string, id: string, worker: string, seconds: Time, state: Option<Json>, now: Time)
      returns (v: Verdict, lease: Option<Lease>)
      modifies this
      ensures Did(old(Contents()), id, Some(tenant), Verb.Heartbeat(worker, seconds, state), now, v, Contents())
      ensures v.Changed? <==> lease.Some?
      ensures v.Changed? ==> v.run.leaseOwner.Some? && v.run.leaseExpiresAt.Some? && lease.value == LeaseOf(v.run, service, now)
    {
      if id !in runs || runs[id].tenant != tenant {
        return Refused(NotFound), None;
      }
      var row := new RunRow(runs[id]);
      if FencedOff(row.run, Some(worker)) || !row.run.status.Running? {
        return Refused(LeaseLost), None;
      }
      if state.Some? {
        row.run := row.run.(checkpoint := state, updatedAt := now);
      }
      var given := row.LeaseTo(worker, seconds, service, now);
      Flush(id, row, now);
      return Changed(row.run), Some(given);
    }

    method Release(tenant: string, id: string, worker: string, state: Option<Json>, now: Time) returns (v: Verdict)
      modifies this
      ensures Did(old(Contents()), id, Some(tenant), Verb.Release(worker, state), now, v, Contents())
    {
      if id !in runs || runs[id].tenant != tenant {
        return Refused(NotFound);
      }
      var row := new RunRow(runs[id]);
      if Settled(row.run, Queued, Some(worker)) {
        return Unchanged;
      }
      if FencedOff(row.run, Some(worker)) {
        return Refused(LeaseLost);
      }
      var cancelled, moved := row.CancelledInstead(now);
      if !cancelled {
        moved := row.Requeue(now, None);
        if moved && state.Some? {
          row.run := row.run.(checkpoint := state);
        }
      }
      if !moved {
        return Refused(Conflict);
      }
      row.run := row.run.(settledBy := Some(worker));
      Flush(id, row, now);
      return Changed(row.run);
    }

    // -------------------------------------------------------------- the ticker's sweeps

    /** The rows a sweep takes, in its order. */
    method SweptRowsOf(sweep: Sweep, now: Time, limit: nat) returns (ids: seq<string>)
      ensures FirstOf(Candidates(Contents(), sweep, now), At(Contents(), sweep), limit, ids)
    {
      ids := OldestFirst(Candidates(Contents(), sweep, now), At(Contents(), sweep), limit);
    }

    method TimeOutPastDeadline(now: Time, limit: nat) returns (ids: seq<string>)
      requires DbInv(Contents())
      modifies this
      ensures Swept(old(Contents()), PastDeadlines, now, limit, ids, Contents())
    {
      hide DbInv, FirstOf, SweptAll, Moved, Written;
      ghost var before := Contents();
      ids := SweptRowsOf(PastDeadlines, now, limit);
      NothingSwept(before, PastDeadlines, ids, now);
      for i := 0 to |ids|
        invariant Contents() == SweptAll(before, PastDeadlines, ids[..i], now)
      {
        RowComesUp(before, PastDeadlines, limit, ids, now, i);
        var row := new RunRow(runs[ids[i]]);
        var moved := row.Move(Timeout, now);
        row.run := row.run.(error := Some(Failure("run_deadline", false)));
        Flush(ids[i], row, now);
        OneMoreSwept(before, PastDeadlines, limit, ids, now, i, row.run);
      }
      assert ids[..|ids|] == ids;
    }

    method TimeOutOverworked(now: Time, limit: nat) returns (ids: seq<string>)
      requires DbInv(Contents())
      modifies this
      ensures Swept(old(Contents()), Overworking(service), now, limit, ids, Contents())
    {
      hide DbInv, FirstOf, SweptAll, Moved, Written;
      ghost var before := Contents();
      ids := SweptRowsOf(Overworking(service), now, limit);
      NothingSwept(before, Overworking(service), ids, now);
      for i := 0 to |ids|
        invariant Contents() == SweptAll(before, Overworking(service), ids[..i], now)
      {
        RowComesUp(before, Overworking(service), limit, ids, now, i);
        var row := new RunRow(runs[ids[i]]);
        var moved := row.Move(Timeout, now);
        row.run := row.run.(error := Some(Failure("run_timeout", false)));
        Flush(ids[i], row, now);
        OneMoreSwept(before, Overworking(service), limit, ids, now, i, row.run);
      }
      assert ids[..|ids|] == ids;
    }

    method RequeueLapsed(draw: string -> real, now: Time, limit: nat) returns (ids: seq<string>)
      requires DbInv(Contents())
      modifies this
      ensures Swept(old(Contents()), Lapses(draw), now, limit, ids, Contents())
    {
      hide DbInv, FirstOf, SweptAll, Moved, Requeued, Written, Backoff, Jittered;
      ghost var before := Contents();
      ids := SweptRowsOf(Lapses(draw), now, limit);
      NothingSwept(before, Lapses(draw), ids, now);
      for i := 0 to |ids|
        invariant Contents() == SweptAll(before, Lapses(draw), ids[..i], now)
      {
        RowComesUp(before, Lapses(draw), limit, ids, now, i);
        var row := new RunRow(runs[ids[i]]);
        var cancelled, moved := row.CancelledInstead(now);
        if !cancelled {
          row.run := row.run.(leaseLapses := row.run.leaseLapses + 1);
          if row.run.leaseLapses >= MAX_LEASE_LAPSES {
            moved := row.Move(Error, now);
            row.run := row.run.(error := Some(Failure("lease_expired", true)));
          } else {
            var wait := Backoff(LAPSE_RETRY_BASE, row.run.leaseLapses, LAPSE_RETRY_CAP);
            moved := row.Requeue(now, Some(Jittered(wait, draw(ids[i]))));
          }
        }
        Flush(ids[i], row, now);
        OneMoreSwept(before, Lapses(draw), limit, ids, now, i, row.run);
      }
      assert ids[..|ids|] == ids;
    }

    method EscalateOverdue(now: Time, limit: nat) returns (ids: seq<string>)
      requires DbInv(Contents())
      modifies this
      ensures Swept(old(Contents()), OverdueAnswers, now, limit, ids, Contents())
    {
      hide DbInv, FirstOf, SweptAll, Moved, Written;
      ghost var before := Contents();
      ids := SweptRowsOf(OverdueAnswers, now, limit);
      NothingSwept(before, OverdueAnswers, ids, now);
      for i := 0 to |ids|
        invariant Contents() == SweptAll(before, OverdueAnswers, ids[..i], now)
      {
        RowComesUp(before, OverdueAnswers, limit, ids, now, i);
        var row := new RunRow(runs[ids[i]]);
        var interrupt := row.run.awaiting.value;
        if interrupt.escalateTo.Some? && interrupt.escalateTo.value != "" {
          var escalated := interrupt.(assignee := interrupt.escalateTo, escalateTo := None, deadline := None);
          row.run := row.run.(awaiting := Some(escalated), assignee := escalated.assignee);
          row.run := row.run.(awaitingDeadline := None, updatedAt := now);
        } else {
          var moved := row.Move(Timeout, now);
          row.run := row.run.(error := Some(Failure("interrupt_deadline", true)));
        }
        Flush(ids[i], row, now);
        OneMoreSwept(before, OverdueAnswers, limit, ids, now, i, row.run);
      }
      assert ids[..|ids|] == ids;
    }

    /** The ended runs no artifact keeps go, the longest ended first, with their answers and logs. */
    method PurgeEnded(before: Time, limit: nat, now: Time) returns (gone: seq<string>)
      requires DbInv(Contents())
      modifies this
      ensures FirstOf(PurgeCandidates(old(Contents()), before), UpdatedAt(old(Contents())), limit, gone)
      ensures Contents() == PurgedAll(old(Contents()), gone, before, now)
    {
      hide PurgedAll, DbInv;
      ghost var db := Contents();
      gone := OldestFirst(PurgeCandidates(Contents(), before), UpdatedAt(Contents()), limit);
      resolutions := map k | k in resolutions && k.0 !in gone :: resolutions[k];
      logs := map id | id in logs && id !in gone :: logs[id];
      runs := map id | id in runs && id !in gone :: runs[id];
      assert Distinct(gone) && forall i :: 0 <= i < |gone| ==> Purgeable(db, gone[i], before) by {
        PurgesOnlyPurgeable(db, before, limit, gone);
      }
      PurgedRows(db, gone, before, now);
    }

    /** Artifacts past their expiry, in that order. A row stays when its blob cannot be deleted. */
    method PurgeArtifacts(deletes: string -> bool, now: Time, limit: nat) returns (expired: seq<string>)
      requires DbInv(Contents())
      modifies this`artifacts
      ensures FirstOf(ExpiredArtifacts(old(Contents()), now), ExpiresAt(old(Contents())), limit, expired)
      ensures Contents() == RemovedAll(old(Contents()), Deleted(expired, deletes), now) && DbInv(Contents())
      ensures artifacts == old(artifacts) - (set a | a in expired && deletes(a))
    {
      hide RemovedAll, DbInv, Deleted, ExpiredArtifacts, ExpiresAt, FirstOf;
      ghost var db := Contents();
      expired := OldestFirst(ExpiredArtifacts(Contents(), now), ExpiresAt(Contents()), limit);
      var gone: seq<string> := [];
      NoneDeleted(expired, deletes);
      for i := 0 to |expired|
        invariant Contents() == db
        invariant gone == Deleted(expired[..i], deletes)
      {
        DeletedOneMore(expired, deletes, i);
        if deletes(expired[i]) {
          gone := gone + [expired[i]];
        }
      }
      assert expired[..|expired|] == expired;
      RemovedAreExpired(db, expired, deletes, now, limit);
      artifacts := artifacts - (set a | a in gone);
    }

    // -------------------------------------------------------------- events and artifacts

    method CheckEventWriter(tenant: string, id: string, events: seq<RunEvent>, worker: Option<string>) returns (fault: Option<Fault>)
      ensures fault == AppendFault(Contents(), id, tenant, events, worker)
    {
      if exists i :: 0 <= i < |events| && (events[i].tenant != tenant || events[i].run != id) {
        return Some(Unprocessable);
      }
      if id !in runs || runs[id].tenant != tenant {
        return Some(NotFound);
      }
      var row := runs[id];
      if !row.status.Running? {
        return Some(if worker.Some? then LeaseLost else Conflict);
      }
      if worker.None? && row.leaseOwner.Some? {
        return Some(Conflict);
      }
      if worker != row.leaseOwner {
        return Some(LeaseLost);
      }
      return None;
    }

    /** Each event not seen yet goes at the next position. */
    method AppendEvents(tenant: string, id: string, events: seq<RunEvent>, worker: Option<string>, now: Time)
      returns (answer: AppendAnswer)
      modifies this
      ensures
        var fault := AppendFault(old(Contents()), id, tenant, events, worker);
        if fault.Some? then answer == NotAppended(fault.value)
        else answer == EventsAppended(|Contents().Log(id)| - |old(Contents()).Log(id)|, LastPosition(Contents().Log(id)))
      ensures Contents() == Next(old(Contents()), Action(Append(id, tenant, events, worker), now))
    {
      hide Appended, LastPosition, Appending, SeenOf, Logged;
      var fault := CheckEventWriter(tenant, id, events, worker);
      if fault.Some? {
        return NotAppended(fault.value);
      }
      ghost var before := Contents();
      AppendTakes(before, id, tenant, events, worker, now);
      var log := if id in logs then logs[id] else [];
      ghost var was := log;
      var seen := SeenOf(log, events);
      var position := LastPosition(log);
      var added: nat := 0;
      NothingAppended(was, events);
      for i := 0 to |events|
        invariant Contents() == before
        invariant Appending(was, events, i, log, seen, position, added)
      {
        AppendOne(was, events, i, log, seen, position, added);
        var e := events[i];
        if (e.attempt, e.sequence) !in seen {
          seen := seen + {(e.attempt, e.sequence)};
          position := position + 1;
          added := added + 1;
          log := log + [LogEntry(position, e)];
        }
      }
      AllAppended(was, events, log, seen, position, added);
      logs := logs[id := log];
      return EventsAppended(added, position);
    }

    method CheckArtifactWriter(tenant: string, id: string, worker: Option<string>, role: string) returns (fault: Option<Fault>)
      ensures fault == ArtifactFault(Contents(), id, tenant, worker, role)
    {
      if id !in runs || runs[id].tenant != tenant {
        return Some(NotFound);
      }
      var row := runs[id];
      if row.status.Running? {
        if worker.None? && row.leaseOwner.Some? {
          return Some(Conflict);
        }
        if worker != row.leaseOwner {
          return Some(LeaseLost);
        }
      } else if row.status.Paused? {
        if role != PAUSED_ARTIFACT_ROLE {
          return Some(Forbidden);
        }
      } else {
        return Some(if worker.Some? then LeaseLost else Conflict);
      }
      return None;
    }

    /** A new artifact, or the run's own with the same content. */
    method AddArtifact(tenant: string, id: string, artifact: string, checksum: string, worker: Option<string>, role: string, now: Time)
      returns (fault: Option<Fault>, stored: Option<string>)
      modifies this`artifacts
      ensures fault.Some? && fault != Some(Integrity) ==> fault == ArtifactFault(old(Contents()), id, tenant, worker, role)
      ensures ArtifactFault(old(Contents()), id, tenant, worker, role).Some? ==> fault.Some? && fault != Some(Integrity)
      ensures fault == Some(Integrity) ==> artifact in old(artifacts) && !HasContent(old(Contents()), id, checksum)
      ensures fault.None? <==> stored.Some?
      ensures stored.Some? ==>
        stored.value in artifacts && artifacts[stored.value].run == id && artifacts[stored.value].checksum == checksum
      ensures Contents() == Next(old(Contents()), Action(Step.AddArtifact(id, tenant, artifact, checksum, worker, role), now))
    {
      fault := CheckArtifactWriter(tenant, id, worker, role);
      if fault.Some? {
        return fault, None;
      }
      if HasContent(Contents(), id, checksum) {
        var existing :| existing in artifacts && artifacts[existing].run == id && artifacts[existing].checksum == checksum;
        return None, Some(existing);
      }
      if artifact in artifacts {
        return Some(Integrity), None;
      }
      artifacts := artifacts[artifact := Artifact(id, checksum, None)];
      return None, Some(artifact);
    }
  }

  lemma Claimed(db: Db, q: Query, id: string, worker: string, seconds: Time, r: Run, after: Db)
    requires RowsInv(db.runs) && MayTake(db, q, id)
    requires forall other :: other in db.runs && MayTake(db, q, other) ==> NotAfter(db, q, db.runs[id], db.runs[other])
    requires r == Leasing(Moved(db.runs[id], Running, q.now), worker, seconds, q.now) && after == Written(db, id, r, q.now)
    ensures after == Next(db, ClaimOf(q, id, worker, seconds)) && ClaimStep(db, q, id, after)
    ensures r.leaseExpiresAt == Some(q.now + seconds)
  {
    hide NotAfter, KeyHasRoom, TenantHasRoom;
  }
}
