/** The ticker: one pass of sweeps with the events they announce, the webhooks it sends, and the
    breaker that spares a database that is down. */
module Tickers {
  import opened Domain
  import opened Transitions
  import opened Database
  import opened Invariants
  import opened Lifecycle
  import opened Outbox
  import opened Announcements
  import opened Sweeps
  import opened Ordering
  import opened RunStores
  import opened Firings
  import Schedules

  // ---------------------------------------------------------------- the breaker

  class Breaker {
    const threshold: int
    const cooldown: Time
    var failures: int
    var openedAt: Option<Time>

    constructor (threshold: int, cooldown: Time)
      ensures this.threshold == threshold && this.cooldown == cooldown
      ensures Stands([])
    {
      this.threshold, this.cooldown := threshold, cooldown;
      failures, openedAt := 0, None;
    }

    /** The breaker after these calls, oldest first, each let through by it. */
    ghost predicate Stands(calls: seq<Call>)
      reads this
    {
      && failures == FailedInARow(calls)
      && openedAt == if calls != [] && FailedInARow(calls) >= AtLeastOne(threshold) then Some(calls[|calls| - 1].at) else None
    }

    method Allows(now: Time, ghost calls: seq<Call>) returns (allowed: bool)
      requires Stands(calls)
      ensures allowed <==> LetsThrough(threshold, cooldown, calls, now)
    {
      allowed := openedAt.None? || now - openedAt.value >= cooldown;
    }

    method RecordSuccess(now: Time, ghost calls: seq<Call>)
      requires Stands(calls)
      modifies this
      ensures Stands(calls + [Call(now, true)])
    {
      failures := 0;
      openedAt := None;
    }

    method RecordFailure(now: Time, ghost calls: seq<Call>)
      requires Stands(calls)
      modifies this
      ensures Stands(calls + [Call(now, false)])
    {
      OneMoreFailure(calls, now);
      failures := failures + 1;
      if openedAt.Some? || failures >= threshold {
        openedAt := Some(now);
      }
    }
  }

  /** A call the breaker let through, and whether it went well. */
  datatype Call = Call(at: Time, ok: bool)

  /** The calls that failed since the last that went well. */
  function FailedInARow(calls: seq<Call>): nat {
    if calls == [] || calls[|calls| - 1].ok then 0 else 1 + FailedInARow(calls[..|calls| - 1])
  }

  /** A first failure opens a breaker however low its threshold. */
  function AtLeastOne(threshold: int): int {
    if threshold >= 1 then threshold else 1
  }

  /** Open once so many calls in a row have failed; then only a call a cooldown after the last. */
  predicate LetsThrough(threshold: int, cooldown: Time, calls: seq<Call>, now: Time) {
    FailedInARow(calls) < AtLeastOne(threshold) || now - calls[|calls| - 1].at >= cooldown
  }

  lemma OneMoreFailure(calls: seq<Call>, now: Time)
    ensures FailedInARow(calls + [Call(now, false)]) == FailedInARow(calls) + 1
  {
    assert (calls + [Call(now, false)])[..|calls|] == calls;
  }

  // ---------------------------------------------------------------- a sweep and its events

  /** The outbox after a sweep's steps, each with its announcement. */
  function AnnouncedAll(box: Box, db: Db, sweep: Sweep, ids: seq<string>, now: Time): Box {
    if ids == [] then box
    else
      var most := ids[..|ids| - 1];
      Announcing(AnnouncedAll(box, db, sweep, most, now), SweptAll(db, sweep, most, now), StepOn(sweep, ids[|ids| - 1], now))
  }

  /** The event a swept run announces: escalated if it is paused, else what its status does. */
  function SweepEvent(r: Run): Option<WebhookEvent> {
    if r.status.Paused? then Some(EscalatedEvent) else if r.status.Final() then Some(FinishedEvent) else None
  }

  /** Announcing from the row as the whole sweep left it is announcing its own step. */
  lemma RowAnnouncesItsStep(db: Db, sweep: Sweep, now: Time, limit: nat, ids: seq<string>, after: Db, i: nat)
    requires DbInv(db) && Swept(db, sweep, now, limit, ids, after) && i < |ids|
    ensures ids[i] in after.runs
    ensures
      var id := ids[i];
      var between := SweptAll(db, sweep, ids[..i], now);
      var r := after.runs[id];
      && id in between.runs && between.runs[id].tenant == r.tenant
      && Announcement(between, StepOn(sweep, id, now)) ==
           if SweepEvent(r).None? then None else Some(KeyOf(id, r, SweepEvent(r).value))
  {
    hide SweptAll, FirstOf, DbInv, Announcement, RowSwept;
    SweptIsSwept(db, sweep, now, limit, ids, after);
    RowComesUp(db, sweep, limit, ids, now, i);
    StepAnnounces(SweptAll(db, sweep, ids[..i], now), sweep, ids[i], now);
  }

  lemma StepAnnounces(db: Db, sweep: Sweep, id: string, now: Time)
    requires id in db.runs && RowInv(db.runs[id]) && sweep.Selects(db.runs[id], now)
    ensures
      var r := RowSwept(sweep, id, db.runs[id], now);
      && r.tenant == db.runs[id].tenant
      && Announcement(db, StepOn(sweep, id, now)) ==
           if SweepEvent(r).None? then None else Some(KeyOf(id, r, SweepEvent(r).value))
  {
  }

  lemma OneMoreAnnounced(box: Box, db: Db, sweep: Sweep, ids: seq<string>, now: Time, i: nat)
    requires i < |ids|
    ensures AnnouncedAll(box, db, sweep, ids[..i + 1], now) ==
      Announcing(AnnouncedAll(box, db, sweep, ids[..i], now), SweptAll(db, sweep, ids[..i], now), StepOn(sweep, ids[i], now))
  {
    assert ids[..i + 1][..i] == ids[..i];
  }

  // ---------------------------------------------------------------- sending

  lemma WaitIsPositive(attempts: int)
    ensures Backoff(WEBHOOK_RETRY_BASE, attempts, WEBHOOK_RETRY_CAP) >= 15.0
  {
    var n: nat := if attempts >= 1 then attempts - 1 else 0;
    assert Pow2(n) as real >= 1.0;
  }

  /** The held rows settled so far are gone, dead or due later; the others are as the claim left
      them. */
  ghost predicate Settling(box: Box, held: seq<Held>, i: nat, rows: map<DeliveryId, Delivery>, attempts: Held -> Attempt, now: Time)
    requires i <= |held|
  {
    && (forall id :: id in rows ==> id in box.rows)
    && (forall id :: id in box.rows && id !in Ids(held[..i]) ==> id in rows && rows[id] == box.rows[id])
    && (forall j :: 0 <= j < i ==> SettledRow(held[j], attempts(held[j]), rows, now))
  }

  predicate SettledRow(held: Held, attempt: Attempt, rows: map<DeliveryId, Delivery>, now: Time) {
    && (held.id in rows <==> attempt.error.Some?)
    && (held.id in rows ==>
          && rows[held.id].attempts == held.attempts && rows[held.id].lastError == attempt.error
          && if attempt.retry && held.attempts < WEBHOOK_ATTEMPTS
             then !rows[held.id].Dead() && rows[held.id].nextAttemptAt == now + Backoff(WEBHOOK_RETRY_BASE, held.attempts, WEBHOOK_RETRY_CAP)
             else rows[held.id].deadAt == Some(now))
  }

  lemma RowAfterSettle(rows: map<DeliveryId, Delivery>, held: Held, attempt: Attempt, now: Time)
    requires held.id in rows && rows[held.id].attempts == held.attempts && !rows[held.id].Dead()
    ensures
      var after := AfterSettle(Box(map[], rows), held, attempt, now).rows;
      && SettledRow(held, attempt, after, now)
      && (forall id :: id in after ==> id in rows)
      && (forall id :: id in rows && id != held.id ==> id in after && after[id] == rows[id])
  {
    hide Backoff;
  }

  lemma OtherSettledStays(held: Held, attempt: Attempt, rows: map<DeliveryId, Delivery>, after: map<DeliveryId, Delivery>, now: Time)
    requires SettledRow(held, attempt, rows, now)
    requires (held.id in after <==> held.id in rows) && (held.id in rows ==> after[held.id] == rows[held.id])
    ensures SettledRow(held, attempt, after, now)
  {
    hide Backoff;
  }

  lemma SettledOne(box: Box, held: seq<Held>, i: nat, rows: map<DeliveryId, Delivery>, attempts: Held -> Attempt, now: Time)
    requires i < |held| && Settling(box, held, i, rows, attempts, now)
    requires forall j, k :: 0 <= j < k < |held| ==> held[j].id != held[k].id
    requires held[i].id in box.rows && box.rows[held[i].id].attempts == held[i].attempts && !box.rows[held[i].id].Dead()
    ensures Settling(box, held, i + 1, AfterSettle(Box(map[], rows), held[i], attempts(held[i]), now).rows, attempts, now)
  {
    hide AfterSettle, SettledRow, Delivery.Dead;
    var after := AfterSettle(Box(map[], rows), held[i], attempts(held[i]), now).rows;
    assert held[..i + 1] == held[..i] + [held[i]];
    IdsOfLonger(held[..i], held[i]);
    assert held[i].id !in Ids(held[..i]) by {
      forall h | h in held[..i] ensures h.id != held[i].id {
        var j :| 0 <= j < i && h == held[j];
      }
    }
    RowAfterSettle(rows, held[i], attempts(held[i]), now);
    forall j | 0 <= j < i
      ensures SettledRow(held[j], attempts(held[j]), after, now)
    {
      OtherSettledStays(held[j], attempts(held[j]), rows, after, now);
    }
  }

  /** What a claim holds, none twice, stands in the outbox counted and not dead; the rest is as before. */
  lemma ClaimedRows(before: Box, held: seq<Held>, due: set<DeliveryId>, rows: map<DeliveryId, Delivery>, now: Time)
    requires Sweeping(before, held, due, rows, now)
    ensures forall j, k :: 0 <= j < k < |held| ==> held[j].id != held[k].id
    ensures forall i :: 0 <= i < |held| ==>
      held[i].id in rows && rows[held[i].id].attempts == held[i].attempts && !rows[held[i].id].Dead()
    ensures rows.Keys == before.rows.Keys
    ensures forall id :: id in rows && id !in Ids(held) ==> rows[id] == before.rows[id]
  {
    forall i | 0 <= i < |held| ensures held[i].id in Ids(held) {
      assert held[i] in held;
    }
  }

  /** Once all are settled none that was held is due now. */
  lemma NoneDueAgain(box: Box, held: seq<Held>, rows: map<DeliveryId, Delivery>, attempts: Held -> Attempt, now: Time, id: DeliveryId)
    requires Settling(box, held, |held|, rows, attempts, now) && id in Ids(held) && id in rows
    ensures !rows[id].Due(now)
  {
    var h :| h in held && h.id == id;
    var j :| 0 <= j < |held| && held[j] == h;
    WaitIsPositive(held[j].attempts);
    assert SettledRow(held[j], attempts(held[j]), rows, now);
  }

  // ---------------------------------------------------------------- the ticker

  lemma AnnouncingKeepsOwned(box: Box, db: Db, a: Action)
    requires Owned(box)
    ensures Owned(Announcing(box, db, a))
  {
    hide Announcement;
  }

  lemma {:induction false} AnnouncedAllKeepsOwned(box: Box, db: Db, sweep: Sweep, ids: seq<string>, now: Time)
    requires Owned(box)
    ensures Owned(AnnouncedAll(box, db, sweep, ids, now))
  {
    hide Announcing, SweptAll, Owned;
    if ids != [] {
      var most := ids[..|ids| - 1];
      AnnouncedAllKeepsOwned(box, db, sweep, most, now);
      AnnouncingKeepsOwned(AnnouncedAll(box, db, sweep, most, now), SweptAll(db, sweep, most, now), StepOn(sweep, ids[|ids| - 1], now));
    }
  }

  /** The sweeps of a pass, in order. */
  function PassOf(service: Option<Time>, draw: string -> real): seq<Sweep> {
    [PastDeadlines, Overworking(service), Lapses(draw), OverdueAnswers]
  }

  /** Nothing a sweep would still find. */
  predicate NothingDue(r: Run, service: Option<Time>, now: Time) {
    !PastDeadline(r, now) && !Overworked(r, service, now) && !Lapsed(r, now) && !Overdue(r, now)
  }

  /** The outbox after the first `n` sweeps of a pass. */
  function PassAnnounced(box: Box, sweeps: seq<Sweep>, dbs: seq<Db>, picks: seq<seq<string>>, now: Time, n: nat): Box
    requires n <= |sweeps| && n <= |dbs| && n <= |picks|
  {
    if n == 0 then box
    else AnnouncedAll(PassAnnounced(box, sweeps, dbs, picks, now, n - 1), dbs[n - 1], sweeps[n - 1], picks[n - 1], now)
  }

  lemma {:induction false} SamePass(box: Box, sweeps: seq<Sweep>, dbs: seq<Db>, picks: seq<seq<string>>, now: Time, n: nat, after: Db, ids: seq<string>)
    requires n <= |sweeps| && n <= |dbs| && n <= |picks|
    ensures PassAnnounced(box, sweeps, dbs + [after], picks + [ids], now, n) == PassAnnounced(box, sweeps, dbs, picks, now, n)
  {
    hide AnnouncedAll;
    if n > 0 {
      SamePass(box, sweeps, dbs, picks, now, n - 1, after, ids);
    }
  }

  lemma PassOneMore(sweeps: seq<Sweep>, dbs: seq<Db>, picks: seq<seq<string>>, limit: nat, now: Time, k: nat, ids: seq<string>, after: Db)
    requires k < |sweeps| && Pass(sweeps[..k], dbs, picks, limit, now)
    requires Swept(dbs[k], sweeps[k], now, limit, ids, after)
    ensures Pass(sweeps[..k + 1], dbs + [after], picks + [ids], limit, now)
  {
    hide Swept;
  }

  lemma FullPass(service: Option<Time>, draw: string -> real, dbs: seq<Db>, picks: seq<seq<string>>, limit: nat, now: Time)
    requires Pass(PassOf(service, draw), dbs, picks, limit, now) && DbInv(dbs[0])
    requires forall i :: 0 <= i < |picks| ==> |picks[i]| < limit
    ensures forall id :: id in dbs[4].runs ==> NothingDue(dbs[4].runs[id], service, now)
  {
    hide Swept, DbInv;
    var sweeps := PassOf(service, draw);
    PassLeavesNothingDue(sweeps, dbs, picks, limit, now, 4);
    forall id | id in dbs[4].runs
      ensures NothingDue(dbs[4].runs[id], service, now)
    {
      assert !sweeps[0].Selects(dbs[4].runs[id], now);
      assert !sweeps[1].Selects(dbs[4].runs[id], now);
      assert !sweeps[2].Selects(dbs[4].runs[id], now);
      assert !sweeps[3].Selects(dbs[4].runs[id], now);
    }
  }

  /** Where in a tick the database fails, if it does: at a fire, once so many are done; at a sweep, or
      before the deliveries are held; once they are held; or once so many cleaning steps are done. */
  datatype Down = Nowhere | AtFire(fires: nat) | AtSweep(sweep: nat) | AtSettling | AtCleaning(steps: nat)

  predicate NoneDeadSince(rows: map<DeliveryId, Delivery>, before: Time) {
    forall id :: id in rows && rows[id].deadAt.Some? ==> rows[id].deadAt.value >= before
  }

  /** Every artifact past its expiry is one whose blob could not be deleted. */
  predicate NoneExpired(artifacts: map<string, Artifact>, deletes: string -> bool, now: Time) {
    forall a :: a in artifacts && artifacts[a].expiresAt.Some? && artifacts[a].expiresAt.value < now ==> !deletes(a)
  }

  /** Every run that ended before the moment has an artifact that is still kept. */
  predicate NoneKeptTooLong(db: Db, before: Time) {
    forall id :: id in db.runs && db.runs[id].status.Final() && db.runs[id].updatedAt < before ==>
      exists a :: a in db.artifacts && db.artifacts[a].run == id
  }

  /** Paused, not due yet, or waiting after a failure. */
  predicate NotToFire(s: Schedules.Schedule, now: Time) {
    !s.enabled || s.nextFireAt.None? || s.nextFireAt.value > now || (s.retryAfter.Some? && s.retryAfter.value > now)
  }

  lemma DeadSince(rows: map<DeliveryId, Delivery>, before: Time)
    requires DeadBefore(rows, before) == {}
    ensures NoneDeadSince(rows, before)
  {
    forall id | id in rows && rows[id].deadAt.Some? ensures rows[id].deadAt.value >= before {
      assert id !in DeadBefore(rows, before);
    }
  }

  lemma ExpiredSince(db: Db, deletes: string -> bool, now: Time)
    requires forall a :: a in ExpiredArtifacts(db, now) ==> !deletes(a)
    ensures NoneExpired(db.artifacts, deletes, now)
  {
    forall a | a in db.artifacts && db.artifacts[a].expiresAt.Some? && db.artifacts[a].expiresAt.value < now ensures !deletes(a) {
      assert a in ExpiredArtifacts(db, now);
    }
  }

  lemma KeptSince(db: Db, before: Time)
    requires PurgeCandidates(db, before) == {}
    ensures NoneKeptTooLong(db, before)
  {
    forall id | id in db.runs && db.runs[id].status.Final() && db.runs[id].updatedAt < before
      ensures exists a :: a in db.artifacts && db.artifacts[a].run == id
    {
      assert id !in PurgeCandidates(db, before);
    }
  }

  lemma NoneToFire(rows: map<string, Schedules.Schedule>, now: Time)
    requires Schedules.DueSchedules(rows, now) == {}
    ensures forall id :: id in rows ==> NotToFire(rows[id], now)
  {
    forall id | id in rows ensures NotToFire(rows[id], now) {
      assert id !in Schedules.DueSchedules(rows, now);
    }
  }

  lemma NoneToSend(rows: map<DeliveryId, Delivery>, now: Time)
    requires forall id :: id in rows ==> !rows[id].Due(now)
    ensures forall id :: id in rows ==> rows[id].deadAt.Some? || rows[id].nextAttemptAt > now
  {
  }

  class Ticker {
    const store: RunStore
    const hooks: WebhookStore
    const schedules: ScheduleTable
    const breaker: Breaker
    const deadRetention: Time
    const runRetention: Option<Time>

    constructor (store: RunStore, hooks: WebhookStore, schedules: ScheduleTable, breaker: Breaker,
                 deadRetention: Time, runRetention: Option<Time>)
      ensures this.store == store && this.hooks == hooks && this.schedules == schedules && this.breaker == breaker
      ensures this.deadRetention == deadRetention && this.runRetention == runRetention
    {
      this.store, this.hooks, this.schedules, this.breaker := store, hooks, schedules, breaker;
      this.deadRetention, this.runRetention := deadRetention, runRetention;
    }

    /** One run sweep and the events of the runs it moved. */
    method SweepRuns(sweep: Sweep, now: Time, limit: nat) returns (moved: seq<string>)
      requires DbInv(store.Contents())
      requires sweep.Overworking? ==> sweep.service == store.service
      modifies store, hooks
      ensures Swept(old(store.Contents()), sweep, now, limit, moved, store.Contents())
      ensures hooks.Contents() == AnnouncedAll(old(hooks.Contents()), old(store.Contents()), sweep, moved, now)
    {
      hide DbInv, FirstOf, SweptAll, Announcement, Swept;
      ghost var db, box := store.Contents(), hooks.Contents();
      match sweep {
        case PastDeadlines => moved := store.TimeOutPastDeadline(now, limit);
        case Overworking(_) => moved := store.TimeOutOverworked(now, limit);
        case Lapses(draw) => moved := store.RequeueLapsed(draw, now, limit);
        case OverdueAnswers => moved := store.EscalateOverdue(now, limit);
      }
      ghost var after := store.Contents();
      for i := 0 to |moved|
        invariant store.Contents() == after
        invariant hooks.Contents() == AnnouncedAll(box, db, sweep, moved[..i], now)
      {
        RowAnnouncesItsStep(db, sweep, now, limit, moved, after, i);
        OneMoreAnnounced(box, db, sweep, moved, now, i);
        var run := store.runs[moved[i]];
        var event := SweepEvent(run);
        if event.Some? {
          hooks.Announce(run.tenant, KeyOf(moved[i], run, event.value), now);
        }
      }
      assert moved[..|moved|] == moved;
    }

    /** A batch of sends and their settling. What the receiver took leaves the outbox, what is given up
        on dies, the rest waits for its next attempt; no other delivery changes, and after a batch that
        was not full none is due. */
    method SendWebhooks(attempts: Held -> Attempt, now: Time, limit: nat) returns (held: seq<Held>)
      requires Owned(hooks.Contents())
      modifies hooks
      ensures hooks.hooks == old(hooks.hooks) && hooks.rows.Keys <= old(hooks.rows).Keys
      ensures Owned(hooks.Contents())
      ensures InOrder(old(hooks.Contents()), held, now) && |held| <= limit
      ensures forall i :: 0 <= i < |held| ==> SettledRow(held[i], attempts(held[i]), hooks.rows, now)
      ensures forall id :: id !in Ids(held) ==>
        (id in hooks.rows <==> id in old(hooks.rows)) && (id in hooks.rows ==> hooks.rows[id] == old(hooks.rows)[id])
      ensures |held| < limit ==> forall id :: id in hooks.rows ==> !hooks.rows[id].Due(now)
    {
      hide SettledRow, AfterSettle, HeldFirst, TakenAll, Settling;
      ghost var before := hooks.Contents();
      held := hooks.ClaimDue(now, limit);
      ghost var claimed := hooks.Contents();
      ClaimedRows(before, held, DueIds(before.rows, now) - Ids(held), claimed.rows, now);
      NoneSettled(claimed, held, attempts, now);
      for i := 0 to |held|
        invariant hooks.hooks == claimed.hooks
        invariant Settling(claimed, held, i, hooks.rows, attempts, now)
      {
        SettledOne(claimed, held, i, hooks.rows, attempts, now);
        SettleSeesRowsOnly(hooks.Contents(), held[i], attempts(held[i]), now);
        var died := hooks.Settle(held[i], attempts(held[i]), now);
      }
      AllSettled(before, claimed, held, hooks.rows, attempts, now);
    }

    /** The sweeps of a pass, with their events. A database failure at sweep `down` keeps what the
        sweeps before it committed. */
    method SweepPass(draw: string -> real, now: Time, limit: nat, down: Option<nat>)
      returns (picks: seq<seq<string>>, ghost dbs: seq<Db>)
      requires DbInv(store.Contents()) && Owned(hooks.Contents())
      modifies store, hooks
      ensures DbInv(store.Contents()) && Owned(hooks.Contents())
      ensures |picks| == if down.Some? && down.value < 4 then down.value else 4
      ensures Pass(PassOf(store.service, draw)[..|picks|], dbs, picks, limit, now)
      ensures |dbs| == |picks| + 1 && dbs[0] == old(store.Contents()) && dbs[|picks|] == store.Contents()
      ensures hooks.Contents() == PassAnnounced(old(hooks.Contents()), PassOf(store.service, draw), dbs, picks, now, |picks|)
      ensures |picks| == 4 && (forall i :: 0 <= i < 4 ==> |picks[i]| < limit) ==>
        forall id :: id in store.runs ==> NothingDue(store.runs[id], store.service, now)
    {
      hide DbInv, Swept, Pass, NothingDue, SweptAll, AnnouncedAll, Owned;
      ghost var box := hooks.Contents();
      picks, dbs := [], [store.Contents()];
      var sweeps := PassOf(store.service, draw);
      EmptyPass(store.Contents(), limit, now);
      assert sweeps[..0] == [];
      for k := 0 to 4
        invariant |picks| == k && |dbs| == k + 1 && (down.Some? ==> k <= down.value)
        invariant dbs[0] == old(store.Contents()) && dbs[k] == store.Contents()
        invariant DbInv(store.Contents()) && Owned(hooks.Contents())
        invariant Pass(sweeps[..k], dbs, picks, limit, now)
        invariant hooks.Contents() == PassAnnounced(box, sweeps, dbs, picks, now, k)
      {
        if down == Some(k) {
          return;
        }
        ghost var already := hooks.Contents();
        var ids := SweepRuns(sweeps[k], now, limit);
        SweptIsSwept(dbs[k], sweeps[k], now, limit, ids, store.Contents());
        AnnouncedAllKeepsOwned(already, dbs[k], sweeps[k], ids, now);
        PassOneMore(sweeps, dbs, picks, limit, now, k, ids, store.Contents());
        SamePass(box, sweeps, dbs, picks, now, k, store.Contents(), ids);
        picks, dbs := picks + [ids], dbs + [store.Contents()];
      }
      assert sweeps[..4] == sweeps;
      if forall i :: 0 <= i < 4 ==> |picks[i]| < limit {
        FullPass(store.service, draw, dbs, picks, limit, now);
      }
    }

    /** Three steps, of which the first `steps` are done: drop what has been dead too long, delete the
        artifacts and then the runs that have been kept long enough. */
    method Clean(deletes: string -> bool, now: Time, limit: nat, steps: nat)
      returns (dropped: seq<DeliveryId>, expired: seq<string>, gone: seq<string>)
      requires DbInv(store.Contents()) && Owned(hooks.Contents())
      modifies store, hooks
      ensures DbInv(store.Contents()) && Owned(hooks.Contents())
      ensures if steps == 0 then dropped == []
              else FirstOf(DeadBefore(old(hooks.rows), now - deadRetention), DiedAt(old(hooks.rows)), limit, dropped)
      ensures hooks.Contents() == old(hooks.Contents()).(rows := old(hooks.rows) - (set id | id in dropped))
      ensures if steps <= 1 then expired == []
              else FirstOf(ExpiredArtifacts(old(store.Contents()), now), ExpiresAt(old(store.Contents())), limit, expired)
      ensures
        var kept := RemovedAll(old(store.Contents()), Deleted(expired, deletes), now);
        if steps <= 2 || runRetention.None? then gone == [] && store.Contents() == kept
        else
          && FirstOf(PurgeCandidates(kept, now - runRetention.value), UpdatedAt(kept), limit, gone)
          && store.Contents() == PurgedAll(kept, gone, now - runRetention.value, now)
      ensures store.artifacts == old(store.artifacts) - (set a | a in expired && deletes(a))
      ensures forall id :: id in store.runs ==> id in old(store.runs) && store.runs[id] == old(store.runs)[id]
      ensures steps >= 1 && |dropped| < limit ==> NoneDeadSince(hooks.rows, now - deadRetention)
      ensures steps >= 2 && |expired| < limit ==> NoneExpired(store.artifacts, deletes, now)
      ensures steps >= 3 && runRetention.Some? && |gone| < limit ==> NoneKeptTooLong(store.Contents(), now - runRetention.value)
    {
      hide DbInv, RemovedAll, PurgedAll, FirstOf, Deleted, DeadBefore, PurgeCandidates, ExpiredArtifacts, DiedAt, ExpiresAt, UpdatedAt;
      hide NoneDeadSince, NoneExpired, NoneKeptTooLong;
      ghost var rows, before := hooks.rows, store.Contents();
      dropped, expired, gone := [], [], [];
      NothingRemoved(before, deletes, now);
      assert rows - (set id: DeliveryId | id in []) == rows && store.artifacts - (set a: string | a in [] && deletes(a)) == store.artifacts;
      if steps == 0 {
        return;
      }
      dropped := hooks.DropDead(now - deadRetention, limit);
      if |dropped| < limit {
        DropIsComplete(rows, now - deadRetention, limit, dropped);
        DeadSince(hooks.rows, now - deadRetention);
      }
      if steps == 1 {
        return;
      }
      expired := store.PurgeArtifacts(deletes, now, limit);
      if |expired| < limit {
        ExpiryIsComplete(before, expired, deletes, now, limit, store.Contents());
        ExpiredSince(store.Contents(), deletes, now);
      }
      if steps == 2 || runRetention.None? {
        return;
      }
      ghost var kept := store.Contents();
      gone := store.PurgeEnded(now - runRetention.value, limit, now);
      PurgesOnlyPurgeable(kept, now - runRetention.value, limit, gone);
      PurgedRows(kept, gone, now - runRetention.value, now);
      if |gone| < limit {
        PurgeIsComplete(kept, now - runRetention.value, limit, gone, now);
        KeptSince(store.Contents(), now - runRetention.value);
      }
      if |expired| < limit {
        ExpiryIsComplete(before, expired, deletes, now, limit, store.Contents());
        ExpiredSince(store.Contents(), deletes, now);
      }
    }

    /** One tick, unless the breaker is open: the schedules due, the sweeps, the webhooks due, what is to
        be dropped and deleted. A database failure keeps what was committed before it. After a tick none
        of whose batches was full there is nothing left for it to do: no schedule is due, no run is past
        its deadline, overworked, lapsed or overdue, no delivery is due or dead too long, no artifact
        whose blob could be deleted is expired, and no run is to be purged. */
    method Tick(next: Schedules.Calendar, ghost occurs: (Schedules.Timing, Time) -> bool, plan: Plan, draw: string -> real,
                attempts: Held -> Attempt, deletes: string -> bool, now: Time, limit: nat, down: Down, ghost calls: seq<Call>)
      returns (ran: bool, fired: seq<string>, picks: seq<seq<string>>, sent: seq<Held>, dropped: seq<DeliveryId>, expired: seq<string>,
               gone: seq<string>, ghost dbs: seq<Db>)
      requires Schedules.Names(next, occurs) && Mints(plan, store.runs, 0)
      requires DbInv(store.Contents()) && Owned(hooks.Contents()) && breaker.Stands(calls)
      modifies store, hooks, schedules, breaker
      ensures DbInv(store.Contents()) && Owned(hooks.Contents())
      ensures ran <==> LetsThrough(breaker.threshold, breaker.cooldown, calls, now)
      ensures !ran ==>
        && store.Contents() == old(store.Contents()) && hooks.Contents() == old(hooks.Contents())
        && schedules.rows == old(schedules.rows) && breaker.Stands(calls)
      ensures ran ==>
        && breaker.Stands(calls + [Call(now, down.Nowhere?)])
        && FirstOf(Schedules.DueSchedules(old(schedules.rows), now), Schedules.NextAt(old(schedules.rows)), Fires(limit, down), fired)
        && schedules.rows == Schedules.TableAfter(next, old(schedules.rows), fired, plan.fails, now)
        && |dbs| > 0 && dbs[0] == RunsAfter(old(store.Contents()), old(schedules.rows), fired, plan, now)
      ensures ran && down.AtFire? ==> store.Contents() == dbs[0] && hooks.Contents() == old(hooks.Contents())
      ensures ran && !down.AtFire? ==>
        && |picks| == (if down.AtSweep? && down.sweep < 4 then down.sweep else 4)
        && Pass(PassOf(store.service, draw)[..|picks|], dbs, picks, limit, now)
      ensures ran && down.AtSweep? ==>
        && store.Contents() == dbs[|picks|]
        && hooks.Contents() == PassAnnounced(old(hooks.Contents()), PassOf(store.service, draw), dbs, picks, now, |picks|)
      ensures ran && down.AtSettling? ==>
        var box := PassAnnounced(old(hooks.Contents()), PassOf(store.service, draw), dbs, picks, now, 4);
        && store.Contents() == dbs[4] && InOrder(box, sent, now) && |sent| <= limit
        && hooks.Contents() == box.(rows := TakenAll(box.rows, Ids(sent), now))
      ensures ran && (down.Nowhere? || down.AtCleaning?) ==>
        var box := PassAnnounced(old(hooks.Contents()), PassOf(store.service, draw), dbs, picks, now, 4);
        && InOrder(box, sent, now) && |sent| <= limit
        && (forall id :: id in hooks.rows ==> id in box.rows && (id !in Ids(sent) ==> hooks.rows[id] == box.rows[id]))
        && (forall i :: 0 <= i < |sent| && attempts(sent[i]).error.None? ==> sent[i].id !in hooks.rows)
        && (forall id :: id in store.runs ==> id in dbs[4].runs && store.runs[id] == dbs[4].runs[id])
        && store.artifacts == dbs[4].artifacts - (set a | a in expired && deletes(a))
      ensures ran && down.Nowhere? && |fired| < limit && (forall i :: 0 <= i < 4 ==> |picks[i]| < limit)
              && |sent| < limit && |dropped| < limit && |expired| < limit && |gone| < limit ==>
        && (forall id :: id in schedules.rows ==> NotToFire(schedules.rows[id], now))
        && (forall id :: id in store.runs ==> NothingDue(store.runs[id], store.service, now))
        && (forall id :: id in hooks.rows ==> hooks.rows[id].deadAt.Some? || hooks.rows[id].nextAttemptAt > now)
        && NoneDeadSince(hooks.rows, now - deadRetention)
        && NoneExpired(store.artifacts, deletes, now)
        && (runRetention.Some? ==> NoneKeptTooLong(store.Contents(), now - runRetention.value))
    {
      hide DbInv, Swept, Pass, NothingDue, PassAnnounced, RemovedAll, PurgedAll, InOrder, SettledRow, PassOf, TakenAll, Sweeping;
      hide FirstOf, Deleted, DeadBefore, PurgeCandidates, ExpiredArtifacts, DiedAt, ExpiresAt, UpdatedAt, Owned, LetsThrough;
      hide NoneDeadSince, NoneExpired, NoneKeptTooLong, NotToFire;
      hide Schedules.Names, Mints, RunsAfter, Schedules.TableAfter, Schedules.DueSchedules, Schedules.NextAt, Delivery.Due;
      fired, picks, sent, dropped, expired, gone, dbs := [], [], [], [], [], [], [];
      ran := breaker.Allows(now, calls);
      if !ran {
        return;
      }
      fired := schedules.FireAllDue(next, occurs, store, plan, now, Fires(limit, down));
      dbs := [store.Contents()];
      if |fired| < Fires(limit, down) {
        NoneToFire(schedules.rows, now);
      }
      if down.AtFire? {
        breaker.RecordFailure(now, calls);
        return;
      }
      picks, dbs := SweepPass(draw, now, limit, if down.AtSweep? then Some(down.sweep) else None);
      if down.AtSweep? {
        breaker.RecordFailure(now, calls);
        return;
      }
      if down.AtSettling? {
        ghost var box := hooks.Contents();
        sent := hooks.ClaimDue(now, limit);
        HeldAre(box, sent, hooks.rows, now);
        breaker.RecordFailure(now, calls);
        return;
      }
      sent := SendWebhooks(attempts, now, limit);
      AcceptedAreGone(sent, attempts, hooks.rows, now);
      if |sent| < limit {
        NoneToSend(hooks.rows, now);
      }
      dropped, expired, gone := Clean(deletes, now, limit, if down.AtCleaning? then down.steps else 3);
      if down.AtCleaning? {
        breaker.RecordFailure(now, calls);
      } else {
        breaker.RecordSuccess(now, calls);
      }
    }
  }

  /** How many schedules a tick fires at most. */
  function Fires(limit: nat, down: Down): nat {
    if down.AtFire? && down.fires < limit then down.fires else limit
  }

  lemma NothingRemoved(db: Db, deletes: string -> bool, now: Time)
    ensures RemovedAll(db, Deleted([], deletes), now) == db
  {
  }

  lemma HeldAre(box: Box, held: seq<Held>, rows: map<DeliveryId, Delivery>, now: Time)
    requires Owned(box) && Sweeping(box, held, DueIds(box.rows, now) - Ids(held), rows, now)
    ensures InOrder(box, held, now) && rows == TakenAll(box.rows, Ids(held), now) && Owned(Box(box.hooks, rows))
  {
  }

  lemma AcceptedAreGone(sent: seq<Held>, attempts: Held -> Attempt, rows: map<DeliveryId, Delivery>, now: Time)
    requires forall i :: 0 <= i < |sent| ==> SettledRow(sent[i], attempts(sent[i]), rows, now)
    ensures forall i :: 0 <= i < |sent| && attempts(sent[i]).error.None? ==> sent[i].id !in rows
  {
  }

  lemma DropIsComplete(rows: map<DeliveryId, Delivery>, before: Time, limit: nat, dropped: seq<DeliveryId>)
    requires FirstOf(DeadBefore(rows, before), DiedAt(rows), limit, dropped) && |dropped| < limit
    ensures DeadBefore(rows - (set id | id in dropped), before) == {}
  {
  }

  lemma EmptyPass(db: Db, limit: nat, now: Time)
    ensures Pass([], [db], [], limit, now)
  {
  }

  lemma NoneSettled(box: Box, held: seq<Held>, attempts: Held -> Attempt, now: Time)
    ensures Settling(box, held, 0, box.rows, attempts, now)
  {
  }

  lemma SettleSeesRowsOnly(box: Box, held: Held, attempt: Attempt, now: Time)
    ensures AfterSettle(box, held, attempt, now).rows == AfterSettle(Box(map[], box.rows), held, attempt, now).rows
    ensures AfterSettle(box, held, attempt, now).hooks == box.hooks
  {
  }

  lemma AllSettled(before: Box, claimed: Box, held: seq<Held>, rows: map<DeliveryId, Delivery>, attempts: Held -> Attempt, now: Time)
    requires claimed.rows.Keys == before.rows.Keys && Settling(claimed, held, |held|, rows, attempts, now)
    requires forall id :: id in claimed.rows && id !in Ids(held) ==> claimed.rows[id] == before.rows[id]
    ensures forall i :: 0 <= i < |held| ==> SettledRow(held[i], attempts(held[i]), rows, now)
    ensures rows.Keys <= before.rows.Keys
    ensures forall id :: id !in Ids(held) ==>
      (id in rows <==> id in before.rows) && (id in rows ==> rows[id] == before.rows[id])
    ensures Ids(held) == DueIds(before.rows, now) ==> forall id :: id in rows ==> !rows[id].Due(now)
  {
    hide SettledRow;
    assert held[..|held|] == held;
    forall id | id in Ids(held) && id in rows
      ensures !rows[id].Due(now)
    {
      NoneDueAgain(claimed, held, rows, attempts, now, id);
    }
  }
}
