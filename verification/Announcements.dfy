/** Which event each run change announces, and why the outbox's primary key never swallows one. */
module Announcements {
  import opened Domain
  import opened Transitions
  import opened Database
  import opened Invariants
  import opened Lifecycle
  import opened Outbox

  predicate BySweep(verb: Verb) {
    verb.TimeOutPastDeadline? || verb.TimeOutOverworked? || verb.RequeueLapsed? || verb.EscalateOverdue?
  }

  /** The event a change calls for: by the new status, save that a PAUSED row a sweep touched means an
      escalation. */
  function EventOf(r: Run, verb: Verb): Option<WebhookEvent> {
    if r.status.Paused? then Some(if BySweep(verb) then EscalatedEvent else PausedEvent)
    else if r.status.Final() then Some(FinishedEvent)
    else None
  }

  function KeyOf(id: string, r: Run, event: WebhookEvent): EventKey {
    EventKey(id, r.attempt, r.status, event, if r.awaiting.Some? then r.awaiting.value.assignee else None)
  }

  /** A claim and a heartbeat announce nothing; every other change announces what its run's new
      status does, in the same transaction. */
  function Announcement(db: Db, a: Action): Option<EventKey> {
    if !a.step.OnRun? || !Touches(db, a, a.step.id) || a.step.verb.Claim? || a.step.verb.Heartbeat? then None
    else
      var r := Reply(db, a.step.id, a.step.tenant, a.step.verb, a.now).run;
      var event := EventOf(r, a.step.verb);
      if event.None? then None else Some(KeyOf(a.step.id, r, event.value))
  }

  // ---------------------------------------------------------------- what is announced

  /** What became of a run between two of its rows: it ended, it began to wait, or what it waits on went
      to someone else. Nothing else is an event. */
  function Happened(id: string, r: Run, after: Run): Option<EventKey> {
    if after.status.Final() && !r.status.Final() then
      Some(EventKey(id, after.attempt, after.status, FinishedEvent, None))
    else if after.status.Paused? && !r.status.Paused? && after.awaiting.Some? then
      Some(EventKey(id, after.attempt, Paused, PausedEvent, after.awaiting.value.assignee))
    else if after.status.Paused? && after.awaiting.Some? && after.awaiting != r.awaiting then
      Some(EventKey(id, after.attempt, Paused, EscalatedEvent, after.awaiting.value.assignee))
    else None
  }

  lemma ChangeAnnounces(db: Db, id: string, r: Run, verb: Verb, now: Time)
    requires RowInv(r) && VerbVerdict(db, r, verb, now).Changed?
    requires verb.Finish? ==> verb.ending.status.Final()
    ensures
      var after := VerbVerdict(db, r, verb, now).run;
      var event := EventOf(after, verb);
      Happened(id, r, after) ==
        if verb.Claim? || verb.Heartbeat? || event.None? then None else Some(KeyOf(id, after, event.value))
  {
  }

  /** Every operation announces exactly what happened to a run, told from its rows before and after: each
      ending and each pause, with the attempt and status it was at, each escalation, and nothing else. */
  lemma AnnouncesWhatHappened(db: Db, a: Action, id: string)
    requires DbInv(db) && id in db.runs && id in Next(db, a).runs
    ensures
      var said := Announcement(db, a);
      Happened(id, db.runs[id], Next(db, a).runs[id]) == if said.Some? && said.value.run == id then said else None
  {
    hide Next;
    RowAfter(db, a, id);
    if Touches(db, a, id) {
      Touched(db, a, id);
      ChangeAnnounces(db, id, db.runs[id], a.step.verb, a.now);
    } else {
      AnnouncesOnlyItsRun(db, a, id);
    }
  }

  lemma AnnouncesOnlyItsRun(db: Db, a: Action, id: string)
    requires !Touches(db, a, id)
    ensures Announcement(db, a).Some? ==> Announcement(db, a).value.run != id
  {
  }

  /** An escalation goes to the one the question names for it. */
  lemma EscalatedTo(db: Db, a: Action, id: string)
    requires DbInv(db) && id in db.runs && id in Next(db, a).runs
    requires Announcement(db, a).Some? && Announcement(db, a).value.run == id && Announcement(db, a).value.event.EscalatedEvent?
    ensures db.runs[id].awaiting.Some? && Announcement(db, a).value.assignee == db.runs[id].awaiting.value.escalateTo
  {
    hide Next;
    RowAfter(db, a, id);
    AnnouncesWhatHappened(db, a, id);
    if Touches(db, a, id) {
      Touched(db, a, id);
      OnlyTheSweepEscalates(db, db.runs[id], a.step.verb, a.now);
    }
  }

  lemma OnlyTheSweepEscalates(db: Db, r: Run, verb: Verb, now: Time)
    requires RowInv(r) && VerbVerdict(db, r, verb, now).Changed?
    requires verb.Finish? ==> verb.ending.status.Final()
    ensures
      var after := VerbVerdict(db, r, verb, now).run;
      r.status.Paused? && after.status.Paused? ==>
        after.awaiting.Some? && r.awaiting.Some? && after.awaiting.value.assignee == r.awaiting.value.escalateTo
  {
  }

  // ---------------------------------------------------------------- no two events alike

  /** An event marks the passing of one point of one attempt. */
  function Mark(key: EventKey): int {
    5 * key.attempt + match key.event
      case PausedEvent => 2
      case EscalatedEvent => 3
      case FinishedEvent => 4
  }

  lemma ChangePassesMark(db: Db, id: string, r: Run, verb: Verb, now: Time)
    requires RowInv(r) && VerbVerdict(db, r, verb, now).Changed? && !verb.Claim? && !verb.Heartbeat?
    requires verb.Finish? ==> verb.ending.status.Final()
    ensures
      var after := VerbVerdict(db, r, verb, now).run;
      EventOf(after, verb).Some? ==>
        Rank(r) < Mark(KeyOf(id, after, EventOf(after, verb).value)) <= Rank(after)
  {
  }

  lemma AnnouncementPassesMark(db: Db, a: Action, key: EventKey)
    requires DbInv(db) && Announcement(db, a) == Some(key)
    ensures key.run in db.runs && key.run in Next(db, a).runs
    ensures Rank(db.runs[key.run]) < Mark(key) <= Rank(Next(db, a).runs[key.run])
  {
    hide Next;
    var id := a.step.id;
    Touched(db, a, id);
    ChangePassesMark(db, id, db.runs[id], a.step.verb, a.now);
  }

  /** No two announcements in one life of a run share an event id: at most one pause an attempt,
      one escalation a pause, one ending a run. */
  lemma NoEventTwice(trace: seq<Action>, i: nat, j: nat, one: EventKey, other: EventKey)
    requires i < j < |trace|
    requires Announcement(After(trace, i), trace[i]) == Some(one)
    requires Announcement(After(trace, j), trace[j]) == Some(other)
    requires one.run == other.run && Alive(trace, one.run, i, j)
    ensures one != other && Mark(one) < Mark(other)
  {
    hide Next, Announcement;
    Reachable(trace, i);
    Reachable(trace, j);
    AnnouncementPassesMark(After(trace, i), trace[i], one);
    AnnouncementPassesMark(After(trace, j), trace[j], other);
    assert Alive(trace, one.run, i + 1, j);
    RankNeverFalls(trace, one.run, i + 1, j);
  }

  // ---------------------------------------------------------------- the outbox along a trace

  function MailedAll(box: Box, mails: seq<(Mail, Time)>): Box
    decreases |mails|
  {
    if mails == [] then box else MailedAll(Mailed(box, mails[0].0, mails[0].1), mails[1..])
  }

  function Announcing(box: Box, db: Db, a: Action): Box {
    var key := Announcement(db, a);
    if key.None? then box else Announced(box, db.runs[key.value.run].tenant, key.value, a.now)
  }

  /** The outbox when `n` operations have been done, `mails[k]` being what the tickers, tenants and
      receivers did to it before the `k`-th of them. */
  function BoxAt(trace: seq<Action>, mails: seq<seq<(Mail, Time)>>, n: nat): Box
    requires n <= |trace| && |mails| == |trace| + 1
  {
    if n == 0 then MailedAll(EMPTY_BOX, mails[0])
    else MailedAll(Announcing(BoxAt(trace, mails, n - 1), After(trace, n - 1), trace[n - 1]), mails[n])
  }

  lemma {:induction false} MailsAddNothing(box: Box, mails: seq<(Mail, Time)>)
    ensures MailedAll(box, mails).rows.Keys <= box.rows.Keys
    decreases |mails|
  {
    if mails != [] {
      MailAddsNothing(box, mails[0].0, mails[0].1);
      MailsAddNothing(Mailed(box, mails[0].0, mails[0].1), mails[1..]);
    }
  }

  lemma AnnouncingAddsOnly(box: Box, db: Db, a: Action, id: DeliveryId)
    requires id in Announcing(box, db, a).rows && id !in box.rows
    ensures Announcement(db, a) == Some(id.event)
  {
    hide Next, Announcement;
  }

  /** Every delivery in the outbox carries an event some operation announced. */
  lemma {:induction false} DeliveriesWereAnnounced(trace: seq<Action>, mails: seq<seq<(Mail, Time)>>, n: nat, id: DeliveryId)
    returns (k: nat)
    requires n <= |trace| && |mails| == |trace| + 1
    requires id in BoxAt(trace, mails, n).rows
    ensures k < n && Announcement(After(trace, k), trace[k]) == Some(id.event)
  {
    hide Next, Announcement;
    if n == 0 {
      MailsAddNothing(EMPTY_BOX, mails[0]);
      assert false;
    } else {
      var before, db, a := BoxAt(trace, mails, n - 1), After(trace, n - 1), trace[n - 1];
      MailsAddNothing(Announcing(before, db, a), mails[n]);
      assert id in Announcing(before, db, a).rows;
      if id in before.rows {
        k := DeliveriesWereAnnounced(trace, mails, n - 1, id);
      } else {
        AnnouncingAddsOnly(before, db, a, id);
        k := n - 1;
      }
    }
  }

  // ---------------------------------------------------------------- the ways out, over every run

  /** The outbox in the midst of what was done to it before the `k`-th operation, `m` mails in. */
  function BoxWithin(trace: seq<Action>, mails: seq<seq<(Mail, Time)>>, k: nat, m: nat): Box
    requires k <= |trace| && |mails| == |trace| + 1 && m <= |mails[k]|
  {
    MailedAll(if k == 0 then EMPTY_BOX else Announcing(BoxAt(trace, mails, k - 1), After(trace, k - 1), trace[k - 1]),
              mails[k][..m])
  }

  lemma MailedFirst(box: Box, mails: seq<(Mail, Time)>, m: nat)
    requires 0 < m <= |mails|
    ensures MailedAll(box, mails[..m]) == MailedAll(Mailed(box, mails[0].0, mails[0].1), mails[1..][..m - 1])
  {
    hide Mailed;
    assert mails[..m][1..] == mails[1..][..m - 1];
  }

  lemma {:induction false} MailThatRemoves(box: Box, mails: seq<(Mail, Time)>, id: DeliveryId) returns (m: nat)
    requires id in box.rows && id !in MailedAll(box, mails).rows
    ensures m < |mails| && id in MailedAll(box, mails[..m]).rows && LeavesBy(MailedAll(box, mails[..m]), mails[m].0, id)
    decreases |mails|
  {
    hide Mailed, LeavesBy;
    var next := Mailed(box, mails[0].0, mails[0].1);
    if id !in next.rows {
      m := 0;
      LeavesOnlyBy(box, mails[0].0, mails[0].1, id);
      assert mails[..0] == [];
    } else {
      var k := MailThatRemoves(next, mails[1..], id);
      m := k + 1;
      MailedFirst(box, mails, m);
    }
  }

  lemma AnnouncingKeepsRows(box: Box, db: Db, a: Action, id: DeliveryId)
    requires id in box.rows
    ensures id in Announcing(box, db, a).rows && Announcing(box, db, a).rows[id] == box.rows[id]
  {
    hide Announcement;
  }

  /** In every run of the service, with however many tickers and stale settles: a delivery that was in
      the outbox and is no more left it by an accepted attempt, with its subscription, or at the end
      of its retention after death. */
  lemma {:induction false} LeavesTheOutbox(trace: seq<Action>, mails: seq<seq<(Mail, Time)>>, i: nat, j: nat, id: DeliveryId)
    returns (k: nat, m: nat)
    requires i <= j <= |trace| && |mails| == |trace| + 1
    requires id in BoxAt(trace, mails, i).rows && id !in BoxAt(trace, mails, j).rows
    ensures i < k <= j && m < |mails[k]|
    ensures LeavesBy(BoxWithin(trace, mails, k, m), mails[k][m].0, id)
    decreases j
  {
    hide After, Announcement, LeavesBy;
    var before := BoxAt(trace, mails, j - 1);
    if id !in before.rows {
      k, m := LeavesTheOutbox(trace, mails, i, j - 1, id);
    } else {
      AnnouncingKeepsRows(before, After(trace, j - 1), trace[j - 1], id);
      k := j;
      m := MailThatRemoves(Announcing(before, After(trace, j - 1), trace[j - 1]), mails[j], id);
    }
  }

  /** The delivery is there, given up on. */
  predicate DeadIn(box: Box, id: DeliveryId) {
    id in box.rows && box.rows[id].Dead()
  }

  predicate Redelivers(mail: Mail, id: DeliveryId) {
    mail.RedeliverOne? && mail.id == id
  }

  lemma {:induction false} MailThatRevives(box: Box, mails: seq<(Mail, Time)>, id: DeliveryId) returns (m: nat)
    requires DeadIn(box, id) && !DeadIn(MailedAll(box, mails), id)
    ensures m < |mails| && (Redelivers(mails[m].0, id) || LeavesBy(MailedAll(box, mails[..m]), mails[m].0, id))
    decreases |mails|
  {
    hide Mailed, LeavesBy;
    var next := Mailed(box, mails[0].0, mails[0].1);
    if DeadIn(next, id) {
      var k := MailThatRevives(next, mails[1..], id);
      m := k + 1;
      MailedFirst(box, mails, m);
    } else {
      m := 0;
      assert mails[..0] == [];
      if id in next.rows {
        RevivedOnlyByRedeliver(box, mails[0].0, mails[0].1, id);
      } else {
        LeavesOnlyBy(box, mails[0].0, mails[0].1, id);
      }
    }
  }

  /** In every run: a delivery given up on stays so until someone asks for it again, or it leaves. */
  lemma {:induction false} DeadUntilRedelivered(trace: seq<Action>, mails: seq<seq<(Mail, Time)>>, i: nat, j: nat, id: DeliveryId)
    returns (k: nat, m: nat)
    requires i <= j <= |trace| && |mails| == |trace| + 1
    requires DeadIn(BoxAt(trace, mails, i), id) && !DeadIn(BoxAt(trace, mails, j), id)
    ensures i < k <= j && m < |mails[k]|
    ensures Redelivers(mails[k][m].0, id) || LeavesBy(BoxWithin(trace, mails, k, m), mails[k][m].0, id)
    decreases j
  {
    hide After, Announcement, LeavesBy;
    var before := BoxAt(trace, mails, j - 1);
    if !DeadIn(before, id) {
      k, m := DeadUntilRedelivered(trace, mails, i, j - 1, id);
    } else {
      AnnouncingKeepsRows(before, After(trace, j - 1), trace[j - 1], id);
      k := j;
      m := MailThatRevives(Announcing(before, After(trace, j - 1), trace[j - 1]), mails[j], id);
    }
  }

  // ---------------------------------------------------------------- no event is swallowed

  /** The run's id has not been used before: once there, the run has stayed. */
  ghost predicate FirstLife(trace: seq<Action>, id: string, n: nat)
    requires n <= |trace|
  {
    forall k :: 0 <= k <= n && id in After(trace, k).runs ==> Alive(trace, id, k, n)
  }

  /** The tenant's subscription wants such events. */
  predicate Subscribed(box: Box, tenant: string, hook: string, event: WebhookEvent) {
    hook in box.hooks && box.hooks[hook].tenant == tenant && event in box.hooks[hook].events
  }

  /** Conflict-do-nothing never swallows an event of a run in its first life: when the `n`-th
      operation announces it, no delivery of it is in the outbox yet, and afterwards there is
      exactly one, untried and due at once, per wanting subscription of its tenant. */
  lemma EveryEventIsOwed(trace: seq<Action>, mails: seq<seq<(Mail, Time)>>, n: nat, key: EventKey)
    requires n < |trace| && |mails| == |trace| + 1
    requires Announcement(After(trace, n), trace[n]) == Some(key) && FirstLife(trace, key.run, n)
    ensures key.run in After(trace, n).runs
    ensures
      var tenant := After(trace, n).runs[key.run].tenant;
      var before := BoxAt(trace, mails, n);
      var after := Announcing(before, After(trace, n), trace[n]);
      forall hook ::
        var id := DeliveryId(key, hook);
        && id !in before.rows
        && (id in after.rows <==> Subscribed(before, tenant, hook, key.event))
        && (id in after.rows ==> after.rows[id] == Delivery(0, trace[n].now, None, None))
  {
    hide Next, Announcement;
    Reachable(trace, n);
    AnnouncementPassesMark(After(trace, n), trace[n], key);
    forall hook ensures DeliveryId(key, hook) !in BoxAt(trace, mails, n).rows {
      if DeliveryId(key, hook) in BoxAt(trace, mails, n).rows {
        var k := DeliveriesWereAnnounced(trace, mails, n, DeliveryId(key, hook));
        Reachable(trace, k);
        AnnouncementPassesMark(After(trace, k), trace[k], key);
        assert Alive(trace, key.run, k, n);
        NoEventTwice(trace, k, n, key, key);
      }
    }
    OwedToAllWhoWant(BoxAt(trace, mails, n), After(trace, n).runs[key.run].tenant, key, trace[n].now);
  }

  /** So in its first life a run's every ending, pause and escalation is owed, as soon as it happens, once
      to each subscription of its tenant that wants such events. */
  lemma WhatHappensIsOwed(trace: seq<Action>, mails: seq<seq<(Mail, Time)>>, n: nat, id: string)
    requires n < |trace| && |mails| == |trace| + 1 && FirstLife(trace, id, n)
    requires id in After(trace, n).runs && id in After(trace, n + 1).runs
    requires Happened(id, After(trace, n).runs[id], After(trace, n + 1).runs[id]).Some?
    ensures
      var r := After(trace, n).runs[id];
      var key := Happened(id, r, After(trace, n + 1).runs[id]).value;
      var before := BoxAt(trace, mails, n);
      var after := Announcing(before, After(trace, n), trace[n]);
      forall hook ::
        && DeliveryId(key, hook) !in before.rows
        && (DeliveryId(key, hook) in after.rows <==> Subscribed(before, r.tenant, hook, key.event))
        && (DeliveryId(key, hook) in after.rows ==> after.rows[DeliveryId(key, hook)] == Delivery(0, trace[n].now, None, None))
  {
    hide Next, Announcement, Announcing, Happened;
    Reachable(trace, n);
    assert After(trace, n + 1) == Next(After(trace, n), trace[n]);
    AnnouncesWhatHappened(After(trace, n), trace[n], id);
    EveryEventIsOwed(trace, mails, n, Announcement(After(trace, n), trace[n]).value);
  }

  lemma OwedToAllWhoWant(box: Box, tenant: string, key: EventKey, now: Time)
    requires forall hook :: DeliveryId(key, hook) !in box.rows
    ensures forall hook ::
              var id := DeliveryId(key, hook);
              && (id in Announced(box, tenant, key, now).rows <==> Subscribed(box, tenant, hook, key.event))
              && (id in Announced(box, tenant, key, now).rows ==> Announced(box, tenant, key, now).rows[id] == Delivery(0, now, None, None))
  {
  }

  // ---------------------------------------------------------------- an id used again

  /** An announcement is swallowed, whole, exactly when its deliveries are in the outbox already. */
  lemma SwallowedIff(box: Box, tenant: string, key: EventKey, now: Time)
    ensures Announced(box, tenant, key, now) == box <==>
      forall hook :: hook in box.hooks && Wanted(box, tenant, DeliveryId(key, hook)) ==> DeliveryId(key, hook) in box.rows
  {
    var after := Announced(box, tenant, key, now);
    if forall hook :: hook in box.hooks && Wanted(box, tenant, DeliveryId(key, hook)) ==> DeliveryId(key, hook) in box.rows {
      assert after.rows == box.rows;
    } else {
      var hook :| hook in box.hooks && Wanted(box, tenant, DeliveryId(key, hook)) && DeliveryId(key, hook) !in box.rows;
      assert DeliveryId(key, hook) in after.rows;
    }
  }

  /** The same event was announced in an earlier life of the run's id. */
  ghost predicate FromEarlierLife(trace: seq<Action>, n: nat, key: EventKey)
    requires n <= |trace|
  {
    exists k :: 0 <= k < n && Announcement(After(trace, k), trace[k]) == Some(key) && !Alive(trace, key.run, k, n)
  }

  lemma KeptAsItIs(box: Box, tenant: string, key: EventKey, now: Time, hook: string)
    ensures
      var id, after := DeliveryId(key, hook), Announced(box, tenant, key, now);
      && (id in box.rows ==> id in after.rows && after.rows[id] == box.rows[id])
      && (id !in box.rows ==> (id in after.rows <==> Wanted(box, tenant, id)))
      && (id !in box.rows && id in after.rows ==> after.rows[id] == Owed(now))
  {
  }

  /** For every run and every history of its id: a subscription that wants an announced event is newly
      owed it exactly when no delivery of an earlier life's like event is still in the outbox; if one
      is, that one stays as it was and the new event is lost to it. */
  lemma LostOnlyToEarlierLives(trace: seq<Action>, mails: seq<seq<(Mail, Time)>>, n: nat, key: EventKey, hook: string)
    requires n < |trace| && |mails| == |trace| + 1
    requires Announcement(After(trace, n), trace[n]) == Some(key) && key.run in After(trace, n).runs
    requires Subscribed(BoxAt(trace, mails, n), After(trace, n).runs[key.run].tenant, hook, key.event)
    ensures
      var id, before := DeliveryId(key, hook), BoxAt(trace, mails, n);
      var after := Announcing(before, After(trace, n), trace[n]);
      && id in after.rows
      && (id !in before.rows ==> after.rows[id] == Delivery(0, trace[n].now, None, None))
      && (id in before.rows ==> after.rows[id] == before.rows[id] && FromEarlierLife(trace, n, key))
  {
    hide Next, Announcement, Announced;
    var id, before := DeliveryId(key, hook), BoxAt(trace, mails, n);
    KeptAsItIs(before, After(trace, n).runs[key.run].tenant, key, trace[n].now, hook);
    if id in before.rows {
      var k := DeliveriesWereAnnounced(trace, mails, n, id);
      if Alive(trace, key.run, k, n) {
        NoEventTwice(trace, k, n, key, key);
      }
      assert FromEarlierLife(trace, n, key);
    }
  }

  const START_X := Action(Start("x", "t", Asked("a", None, None, 0, None, ""), None, false), 0.0)
  const FINISH_X := Action(OnRun("x", Some("t"), Finish(Ending(Success, None, None), None, 0.0)), 1.0)
  const PURGE_X := Action(Purge("x", 2.0), 3.0)
  const FINISHED_X := EventKey("x", 1, Success, FinishedEvent, None)

  lemma StartedFinishedPurged()
    ensures
      var started := Next(EMPTY, START_X);
      && Announcement(EMPTY, START_X).None?
      && Announcement(started, FINISH_X) == Some(FINISHED_X)
      && "x" in started.runs && started.runs["x"].tenant == "t"
      && Announcement(Next(started, FINISH_X), PURGE_X).None?
      && Next(Next(started, FINISH_X), PURGE_X) == EMPTY
  {
    var started := Next(EMPTY, START_X);
    assert started.runs["x"] == Started("t", START_X.step.asked, None, false, 0.0);
    assert Purgeable(Next(started, FINISH_X), "x", 2.0);
  }

  const HOOK_H := Hook("t", {FinishedEvent}, "s", None, None)
  const LIFE_TWICE := [START_X, FINISH_X, PURGE_X, START_X, FINISH_X]
  /** The subscription is made before anything else; its receiver never accepts anything. */
  const MAILS := [[(Subscribe("h", HOOK_H), 0.0)], [], [], [], [], []]
  const OWED_H := DeliveryId(FINISHED_X, "h")

  lemma SubscribedAtFirst()
    ensures BoxAt(LIFE_TWICE, MAILS, 0) == Box(map["h" := HOOK_H], map[])
  {
    var first := MAILS[0];
    assert first[0] == (Subscribe("h", HOOK_H), 0.0) && first[1..] == [];
    assert MailedAll(EMPTY_BOX, first) == MailedAll(Mailed(EMPTY_BOX, first[0].0, first[0].1), []);
  }

  lemma NoMail(box: Box, k: nat)
    requires 0 < k < |MAILS|
    ensures MailedAll(box, MAILS[k]) == box
  {
    assert MAILS[k] == [];
  }

  lemma OwedOnce(box: Box, now: Time)
    requires box.hooks == map["h" := HOOK_H]
    ensures OWED_H in Announced(box, "t", FINISHED_X, now).rows && Announced(box, "t", FINISHED_X, now).hooks == box.hooks
    ensures OWED_H in box.rows ==> Announced(box, "t", FINISHED_X, now) == box
  {
    assert Wanted(box, "t", DeliveryId(FINISHED_X, "h"));
    SwallowedIff(box, "t", FINISHED_X, now);
  }

  lemma TwoLives()
    ensures
      var trace := LIFE_TWICE;
      && Announcement(After(trace, 0), trace[0]).None? && Announcement(After(trace, 2), trace[2]).None?
      && Announcement(After(trace, 3), trace[3]).None?
      && Announcement(After(trace, 1), trace[1]) == Announcement(After(trace, 4), trace[4]) == Some(FINISHED_X)
      && "x" in After(trace, 1).runs && After(trace, 1).runs["x"].tenant == "t"
      && "x" in After(trace, 4).runs && After(trace, 4).runs["x"].tenant == "t"
  {
    hide Next, Announcement;
    var trace := LIFE_TWICE;
    StartedFinishedPurged();
    assert After(trace, 1) == Next(After(trace, 0), trace[0]);
    assert After(trace, 2) == Next(After(trace, 1), trace[1]);
    assert After(trace, 3) == Next(After(trace, 2), trace[2]) == EMPTY;
    assert After(trace, 4) == Next(After(trace, 3), trace[3]);
  }

  /** The run's life is what the uniqueness is about. A run ends, and its receiver does not take the
      event yet; the run is purged, and its id used again. The second run's ending is announced under
      the very same id, adds nothing to the outbox, and is lost. */
  lemma ReusedIdLosesItsEvent()
    ensures
      var trace := LIFE_TWICE;
      && |MAILS| == |trace| + 1
      && Announcement(After(trace, 1), trace[1]) == Announcement(After(trace, 4), trace[4]) == Some(FINISHED_X)
      && Wanted(BoxAt(trace, MAILS, 4), "t", OWED_H) && OWED_H in BoxAt(trace, MAILS, 4).rows
      && Announcing(BoxAt(trace, MAILS, 4), After(trace, 4), trace[4]) == BoxAt(trace, MAILS, 4)
  {
    hide Next, Announcement, Announced, MailedAll, After;
    var trace := LIFE_TWICE;
    TwoLives();
    SubscribedAtFirst();
    NoMail(Announcing(BoxAt(trace, MAILS, 0), After(trace, 0), trace[0]), 1);
    var one := BoxAt(trace, MAILS, 1);
    assert one == BoxAt(trace, MAILS, 0);
    NoMail(Announcing(one, After(trace, 1), trace[1]), 2);
    var two := BoxAt(trace, MAILS, 2);
    OwedOnce(one, trace[1].now);
    assert two == Announced(one, "t", FINISHED_X, trace[1].now);
    NoMail(Announcing(two, After(trace, 2), trace[2]), 3);
    assert BoxAt(trace, MAILS, 3) == two;
    NoMail(Announcing(two, After(trace, 3), trace[3]), 4);
    assert BoxAt(trace, MAILS, 4) == two;
    OwedOnce(two, trace[4].now);
    assert Wanted(two, "t", OWED_H);
  }
}
