/** Webhook subscriptions and the delivery outbox: what is owed, tried, given up on and dropped. */
module Outbox {
  import opened Domain
  import opened Ordering

  const WEBHOOK_LEASE: Time := 20.0
  const WEBHOOK_ATTEMPTS := 7
  const WEBHOOK_RETRY_BASE: Time := 15.0
  const WEBHOOK_RETRY_CAP: Time := 600.0

  datatype WebhookEvent = PausedEvent | EscalatedEvent | FinishedEvent

  /** What an event id is derived from; the id is taken to be one to one with it. */
  datatype EventKey = EventKey(run: string, attempt: int, status: Status, event: WebhookEvent, assignee: Option<string>)

  /** What a delivery id stands for, one to one. */
  datatype DeliveryId = DeliveryId(event: EventKey, hook: string)

  /** A row of webhooks. */
  datatype Hook = Hook(tenant: string, events: set<WebhookEvent>, secret: string,
                       previous: Option<string>, previousExpiresAt: Option<Time>)

  /** A row of webhook_deliveries. */
  datatype Delivery = Delivery(attempts: int, nextAttemptAt: Time, lastError: Option<string>, deadAt: Option<Time>)
  {
    predicate Dead() {
      deadAt.Some?
    }

    predicate Due(now: Time) {
      !Dead() && nextAttemptAt <= now
    }
  }

  /** A send's result: no error when the receiver took it, else the reason and if a retry may help. */
  datatype Attempt = Attempt(error: Option<string>, retry: bool)

  /** What a ticker holds while it sends: the delivery as it was when claimed. */
  datatype Held = Held(id: DeliveryId, attempts: int, secret: string, previous: Option<string>)

  datatype Box = Box(hooks: map<string, Hook>, rows: map<DeliveryId, Delivery>)

  const EMPTY_BOX := Box(map[], map[])

  // ---------------------------------------------------------------- the operations

  predicate Wanted(box: Box, tenant: string, id: DeliveryId) {
    && id.hook in box.hooks && box.hooks[id.hook].tenant == tenant
    && id.event.event in box.hooks[id.hook].events
  }

  function Owed(now: Time): Delivery {
    Delivery(0, now, None, None)
  }

  /** One row per subscription that wants the event; a row already there stays as it is. */
  function Announced(box: Box, tenant: string, event: EventKey, now: Time): Box {
    var wanting := set h | h in box.hooks && Wanted(box, tenant, DeliveryId(event, h)) :: DeliveryId(event, h);
    box.(rows := (map id | id in wanting :: Owed(now)) + box.rows)
  }

  /** Held for the lease, and counted as attempted. */
  function Taken(d: Delivery, now: Time): Delivery {
    d.(attempts := d.attempts + 1, nextAttemptAt := now + WEBHOOK_LEASE)
  }

  /** After a failed send: back off, or give up. The count is the one the ticker holds. */
  function Failed(d: Delivery, attempts: int, attempt: Attempt, now: Time): Delivery {
    var noted := d.(lastError := attempt.error);
    if attempt.retry && attempts < WEBHOOK_ATTEMPTS then
      noted.(nextAttemptAt := now + Backoff(WEBHOOK_RETRY_BASE, attempts, WEBHOOK_RETRY_CAP))
    else noted.(deadAt := Some(now))
  }

  function AfterSettle(box: Box, held: Held, attempt: Attempt, now: Time): Box {
    if attempt.error.None? then box.(rows := box.rows - {held.id})
    else if held.id in box.rows then
      box.(rows := box.rows[held.id := Failed(box.rows[held.id], held.attempts, attempt, now)])
    else box
  }

  predicate Redeliverable(box: Box, tenant: string, id: DeliveryId) {
    && id in box.rows && box.rows[id].Dead()
    && id.hook in box.hooks && box.hooks[id.hook].tenant == tenant
  }

  /** Pending once more, from the first attempt on. */
  function Revived(d: Delivery, now: Time): Delivery {
    d.(deadAt := None, attempts := 0, nextAttemptAt := now)
  }

  /** Without the hook, nor anything addressed to it. */
  function Unsubscribed(box: Box, hook: string): Box {
    Box(box.hooks - {hook}, map id | id in box.rows && id.hook != hook :: box.rows[id])
  }

  function Rotated(h: Hook, secret: string, overlap: Time, now: Time): Hook {
    h.(previous := Some(h.secret), secret := secret, previousExpiresAt := Some(now + overlap))
  }

  /** The secret a rotation replaced signs too, until it expires. */
  function Hold(box: Box, id: DeliveryId, now: Time): Held
    requires id in box.rows && id.hook in box.hooks
  {
    var h := box.hooks[id.hook];
    var overlapping := h.previousExpiresAt.Some? && h.previousExpiresAt.value > now;
    Held(id, box.rows[id].attempts + 1, h.secret, if overlapping then h.previous else None)
  }

  function DueIds(rows: map<DeliveryId, Delivery>, now: Time): set<DeliveryId> {
    set id | id in rows && rows[id].Due(now)
  }

  function DeadBefore(rows: map<DeliveryId, Delivery>, before: Time): set<DeliveryId> {
    set id | id in rows && rows[id].Dead() && rows[id].deadAt.value < before
  }

  function DiedAt(rows: map<DeliveryId, Delivery>): DeliveryId -> Time {
    id => if id in rows && rows[id].Dead() then rows[id].deadAt.value else 0.0
  }

  /** Every delivery is owed to a subscription that is there. */
  predicate Owned(box: Box) {
    forall id :: id in box.rows ==> id.hook in box.hooks
  }

  function Ids(held: seq<Held>): set<DeliveryId> {
    set h | h in held :: h.id
  }

  function TakenAll(rows: map<DeliveryId, Delivery>, ids: set<DeliveryId>, now: Time): map<DeliveryId, Delivery> {
    map id | id in rows :: if id in ids then Taken(rows[id], now) else rows[id]
  }

  /** What a ticker holds: due deliveries as they stood, none twice, the longest due first. */
  predicate InOrder(box: Box, held: seq<Held>, now: Time) {
    && (forall i :: 0 <= i < |held| ==>
          && held[i].id in box.rows && held[i].id.hook in box.hooks && box.rows[held[i].id].Due(now)
          && held[i] == Hold(box, held[i].id, now))
    && (forall i, j :: 0 <= i < j < |held| ==>
          held[i].id != held[j].id && box.rows[held[i].id].nextAttemptAt <= box.rows[held[j].id].nextAttemptAt)
  }

  /** None of the held is due later than any of the rest. */
  predicate HeldFirst(box: Box, held: seq<Held>, rest: set<DeliveryId>) {
    forall i, id :: 0 <= i < |held| && id in rest && held[i].id in box.rows && id in box.rows ==>
      box.rows[held[i].id].nextAttemptAt <= box.rows[id].nextAttemptAt
  }

  /** A claim sweep under way: `held` so far, `due` still to come, the rows as they are now. */
  predicate Sweeping(box: Box, held: seq<Held>, due: set<DeliveryId>, rows: map<DeliveryId, Delivery>, now: Time) {
    && InOrder(box, held, now) && HeldFirst(box, held, due)
    && Ids(held) <= DueIds(box.rows, now) && due == DueIds(box.rows, now) - Ids(held)
    && rows == TakenAll(box.rows, Ids(held), now)
  }

  lemma NothingHeldYet(box: Box, now: Time)
    ensures Sweeping(box, [], DueIds(box.rows, now), box.rows, now)
  {
    assert Ids([]) == {};
  }

  lemma StillToCome(box: Box, held: seq<Held>, due: set<DeliveryId>, rows: map<DeliveryId, Delivery>, now: Time)
    requires Sweeping(box, held, due, rows, now)
    ensures due <= rows.Keys && forall id :: id in due ==> id in box.rows && rows[id] == box.rows[id] && rows[id].Due(now)
  {
  }

  lemma LongerInOrder(box: Box, held: seq<Held>, rest: set<DeliveryId>, now: Time, id: DeliveryId)
    requires InOrder(box, held, now) && HeldFirst(box, held, rest) && id in rest && id !in Ids(held)
    requires id in box.rows && id.hook in box.hooks && box.rows[id].Due(now)
    requires forall other :: other in rest && other in box.rows ==> box.rows[id].nextAttemptAt <= box.rows[other].nextAttemptAt
    ensures InOrder(box, held + [Hold(box, id, now)], now) && HeldFirst(box, held + [Hold(box, id, now)], rest - {id})
  {
    hide Hold;
    forall i | 0 <= i < |held| ensures held[i].id != id {
      assert held[i] in held;
    }
    assert Hold(box, id, now).id == id by {
      HoldOf(box, id, now);
    }
  }

  lemma HoldOf(box: Box, id: DeliveryId, now: Time)
    requires id in box.rows && id.hook in box.hooks
    ensures Hold(box, id, now).id == id && Hold(box, id, now).attempts == box.rows[id].attempts + 1
  {
  }

  lemma OneMoreHeld(box: Box, held: seq<Held>, due: set<DeliveryId>, rows: map<DeliveryId, Delivery>, now: Time, id: DeliveryId)
    requires Sweeping(box, held, due, rows, now) && id in due && id in rows && id in box.rows && id.hook in box.hooks
    requires forall other :: other in due && other in rows ==> rows[id].nextAttemptAt <= rows[other].nextAttemptAt
    ensures Sweeping(box, held + [Hold(box, id, now)], due - {id}, rows[id := Taken(rows[id], now)], now)
  {
    hide Hold, InOrder, HeldFirst, Taken;
    HoldOf(box, id, now);
    IdsOfLonger(held, Hold(box, id, now));
    StillToCome(box, held, due, rows, now);
    LongerInOrder(box, held, due, now, id);
    var ids := Ids(held + [Hold(box, id, now)]);
    assert ids == Ids(held) + {id};
    assert due - {id} == DueIds(box.rows, now) - ids;
    assert rows[id := Taken(rows[id], now)] == TakenAll(box.rows, ids, now);
  }

  lemma AllHeld(all: set<DeliveryId>, ids: set<DeliveryId>)
    requires ids <= all && all - ids == {}
    ensures ids == all
  {
    assert all == ids + (all - ids);
  }

  lemma IdsOfLonger(held: seq<Held>, more: Held)
    ensures Ids(held + [more]) == Ids(held) + {more.id}
  {
    var longer := held + [more];
    assert longer[|held|] == more;
    assert forall h :: h in longer <==> h in held || h == more;
  }

  // ---------------------------------------------------------------- the store

  class WebhookStore {
    var hooks: map<string, Hook>
    var rows: map<DeliveryId, Delivery>

    function Contents(): Box
      reads this
    {
      Box(hooks, rows)
    }

    constructor ()
      ensures Contents() == EMPTY_BOX
    {
      hooks, rows := map[], map[];
    }

    method Announce(tenant: string, event: EventKey, now: Time)
      modifies this
      ensures Contents() == Announced(old(Contents()), tenant, event, now)
    {
      var wanting := set h | h in hooks && Wanted(Contents(), tenant, DeliveryId(event, h)) :: DeliveryId(event, h);
      rows := (map id | id in wanting :: Owed(now)) + rows;
    }

    /** The deliveries due, the longest due first, at most `limit`: each counted and held. */
    method ClaimDue(now: Time, limit: nat) returns (held: seq<Held>)
      requires Owned(Contents())
      modifies this`rows
      ensures |held| <= limit
      ensures Sweeping(old(Contents()), held, DueIds(old(rows), now) - Ids(held), rows, now)
      ensures |held| < limit ==> Ids(held) == DueIds(old(rows), now)
    {
      hide InOrder, HeldFirst, TakenAll;
      ghost var before := Contents();
      var due := DueIds(rows, now);
      held := [];
      NothingHeldYet(before, now);
      while due != {} && |held| < limit
        invariant |held| <= limit && Sweeping(before, held, due, rows, now)
        decreases due
      {
        StillToCome(before, held, due, rows, now);
        var id := LongestDue(due);
        OneMoreHeld(before, held, due, rows, now, id);
        held := held + [Hold(Contents(), id, now)];
        rows := rows[id := Taken(rows[id], now)];
        due := due - {id};
      }
      if due == {} {
        AllHeld(DueIds(before.rows, now), Ids(held));
      }
    }

    method LongestDue(due: set<DeliveryId>) returns (first: DeliveryId)
      requires due != {} && due <= rows.Keys
      ensures first in due && forall id :: id in due ==> rows[first].nextAttemptAt <= rows[id].nextAttemptAt
    {
      first :| first in due;
      var rest := due - {first};
      while rest != {}
        invariant rest <= due && first in due
        invariant forall id :: id in due - rest ==> rows[first].nextAttemptAt <= rows[id].nextAttemptAt
        decreases rest
      {
        var id :| id in rest;
        if rows[id].nextAttemptAt < rows[first].nextAttemptAt {
          first := id;
        }
        rest := rest - {id};
      }
    }

    /** Answers whether the delivery is dead. */
    method Settle(held: Held, attempt: Attempt, now: Time) returns (died: bool)
      modifies this`rows
      ensures Contents() == AfterSettle(old(Contents()), held, attempt, now)
      ensures died <==> attempt.error.Some? && held.id in rows && rows[held.id].Dead()
    {
      if attempt.error.None? {
        rows := rows - {held.id};
        return false;
      }
      if held.id !in rows {
        return false;
      }
      var row := rows[held.id].(lastError := attempt.error);
      if attempt.retry && held.attempts < WEBHOOK_ATTEMPTS {
        var wait := Backoff(WEBHOOK_RETRY_BASE, held.attempts, WEBHOOK_RETRY_CAP);
        row := row.(nextAttemptAt := now + wait);
      } else {
        row := row.(deadAt := Some(now));
      }
      rows := rows[held.id := row];
      return row.deadAt.Some?;
    }

    method Redeliver(tenant: string, id: DeliveryId, now: Time) returns (refused: Option<Fault>)
      modifies this`rows
      ensures refused.None? <==> Redeliverable(old(Contents()), tenant, id)
      ensures refused == Some(Conflict) <==>
        id in old(rows) && id.hook in hooks && hooks[id.hook].tenant == tenant && !old(rows)[id].Dead()
      ensures refused.None? || refused == Some(Conflict) || refused == Some(NotFound)
      ensures refused.None? ==> rows == old(rows)[id := Revived(old(rows)[id], now)]
      ensures refused.Some? ==> rows == old(rows)
    {
      if id !in rows || id.hook !in hooks || hooks[id.hook].tenant != tenant {
        return Some(NotFound);
      }
      if rows[id].deadAt.None? {
        return Some(Conflict);
      }
      rows := rows[id := rows[id].(deadAt := None, attempts := 0, nextAttemptAt := now)];
      return None;
    }

    /** Unsubscribing takes the hook's pending and dead deliveries along. */
    method Delete(tenant: string, hook: string) returns (refused: Option<Fault>)
      modifies this
      ensures refused.None? <==> hook in old(hooks) && old(hooks)[hook].tenant == tenant
      ensures Contents() == if refused.None? then Unsubscribed(old(Contents()), hook) else old(Contents())
      ensures refused.None? ==>
        && hooks == old(hooks) - {hook}
        && (forall id :: id in rows <==> id in old(rows) && id.hook != hook)
        && (forall id :: id in rows ==> rows[id] == old(rows)[id])
    {
      if hook !in hooks || hooks[hook].tenant != tenant {
        return Some(NotFound);
      }
      hooks := hooks - {hook};
      rows := map id | id in rows && id.hook != hook :: rows[id];
      return None;
    }

    /** The deliveries that died before a moment, the longest dead first, at most `limit`. */
    method DropDead(before: Time, limit: nat) returns (dropped: seq<DeliveryId>)
      modifies this`rows
      ensures FirstOf(DeadBefore(old(rows), before), DiedAt(old(rows)), limit, dropped)
      ensures rows == old(rows) - (set id | id in dropped)
    {
      dropped := OldestFirst(DeadBefore(rows, before), DiedAt(rows), limit);
      rows := rows - (set id | id in dropped);
    }

    method RotateSecret(tenant: string, hook: string, secret: string, overlap: Time, now: Time) returns (refused: Option<Fault>)
      modifies this`hooks
      ensures refused.None? <==> hook in old(hooks) && old(hooks)[hook].tenant == tenant
      ensures refused.None? ==> hooks == old(hooks)[hook := Rotated(old(hooks)[hook], secret, overlap, now)]
      ensures refused.None? ==>
        var was := old(hooks)[hook];
        hooks[hook] == Hook(was.tenant, was.events, secret, Some(was.secret), Some(now + overlap))
      ensures refused.Some? ==> hooks == old(hooks)
    {
      if hook !in hooks || hooks[hook].tenant != tenant {
        return Some(NotFound);
      }
      var h := hooks[hook];
      h := h.(previous := Some(h.secret), secret := secret);
      h := h.(previousExpiresAt := Some(now + overlap));
      hooks := hooks[hook := h];
      return None;
    }
  }

  // ---------------------------------------------------------------- every run of the outbox

  datatype Mail =
    | Subscribe(hook: string, terms: Hook)
    | Unsubscribe(hook: string)
    | Rotate(hook: string, secret: string, overlap: Time)
    | ClaimOne(id: DeliveryId)
    | SettleOne(held: Held, attempt: Attempt)
    | RedeliverOne(tenant: string, id: DeliveryId)
    | DropDead(id: DeliveryId, before: Time)

  function Mailed(box: Box, mail: Mail, now: Time): Box {
    match mail
    case Subscribe(hook, terms) => if hook in box.hooks then box else box.(hooks := box.hooks[hook := terms])
    case Unsubscribe(hook) => Unsubscribed(box, hook)
    case Rotate(hook, secret, overlap) =>
      if hook in box.hooks then box.(hooks := box.hooks[hook := Rotated(box.hooks[hook], secret, overlap, now)]) else box
    case ClaimOne(id) =>
      if id in box.rows && box.rows[id].Due(now) then box.(rows := box.rows[id := Taken(box.rows[id], now)]) else box
    case SettleOne(held, attempt) => AfterSettle(box, held, attempt, now)
    case RedeliverOne(tenant, id) =>
      if Redeliverable(box, tenant, id) then box.(rows := box.rows[id := Revived(box.rows[id], now)]) else box
    case DropDead(id, before) =>
      if id in box.rows && box.rows[id].Dead() && box.rows[id].deadAt.value < before
      then box.(rows := box.rows - {id}) else box
  }

  /** A delivery's ways out of the outbox: an accepted attempt, its subscription's end, or the end of
      its retention after death. */
  predicate LeavesBy(box: Box, mail: Mail, id: DeliveryId) {
    || (mail.SettleOne? && mail.held.id == id && mail.attempt.error.None?)
    || (mail.Unsubscribe? && mail.hook == id.hook)
    || (mail.DropDead? && mail.id == id && id in box.rows && box.rows[id].Dead() && box.rows[id].deadAt.value < mail.before)
  }

  lemma LeavesOnlyBy(box: Box, mail: Mail, now: Time, id: DeliveryId)
    requires id in box.rows && id !in Mailed(box, mail, now).rows
    ensures LeavesBy(box, mail, id)
  {
  }

  lemma RevivedOnlyByRedeliver(box: Box, mail: Mail, now: Time, id: DeliveryId)
    requires id in box.rows && box.rows[id].Dead()
    requires id in Mailed(box, mail, now).rows && !Mailed(box, mail, now).rows[id].Dead()
    ensures mail.RedeliverOne? && mail.id == id && Mailed(box, mail, now).rows[id] == Revived(box.rows[id], now)
  {
  }

  /** No mail step brings a delivery into the outbox: only an announcement does. */
  lemma MailAddsNothing(box: Box, mail: Mail, now: Time)
    ensures Mailed(box, mail, now).rows.Keys <= box.rows.Keys
  {
  }

  // ---------------------------------------------------------------- the life of one delivery

  /** What happens to one delivery: some ticker's claim sweep comes by, or the ticker that holds it
      settles its attempt. */
  datatype Event = Sweep(now: Time) | Outcome(attempt: Attempt, now: Time)

  /** The row; who holds it since when; the failures so far, and the last send's time. */
  datatype Life = Life(row: Delivery, claimedAt: Option<Time>, failures: nat, gone: bool)

  /** Settled within its hold: the ticker that claimed it answers before the hold is over, and no
      event is earlier than the claim. */
  predicate InTime(life: Life, e: Event) {
    && (life.claimedAt.Some? ==> life.claimedAt.value <= e.now < life.claimedAt.value + WEBHOOK_LEASE)
    && (e.Outcome? ==> life.claimedAt.Some?)
  }

  function Lived(life: Life, e: Event): Life
    requires InTime(life, e)
  {
    match e
    case Sweep(now) =>
      if life.row.Due(now) && !life.gone then life.(row := Taken(life.row, now), claimedAt := Some(now)) else life
    case Outcome(attempt, now) =>
      if attempt.error.None? then life.(claimedAt := None, gone := true)
      else life.(row := Failed(life.row, life.row.attempts, attempt, now), claimedAt := None, failures := life.failures + 1)
  }

  ghost predicate InTimeAll(life: Life, events: seq<Event>)
    decreases |events|
  {
    events == [] || (InTime(life, events[0]) && InTimeAll(Lived(life, events[0]), events[1..]))
  }

  function LivedAll(life: Life, events: seq<Event>): Life
    requires InTimeAll(life, events)
    decreases |events|
  {
    if events == [] then life else LivedAll(Lived(life, events[0]), events[1..])
  }

  /** The delivery's life is what the outbox keeps of it. */
  predicate LivesIn(box: Box, id: DeliveryId, life: Life) {
    && (life.gone <==> id !in box.rows)
    && (id in box.rows ==> box.rows[id] == life.row)
  }

  /** A sweep that comes by, and a settle of the attempt the claim counted, do to the outbox what
      they do to the life. */
  lemma LifeIsInTheOutbox(box: Box, id: DeliveryId, life: Life, e: Event, held: Held)
    requires LifeInv(life) && InTime(life, e) && LivesIn(box, id, life)
    requires held.id == id && held.attempts == life.row.attempts
    ensures
      var mail := if e.Sweep? then ClaimOne(id) else SettleOne(held, e.attempt);
      LivesIn(Mailed(box, mail, e.now), id, Lived(life, e))
    ensures e.Sweep? && id in box.rows && id.hook in box.hooks && box.rows[id].Due(e.now) ==>
      Hold(box, id, e.now).attempts == Lived(life, e).row.attempts
  {
  }

  /** The failures among the events, and whether one of them was final. */
  function Failures(events: seq<Event>): nat {
    if events == [] then 0
    else (if events[0].Outcome? && events[0].attempt.error.Some? then 1 else 0) + Failures(events[1..])
  }

  predicate Refused(events: seq<Event>) {
    exists i :: 0 <= i < |events| && events[i].Outcome? && events[i].attempt.error.Some? && !events[i].attempt.retry
  }

  predicate Accepted(events: seq<Event>) {
    exists i :: 0 <= i < |events| && events[i].Outcome? && events[i].attempt.error.None?
  }

  /** Held by one ticker at a time; the count is the failures, and one more while held. */
  predicate LifeInv(life: Life) {
    && (life.gone ==> life.claimedAt.None?)
    && (life.row.Dead() ==> life.claimedAt.None?)
    && (!life.gone && !life.row.Dead() ==>
          && life.failures < WEBHOOK_ATTEMPTS
          && life.row.attempts == life.failures + if life.claimedAt.Some? then 1 else 0)
    && (life.claimedAt.Some? ==> life.row.nextAttemptAt == life.claimedAt.value + WEBHOOK_LEASE)
  }

  /** A sweep by another ticker while it is held passes it over. */
  lemma HeldIsPassedOver(life: Life, now: Time)
    requires LifeInv(life) && life.claimedAt.Some? && InTime(life, Sweep(now))
    ensures Lived(life, Sweep(now)) == life
  {
  }

  /** However many other tickers come by while a ticker holds it, it is the same delivery still. */
  lemma {:induction false} HeldThroughSweeps(life: Life, sweeps: seq<Event>)
    requires LifeInv(life) && life.claimedAt.Some? && InTimeAll(life, sweeps)
    requires forall i :: 0 <= i < |sweeps| ==> sweeps[i].Sweep?
    ensures LivedAll(life, sweeps) == life
    decreases |sweeps|
  {
    if sweeps != [] {
      assert sweeps[0] == Sweep(sweeps[0].now);
      HeldIsPassedOver(life, sweeps[0].now);
      HeldThroughSweeps(life, sweeps[1..]);
    }
  }

  lemma StepOfLife(life: Life, e: Event)
    requires LifeInv(life) && InTime(life, e)
    ensures LifeInv(Lived(life, e))
    ensures life.row.Dead() || life.gone ==> Lived(life, e) == life
    ensures !life.row.Dead() && !life.gone && e.Outcome? && e.attempt.error.Some? ==>
      (Lived(life, e).row.Dead() <==> !e.attempt.retry || life.failures + 1 == WEBHOOK_ATTEMPTS)
    ensures !(e.Outcome? && e.attempt.error.Some?) ==> !life.row.Dead() ==> !Lived(life, e).row.Dead()
  {
  }

  /** From a delivery just written or redelivered, whatever sweeps come by: it is dead exactly once
      a send was refused for good or seven sends have failed, and gone exactly once one was accepted. */
  lemma {:induction false} DiesExactlyWhen(life: Life, events: seq<Event>)
    requires LifeInv(life) && InTimeAll(life, events)
    ensures LifeInv(LivedAll(life, events))
    ensures !life.row.Dead() && !life.gone ==>
      var end := LivedAll(life, events);
      && (end.row.Dead() <==> Refused(events) || life.failures + Failures(events) >= WEBHOOK_ATTEMPTS)
      && (end.gone <==> Accepted(events))
    ensures life.row.Dead() || life.gone ==>
      LivedAll(life, events) == life && Failures(events) == 0 && !Refused(events) && !Accepted(events)
    decreases |events|
  {
    if events != [] {
      var e, rest := events[0], events[1..];
      StepOfLife(life, e);
      DiesExactlyWhen(Lived(life, e), rest);
      assert forall i :: 1 <= i < |events| ==> events[i] == rest[i - 1];
      assert Refused(events) <==> Refused([e]) || Refused(rest) by {
        assert [e][0] == e;
        assert Refused(rest) ==> Refused(events) by {
          if Refused(rest) {
            var i :| 0 <= i < |rest| && rest[i].Outcome? && rest[i].attempt.error.Some? && !rest[i].attempt.retry;
            assert events[i + 1] == rest[i];
          }
        }
      }
      assert Accepted(events) <==> Accepted([e]) || Accepted(rest) by {
        assert [e][0] == e;
        assert Accepted(rest) ==> Accepted(events) by {
          if Accepted(rest) {
            var i :| 0 <= i < |rest| && rest[i].Outcome? && rest[i].attempt.error.None?;
            assert events[i + 1] == rest[i];
          }
        }
      }
      assert [e][0] == e;
    }
  }

  // ---------------------------------------------------------------- the waits

  /** The wait after the `n`-th failure. */
  function WaitAfter(n: int): Time {
    Backoff(WEBHOOK_RETRY_BASE, n, WEBHOOK_RETRY_CAP)
  }

  function TotalWait(n: nat): Time {
    if n == 0 then 0.0 else TotalWait(n - 1) + WaitAfter(n)
  }

  lemma WaitsSumTo945()
    ensures TotalWait(WEBHOOK_ATTEMPTS - 1) == 945.0
    ensures WaitAfter(1) == 15.0 && WaitAfter(2) == 30.0 && WaitAfter(3) == 60.0
    ensures WaitAfter(4) == 120.0 && WaitAfter(5) == 240.0 && WaitAfter(6) == 480.0
  {
    assert Pow2(1) == 2 && Pow2(2) == 4 && Pow2(3) == 8 && Pow2(4) == 16 && Pow2(5) == 32;
    assert TotalWait(1) == 15.0;
    assert TotalWait(2) == 45.0;
    assert TotalWait(3) == 105.0;
    assert TotalWait(4) == 225.0;
    assert TotalWait(5) == 465.0;
    assert TotalWait(6) == TotalWait(5) + WaitAfter(6);
  }

  /** No sooner than the waits allow: with `f` failures behind it, a delivery first due at `t0` is
      not due, nor held, before `t0` and the first `f` waits have passed. */
  predicate Paced(life: Life, t0: Time) {
    life.row.Dead() || life.gone ||
    (if life.claimedAt.Some? then life.claimedAt.value >= t0 + TotalWait(life.failures)
     else life.row.nextAttemptAt >= t0 + TotalWait(life.failures))
  }

  lemma PacedStep(life: Life, e: Event, t0: Time)
    requires LifeInv(life) && InTime(life, e) && Paced(life, t0)
    ensures Paced(Lived(life, e), t0)
    ensures !life.row.Dead() && !life.gone && e.Outcome? ==> e.now >= t0 + TotalWait(life.failures)
  {
    StepOfLife(life, e);
  }

  /** A delivery that seven failed sends kill has been tried over at least 945 seconds. */
  lemma {:induction false} SeventhFailureComesLate(life: Life, events: seq<Event>, t0: Time)
    requires LifeInv(life) && Paced(life, t0) && InTimeAll(life, events) && !life.row.Dead() && !life.gone
    requires LivedAll(life, events).row.Dead() && !Refused(events)
    ensures LivedAll(life, events).row.deadAt.value >= t0 + 945.0
    decreases |events|
  {
    if events == [] {
      assert false;
    } else {
      var e, rest := events[0], events[1..];
      StepOfLife(life, e);
      PacedStep(life, e, t0);
      assert forall i :: 0 <= i < |rest| ==> rest[i] == events[i + 1];
      assert !Refused(rest);
      var next := Lived(life, e);
      if next.row.Dead() {
        assert events[0] == e;
        assert e.attempt.retry;
        WaitsSumTo945();
        DiesExactlyWhen(next, rest);
      } else if next.gone {
        DiesExactlyWhen(next, rest);
      } else {
        SeventhFailureComesLate(next, rest, t0);
      }
    }
  }

  // ---------------------------------------------------------------- how a delivery begins

  /** Nothing tried yet. */
  function Untried(row: Delivery): Life {
    Life(row, None, 0, false)
  }

  /** A delivery that an announcement brought into the outbox, or that was dead and was asked for again,
      is due at that moment with all seven attempts before it. */
  lemma BeginsUntried(before: Box, after: Box, id: DeliveryId, tenant: string, now: Time)
    requires id in after.rows
    requires
      || (id !in before.rows && after == Announced(before, tenant, id.event, now))
      || (id in before.rows && before.rows[id].Dead() && after == Mailed(before, RedeliverOne(tenant, id), now)
          && id.hook in before.hooks && before.hooks[id.hook].tenant == tenant)
    ensures !after.rows[id].Dead() && after.rows[id].nextAttemptAt == now && after.rows[id].attempts == 0
    ensures LifeInv(Untried(after.rows[id])) && Paced(Untried(after.rows[id]), now)
    ensures forall t :: after.rows[id].Due(t) <==> t >= now
  {
  }

  /** Due is what is neither dead nor waiting; and a sweep that finds it so holds it for twenty seconds as
      the next attempt. */
  lemma SweepTakesWhatIsDue(life: Life, now: Time)
    requires InTime(life, Sweep(now)) && !life.gone
    ensures
      var after := Lived(life, Sweep(now));
      if life.row.deadAt.None? && life.row.nextAttemptAt <= now
      then && after.claimedAt == Some(now)
           && after.row == life.row.(attempts := life.row.attempts + 1, nextAttemptAt := now + 20.0)
      else after == life
  {
  }

  /** What is dropped has been dead since before the moment, the longest dead first; unless the batch was
      full nothing is left that has. */
  lemma DroppedAre(rows: map<DeliveryId, Delivery>, before: Time, limit: nat, dropped: seq<DeliveryId>)
    requires FirstOf(DeadBefore(rows, before), DiedAt(rows), limit, dropped)
    ensures forall i :: 0 <= i < |dropped| ==>
      dropped[i] in rows && rows[dropped[i]].deadAt.Some? && rows[dropped[i]].deadAt.value < before
    ensures forall i, j :: 0 <= i < j < |dropped| && dropped[i] in rows && dropped[j] in rows
                           && rows[dropped[i]].deadAt.Some? && rows[dropped[j]].deadAt.Some? ==>
      rows[dropped[i]].deadAt.value <= rows[dropped[j]].deadAt.value
    ensures |dropped| < limit ==>
      forall id :: id in rows && rows[id].deadAt.Some? && rows[id].deadAt.value < before ==> id in dropped
  {
    forall i, j | 0 <= i < j < |dropped|
      ensures DiedAt(rows)(dropped[i]) <= DiedAt(rows)(dropped[j])
    {
    }
    forall id | id in rows && rows[id].deadAt.Some? && rows[id].deadAt.value < before
      ensures id in DeadBefore(rows, before)
    {
    }
  }

  /** From there, whatever sweeps come by, it dies exactly of the first final refusal or of the seventh
      failure, is gone exactly once accepted, and if only failures killed it, not before 945 s. */
  lemma DeliveryFromItsStart(before: Box, after: Box, id: DeliveryId, tenant: string, now: Time, events: seq<Event>)
    requires id in after.rows
    requires
      || (id !in before.rows && after == Announced(before, tenant, id.event, now))
      || (id in before.rows && before.rows[id].Dead() && after == Mailed(before, RedeliverOne(tenant, id), now)
          && id.hook in before.hooks && before.hooks[id.hook].tenant == tenant)
    requires InTimeAll(Untried(after.rows[id]), events)
    ensures
      var end := LivedAll(Untried(after.rows[id]), events);
      && (end.row.Dead() <==> Refused(events) || Failures(events) >= 7)
      && (end.gone <==> Accepted(events))
      && (end.row.Dead() && !Refused(events) ==> end.row.deadAt.value >= now + 945.0)
  {
    hide Announced, Mailed, LifeInv, Paced, LivedAll, InTimeAll;
    BeginsUntried(before, after, id, tenant, now);
    var life := Untried(after.rows[id]);
    DiesExactlyWhen(life, events);
    if LivedAll(life, events).row.Dead() && !Refused(events) {
      SeventhFailureComesLate(life, events, now);
    }
  }
}
