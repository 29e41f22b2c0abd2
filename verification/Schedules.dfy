/** Schedules: the clock of an unattended loop, which only ever moves forward past now. */
module Schedules {
  import opened Domain

  const MAX_CONSECUTIVE_FAILURES := 3
  const FIRE_RETRY_BASE: Time := 300.0
  const FIRE_RETRY_CAP: Time := 3600.0
  const MAX_FIRE_SKEW: Time := 60.0

  /** A cadence and the zone it is in. */
  datatype Timing = Timing(cadence: string, zone: string)

  /** The first instant a cadence fires strictly after another; None for `manual`. */
  type Calendar = (Timing, Time) -> Option<Time>

  /** The calendar names the least occurrence after an instant. */
  ghost predicate Names(next: Calendar, occurs: (Timing, Time) -> bool) {
    && (forall c, t :: next(c, t).Some? ==>
          && next(c, t).value > t && occurs(c, next(c, t).value))
    && (forall c, t, o :: occurs(c, o) && o > t ==> next(c, t).Some? && next(c, t).value <= o)
  }

  /** A row of agent_schedules, as far as firing goes. */
  datatype Schedule = Schedule(timing: Timing, enabled: bool, nextFireAt: Option<Time>, lastFiredAt: Option<Time>,
                               failures: int, retryAfter: Option<Time>)

  // ---------------------------------------------------------------- what each operation does

  function Armed(next: Calendar, s: Schedule, after: Time): Schedule {
    s.(nextFireAt := next(s.timing, after))
  }

  /** An occurrence merely late, not yet superseded by another, is kept. */
  predicate StillOwed(next: Calendar, s: Schedule, at: Time) {
    && s.nextFireAt.Some?
    && (|| s.nextFireAt.value > at
        || (next(s.timing, s.nextFireAt.value).Some? && next(s.timing, s.nextFireAt.value).value > at))
  }

  function Rearmed(next: Calendar, s: Schedule, at: Time): Schedule {
    if StillOwed(next, s, at) then s else Armed(next, s, at)
  }

  function Created(next: Calendar, timing: Timing, enabled: bool, now: Time): Schedule {
    Armed(next, Schedule(timing, enabled, None, None, 0, None), now)
  }

  function Updated(next: Calendar, s: Schedule, timing: Timing, enabled: bool, now: Time): Schedule {
    var retimed := timing != s.timing;
    var reEnabled := enabled && !s.enabled;
    var applied := s.(timing := timing, enabled := enabled);
    var armed := if retimed then Armed(next, applied, now) else if reEnabled then Rearmed(next, applied, now) else applied;
    if reEnabled then armed.(failures := 0, retryAfter := None) else armed
  }

  /** The row with the columns written that differ between two readings of it. */
  function Merged(s: Schedule, seen: Schedule, made: Schedule): Schedule {
    Schedule(
      Timing(if made.timing.cadence != seen.timing.cadence then made.timing.cadence else s.timing.cadence,
             if made.timing.zone != seen.timing.zone then made.timing.zone else s.timing.zone),
      if made.enabled != seen.enabled then made.enabled else s.enabled,
      if made.nextFireAt != seen.nextFireAt then made.nextFireAt else s.nextFireAt,
      if made.lastFiredAt != seen.lastFiredAt then made.lastFiredAt else s.lastFiredAt,
      if made.failures != seen.failures then made.failures else s.failures,
      if made.retryAfter != seen.retryAfter then made.retryAfter else s.retryAfter)
  }

  function Succeeded(next: Calendar, s: Schedule, fireTime: Time, now: Time): Schedule {
    Armed(next, s.(lastFiredAt := Some(fireTime), failures := 0, retryAfter := None), Later(fireTime, now))
  }

  function Failing(s: Schedule, retryable: bool, now: Time): Schedule {
    var counted := s.(failures := s.failures + 1);
    if !retryable || counted.failures >= MAX_CONSECUTIVE_FAILURES then counted.(enabled := false, retryAfter := None)
    else counted.(retryAfter := Some(now + Backoff(FIRE_RETRY_BASE, counted.failures, FIRE_RETRY_CAP)))
  }

  /** How queueing the run went. */
  datatype Queueing = Queued | NotQueued(retryable: bool)

  function Fired(next: Calendar, s: Schedule, fireTime: Time, queueing: Queueing, now: Time): Schedule {
    if queueing.Queued? then Succeeded(next, s, fireTime, now) else Failing(s, queueing.retryable, now)
  }

  /** A schedule the ticker fires: enabled, due, and not backing off. */
  predicate IsDue(s: Schedule, now: Time) {
    && s.enabled
    && s.nextFireAt.Some? && s.nextFireAt.value <= now
    && (s.retryAfter.None? || s.retryAfter.value <= now)
  }

  /** The tick a manual fire is for. */
  function FireTime(s: Schedule, at: Option<Time>, now: Time): Time {
    if at.Some? then at.value
    else if s.nextFireAt.Some? && s.nextFireAt.value <= now then s.nextFireAt.value
    else now
  }

  predicate MayFire(s: Schedule, at: Option<Time>, now: Time) {
    s.enabled && (at.None? || at.value <= now + MAX_FIRE_SKEW)
  }

  // ---------------------------------------------------------------- the row, changed in place

  class ScheduleRow {
    var timing: Timing
    var enabled: bool
    var nextFireAt: Option<Time>
    var lastFiredAt: Option<Time>
    var failures: int
    var retryAfter: Option<Time>

    function Value(): Schedule
      reads this
    {
      Schedule(timing, enabled, nextFireAt, lastFiredAt, failures, retryAfter)
    }

    constructor (next: Calendar, timing: Timing, enabled: bool, now: Time)
      ensures Value() == Created(next, timing, enabled, now)
    {
      this.timing, this.enabled := timing, enabled;
      lastFiredAt, failures, retryAfter := None, 0, None;
      nextFireAt := next(timing, now);
    }

    /** A row as it is stored. */
    constructor Load(s: Schedule)
      ensures Value() == s
    {
      timing, enabled, nextFireAt, lastFiredAt, failures, retryAfter := s.timing, s.enabled, s.nextFireAt, s.lastFiredAt, s.failures, s.retryAfter;
    }

    method Arm(next: Calendar, after: Time)
      modifies this
      ensures Value() == Armed(next, old(Value()), after)
    {
      nextFireAt := next(timing, after);
    }

    method Rearm(next: Calendar, at: Time)
      modifies this
      ensures Value() == Rearmed(next, old(Value()), at)
    {
      var pending := nextFireAt;
      if pending.Some? {
        var following := next(timing, pending.value);
        if pending.value > at || (following.Some? && following.value > at) {
          return;
        }
      }
      Arm(next, at);
    }

    method Update(next: Calendar, timing: Timing, enabled: bool, now: Time)
      modifies this
      ensures Value() == Updated(next, old(Value()), timing, enabled, now)
    {
      var retimed := timing != this.timing;
      var reEnabled := enabled && !this.enabled;
      this.timing, this.enabled := timing, enabled;
      if retimed {
        Arm(next, now);
      } else if reEnabled {
        Rearm(next, now);
      }
      if reEnabled {
        failures := 0;
        retryAfter := None;
      }
    }

    /** An update's write, which takes no lock before: of what it makes of the row it read, the columns
        that differ from what it read. */
    method Write(next: Calendar, seen: Schedule, timing: Timing, enabled: bool, readAt: Time)
      modifies this
      ensures Value() == Merged(old(Value()), seen, Updated(next, seen, timing, enabled, readAt))
    {
      var copy := new ScheduleRow.Load(seen);
      copy.Update(next, timing, enabled, readAt);
      if copy.timing.cadence != seen.timing.cadence {
        this.timing := this.timing.(cadence := copy.timing.cadence);
      }
      if copy.timing.zone != seen.timing.zone {
        this.timing := this.timing.(zone := copy.timing.zone);
      }
      if copy.enabled != seen.enabled {
        this.enabled := copy.enabled;
      }
      if copy.nextFireAt != seen.nextFireAt {
        nextFireAt := copy.nextFireAt;
      }
      if copy.failures != seen.failures {
        failures := copy.failures;
      }
      if copy.retryAfter != seen.retryAfter {
        retryAfter := copy.retryAfter;
      }
    }

    method RecordSuccess(next: Calendar, fireTime: Time, now: Time)
      modifies this
      ensures Value() == Succeeded(next, old(Value()), fireTime, now)
    {
      lastFiredAt := Some(fireTime);
      failures := 0;
      retryAfter := None;
      Arm(next, Later(fireTime, now));
    }

    method RecordFailure(retryable: bool, now: Time)
      modifies this
      ensures Value() == Failing(old(Value()), retryable, now)
    {
      failures := failures + 1;
      if !retryable || failures >= MAX_CONSECUTIVE_FAILURES {
        enabled := false;
        retryAfter := None;
      } else {
        var wait := Backoff(FIRE_RETRY_BASE, failures, FIRE_RETRY_CAP);
        retryAfter := Some(now + wait);
      }
    }

    /** A fire someone asks for, answering the tick it was for; None when it is refused. */
    method Fire(next: Calendar, at: Option<Time>, queueing: Queueing, now: Time) returns (firing: Option<Time>)
      modifies this
      ensures firing.Some? <==> MayFire(old(Value()), at, now)
      ensures firing.Some? ==> firing.value == FireTime(old(Value()), at, now)
      ensures Value() == if firing.Some? then Fired(next, old(Value()), firing.value, queueing, now) else old(Value())
    {
      if !enabled {
        return None;
      }
      if at.Some? && at.value > now + MAX_FIRE_SKEW {
        return None;
      }
      var due := nextFireAt;
      var fireTime := if at.Some? then at.value else if due.Some? && due.value <= now then due.value else now;
      if queueing.Queued? {
        RecordSuccess(next, fireTime, now);
      } else {
        RecordFailure(queueing.retryable, now);
      }
      return Some(fireTime);
    }

    /** The ticker's fire, for the schedule's own tick. */
    method FireDue(next: Calendar, queueing: Queueing, now: Time) returns (firing: Option<Time>)
      modifies this
      ensures firing.Some? <==> IsDue(old(Value()), now)
      ensures firing.Some? ==> firing == old(nextFireAt)
      ensures Value() == if firing.Some? then Fired(next, old(Value()), firing.value, queueing, now) else old(Value())
    {
      if !(enabled && nextFireAt.Some? && nextFireAt.value <= now && (retryAfter.None? || retryAfter.value <= now)) {
        return None;
      }
      var fireTime := nextFireAt.value;
      if queueing.Queued? {
        RecordSuccess(next, fireTime, now);
      } else {
        RecordFailure(queueing.retryable, now);
      }
      return Some(fireTime);
    }
  }

  // ---------------------------------------------------------------- every history of a schedule

  datatype Op =
    | Update(timing: Timing, enabled: bool)
    | Fire(at: Option<Time>, queueing: Queueing)
    | FireDue(queueing: Queueing)

  datatype Act = Act(op: Op, now: Time)

  function Next(next: Calendar, s: Schedule, a: Act): Schedule {
    match a.op
    case Update(timing, enabled) => Updated(next, s, timing, enabled, a.now)
    case Fire(at, queueing) =>
      if MayFire(s, at, a.now) then Fired(next, s, FireTime(s, at, a.now), queueing, a.now) else s
    case FireDue(queueing) =>
      if IsDue(s, a.now) then Fired(next, s, s.nextFireAt.value, queueing, a.now) else s
  }

  /** The schedule after the first `n` acts since it was made. */
  function After(next: Calendar, made: Schedule, acts: seq<Act>, n: nat): Schedule
    requires n <= |acts|
  {
    if n == 0 then made else Next(next, After(next, made, acts, n - 1), acts[n - 1])
  }

  ghost predicate InOrder(acts: seq<Act>) {
    forall i, j :: 0 <= i <= j < |acts| ==> acts[i].now <= acts[j].now
  }

  /** The clock moves only to instants past now; it never goes back to one already passed. */
  lemma OnlyForwardPastNow(next: Calendar, occurs: (Timing, Time) -> bool, s: Schedule, a: Act)
    requires Names(next, occurs)
    ensures
      var after := Next(next, s, a).nextFireAt;
      after == s.nextFireAt || after.None? || after.value > a.now
  {
  }

  /** Over any history: where the clock stands later it stood already, or it is past every moment up to
      then, so no tick that was passed comes back. */
  lemma {:induction false} PassedTicksStayPassed(next: Calendar, occurs: (Timing, Time) -> bool, made: Schedule, acts: seq<Act>, i: nat, j: nat)
    requires Names(next, occurs) && InOrder(acts) && i < j <= |acts|
    ensures
      var before, after := After(next, made, acts, i).nextFireAt, After(next, made, acts, j).nextFireAt;
      after == before || after.None? || after.value > acts[i].now
    decreases j
  {
    hide Next, Names;
    if i < j - 1 {
      PassedTicksStayPassed(next, occurs, made, acts, i, j - 1);
    }
    OnlyForwardPastNow(next, occurs, After(next, made, acts, j - 1), acts[j - 1]);
  }

  /** A resume leaves a future occurrence, or the last one before now that nothing superseded. */
  lemma RearmOwesAtMostOne(next: Calendar, occurs: (Timing, Time) -> bool, s: Schedule, at: Time)
    requires Names(next, occurs)
    requires s.nextFireAt.Some? ==> occurs(s.timing, s.nextFireAt.value)
    ensures
      var after := Rearmed(next, s, at).nextFireAt;
      after.Some? && after.value <= at ==>
        && after == s.nextFireAt
        && forall o :: occurs(s.timing, o) && o <= at ==> o <= after.value
  {
  }

  /** And it keeps the one that stood exactly when that is still to come, or is late while the cadence goes
      on and nothing has come after it yet. */
  lemma RearmKeepsIff(next: Calendar, occurs: (Timing, Time) -> bool, s: Schedule, at: Time)
    requires Names(next, occurs) && s.nextFireAt.Some?
    ensures
      var stood := s.nextFireAt.value;
      Rearmed(next, s, at).nextFireAt == s.nextFireAt <==>
        || stood > at
        || ((exists o :: occurs(s.timing, o) && o > stood) && forall o :: occurs(s.timing, o) && o > stood ==> o > at)
  {
    var stood := s.nextFireAt.value;
    var following := next(s.timing, stood);
    if exists o :: occurs(s.timing, o) && o > stood {
      var o :| occurs(s.timing, o) && o > stood;
      assert following.Some? && occurs(s.timing, following.value);
    }
  }

  // ---------------------------------------------------------------- what each act does

  /** The clock stands at the first occurrence after `t`, or nowhere if there is none. */
  ghost predicate StandsAfter(occurs: (Timing, Time) -> bool, s: Schedule, t: Time) {
    && (s.nextFireAt.Some? ==>
          && s.nextFireAt.value > t && occurs(s.timing, s.nextFireAt.value)
          && forall o :: occurs(s.timing, o) && o > t ==> s.nextFireAt.value <= o)
    && (s.nextFireAt.None? ==> forall o :: occurs(s.timing, o) ==> o <= t)
  }

  /** A new schedule stands before its first tick, with nothing fired and nothing failed. */
  lemma CreatedStands(next: Calendar, occurs: (Timing, Time) -> bool, timing: Timing, enabled: bool, now: Time)
    requires Names(next, occurs)
    ensures
      var s := Created(next, timing, enabled, now);
      && s.timing == timing && s.enabled == enabled && s.lastFiredAt.None? && s.failures == 0 && s.retryAfter.None?
      && StandsAfter(occurs, s, now)
  {
  }

  /** A fire by hand is refused while the schedule is paused or for an instant over a minute ahead; it is
      for the instant named, else for the tick that is due, else for now. */
  lemma FireEffect(next: Calendar, occurs: (Timing, Time) -> bool, s: Schedule, at: Option<Time>, queueing: Queueing, now: Time)
    requires Names(next, occurs)
    ensures
      var after := Next(next, s, Act(Fire(at, queueing), now));
      var due := s.nextFireAt.Some? && s.nextFireAt.value <= now;
      var tick := if at.Some? then at.value else if due then s.nextFireAt.value else now;
      if !s.enabled || (at.Some? && at.value > now + 60.0) then after == s
      else if queueing.Queued? then FiredFor(occurs, s, after, tick, now)
      else FailedToFire(s, after, queueing.retryable, now)
  {
    FailureWaits(s, queueing, now);
  }

  /** The ticker's is made exactly while the schedule is enabled, due, and past its last failure's wait; it
      is for the tick that is due. */
  lemma FireDueEffect(next: Calendar, occurs: (Timing, Time) -> bool, s: Schedule, queueing: Queueing, now: Time)
    requires Names(next, occurs)
    ensures
      var after := Next(next, s, Act(FireDue(queueing), now));
      if !(s.enabled && s.nextFireAt.Some? && s.nextFireAt.value <= now && (s.retryAfter.Some? ==> s.retryAfter.value <= now)) then after == s
      else if queueing.Queued? then FiredFor(occurs, s, after, s.nextFireAt.value, now)
      else FailedToFire(s, after, queueing.retryable, now)
  {
    FailureWaits(s, queueing, now);
  }

  /** Fired for the tick: no failure counts any more, and the clock stands after the later of the tick and
      now. */
  ghost predicate FiredFor(occurs: (Timing, Time) -> bool, s: Schedule, after: Schedule, tick: Time, now: Time) {
    && after.lastFiredAt == Some(tick) && after.failures == 0 && after.retryAfter.None?
    && after.enabled == s.enabled && after.timing == s.timing
    && StandsAfter(occurs, after, if tick >= now then tick else now)
  }

  /** One failure more, the tick still owed: paused if the failure is permanent or the third in a row, else
      to be tried again in five minutes, ten the second time. */
  predicate FailedToFire(s: Schedule, after: Schedule, retryable: bool, now: Time) {
    && after.failures == s.failures + 1 && after.nextFireAt == s.nextFireAt && after.lastFiredAt == s.lastFiredAt && after.timing == s.timing
    && if !retryable || s.failures >= 2 then !after.enabled && after.retryAfter.None?
       else after.enabled == s.enabled && (s.failures == 0 ==> after.retryAfter == Some(now + 300.0))
            && (s.failures == 1 ==> after.retryAfter == Some(now + 600.0))
  }

  lemma FailureWaits(s: Schedule, queueing: Queueing, now: Time)
    ensures queueing.NotQueued? ==> FailedToFire(s, Failing(s, queueing.retryable, now), queueing.retryable, now)
  {
    assert Pow2(0) == 1 && Pow2(1) == 2;
  }

  /** An update under the row's lock: cadence and pause as sent. A new cadence sets the clock after now; a
      resume clears the failures and keeps or sets the clock; nothing else touches either. */
  lemma UpdateEffect(next: Calendar, occurs: (Timing, Time) -> bool, s: Schedule, timing: Timing, enabled: bool, now: Time)
    requires Names(next, occurs)
    ensures
      var after := Next(next, s, Act(Update(timing, enabled), now));
      var resumed := enabled && !s.enabled;
      && after.timing == timing && after.enabled == enabled && after.lastFiredAt == s.lastFiredAt
      && (timing != s.timing ==> StandsAfter(occurs, after, now))
      && (timing == s.timing && !resumed ==> after.nextFireAt == s.nextFireAt)
      && (timing == s.timing && resumed ==> after.nextFireAt == s.nextFireAt || StandsAfter(occurs, after, now))
      && after.failures == (if resumed then 0 else s.failures)
      && after.retryAfter == (if resumed then None else s.retryAfter)
  {
  }

  // ---------------------------------------------------------------- fewer than three failures

  predicate StrikesInv(s: Schedule) {
    0 <= s.failures && (s.enabled ==> s.failures < MAX_CONSECUTIVE_FAILURES)
  }

  lemma {:induction false} EnabledHasStrikesLeft(next: Calendar, timing: Timing, enabled: bool, made: Time, acts: seq<Act>, n: nat)
    requires n <= |acts|
    ensures StrikesInv(After(next, Created(next, timing, enabled, made), acts, n))
  {
    if n > 0 {
      EnabledHasStrikesLeft(next, timing, enabled, made, acts, n - 1);
      StrikesKept(next, After(next, Created(next, timing, enabled, made), acts, n - 1), acts[n - 1]);
    }
  }

  lemma StrikesKept(next: Calendar, s: Schedule, a: Act)
    requires StrikesInv(s)
    ensures StrikesInv(Next(next, s, a))
  {
  }

  // ---------------------------------------------------------------- the ticker's fires

  /** The `k`-th act is a fire of the ticker's that queued a run. */
  predicate TickerFiredAt(next: Calendar, made: Schedule, acts: seq<Act>, k: nat)
    requires k < |acts|
  {
    && acts[k].op.FireDue? && acts[k].op.queueing.Queued?
    && IsDue(After(next, made, acts, k), acts[k].now)
  }

  function FireTimeAt(next: Calendar, made: Schedule, acts: seq<Act>, k: nat): Time
    requires k < |acts| && TickerFiredAt(next, made, acts, k)
  {
    After(next, made, acts, k).nextFireAt.value
  }

  /** The clock stands past `t`, or nowhere. */
  predicate Past(s: Schedule, t: Time) {
    s.nextFireAt.Some? ==> s.nextFireAt.value > t
  }

  lemma PastStaysPast(next: Calendar, occurs: (Timing, Time) -> bool, s: Schedule, a: Act, t: Time)
    requires Names(next, occurs) && Past(s, t) && t <= a.now
    ensures Past(Next(next, s, a), t)
  {
  }

  lemma FirePasses(next: Calendar, occurs: (Timing, Time) -> bool, made: Schedule, acts: seq<Act>, k: nat)
    requires Names(next, occurs) && k < |acts| && TickerFiredAt(next, made, acts, k)
    ensures FireTimeAt(next, made, acts, k) <= acts[k].now
    ensures Past(After(next, made, acts, k + 1), acts[k].now)
  {
  }

  lemma {:induction false} PastFrom(next: Calendar, occurs: (Timing, Time) -> bool, made: Schedule, acts: seq<Act>, i: nat, j: nat, t: Time)
    requires Names(next, occurs) && InOrder(acts) && i < j <= |acts|
    requires Past(After(next, made, acts, i + 1), t) && t <= acts[i].now
    ensures Past(After(next, made, acts, j), t)
    decreases j
  {
    hide Next, Names;
    if j > i + 1 {
      PastFrom(next, occurs, made, acts, i, j - 1, t);
      PastStaysPast(next, occurs, After(next, made, acts, j - 1), acts[j - 1], t);
    }
  }

  /** Whatever is fired by hand, fails, pauses, resumes or changes its cadence in between: the
      ticker's fires of one schedule have strictly increasing fire times, each later than the moment
      of the one before. */
  lemma FireTimesIncrease(next: Calendar, occurs: (Timing, Time) -> bool, made: Schedule, acts: seq<Act>, i: nat, j: nat)
    requires Names(next, occurs) && InOrder(acts) && i < j < |acts|
    requires TickerFiredAt(next, made, acts, i) && TickerFiredAt(next, made, acts, j)
    ensures FireTimeAt(next, made, acts, i) <= acts[i].now < FireTimeAt(next, made, acts, j)
  {
    hide Next, Names;
    FirePasses(next, occurs, made, acts, i);
    PastFrom(next, occurs, made, acts, i, j, acts[i].now);
  }

  // ---------------------------------------------------------------- no backlog

  /** The fire times of the ticker's fires made between two moments, in order. */
  function FiresWithin(next: Calendar, made: Schedule, acts: seq<Act>, n: nat, from: Time, to: Time): seq<Time>
    requires n <= |acts|
  {
    if n == 0 then []
    else
      FiresWithin(next, made, acts, n - 1, from, to)
      + if TickerFiredAt(next, made, acts, n - 1) && from <= acts[n - 1].now <= to
        then [FireTimeAt(next, made, acts, n - 1)] else []
  }

  /** The cadence is never changed. */
  predicate Steady(timing: Timing, acts: seq<Act>) {
    forall i :: 0 <= i < |acts| ==> acts[i].op.Update? ==> acts[i].op.timing == timing
  }

  predicate OnTime(occurs: (Timing, Time) -> bool, s: Schedule) {
    s.nextFireAt.Some? ==> occurs(s.timing, s.nextFireAt.value)
  }

  lemma OnTimeKept(next: Calendar, occurs: (Timing, Time) -> bool, s: Schedule, a: Act)
    requires Names(next, occurs) && OnTime(occurs, s)
    ensures OnTime(occurs, Next(next, s, a))
    ensures a.op.Update? ==> Next(next, s, a).timing == a.op.timing
    ensures !a.op.Update? ==> Next(next, s, a).timing == s.timing
  {
  }

  /** All fires in the window but the first are for occurrences within it, in increasing order. */
  ghost predicate WithinWindow(occurs: (Timing, Time) -> bool, timing: Timing, fires: seq<Time>, from: Time, to: Time) {
    && (forall i :: 1 <= i < |fires| ==> from < fires[i] <= to && occurs(timing, fires[i]))
    && (forall i, j :: 0 <= i < j < |fires| ==> fires[i] < fires[j])
  }

  lemma NoFires(occurs: (Timing, Time) -> bool, timing: Timing, from: Time, to: Time)
    ensures WithinWindow(occurs, timing, [], from, to)
  {
  }

  lemma OneMoreFire(occurs: (Timing, Time) -> bool, timing: Timing, fires: seq<Time>, t: Time, from: Time, to: Time)
    requires WithinWindow(occurs, timing, fires, from, to)
    requires fires != [] ==> fires[|fires| - 1] < t && from < t <= to && occurs(timing, t)
    ensures WithinWindow(occurs, timing, fires + [t], from, to)
  {
  }

  /** What the fires so far leave behind: a clock past the window's start and past the last fire. */
  predicate LeftBehind(s: Schedule, fires: seq<Time>, from: Time, clock: Time) {
    fires != [] ==>
      && Past(s, from) && Past(s, fires[|fires| - 1])
      && fires[|fires| - 1] <= clock && from <= clock
  }

  lemma LeftBehindStays(next: Calendar, occurs: (Timing, Time) -> bool, s: Schedule, a: Act, fires: seq<Time>, from: Time, clock: Time)
    requires Names(next, occurs) && LeftBehind(s, fires, from, clock) && clock <= a.now
    ensures LeftBehind(Next(next, s, a), fires, from, a.now)
  {
    hide Next, Names;
    if fires != [] {
      PastStaysPast(next, occurs, s, a, from);
      PastStaysPast(next, occurs, s, a, fires[|fires| - 1]);
    }
  }

  lemma {:induction false} FiresAreOccurrences(next: Calendar, occurs: (Timing, Time) -> bool, made: Schedule, acts: seq<Act>, n: nat, from: Time, to: Time)
    requires Names(next, occurs) && InOrder(acts) && n <= |acts| && OnTime(occurs, made) && Steady(made.timing, acts)
    ensures
      var fires, s := FiresWithin(next, made, acts, n, from, to), After(next, made, acts, n);
      && OnTime(occurs, s) && s.timing == made.timing
      && WithinWindow(occurs, made.timing, fires, from, to)
      && (n == 0 ==> fires == [])
      && (n > 0 ==> LeftBehind(s, fires, from, acts[n - 1].now))
  {
    hide Next, Names, WithinWindow;
    if n == 0 {
      NoFires(occurs, made.timing, from, to);
    } else {
      FiresAreOccurrences(next, occurs, made, acts, n - 1, from, to);
      var s, a := After(next, made, acts, n - 1), acts[n - 1];
      var fires := FiresWithin(next, made, acts, n - 1, from, to);
      OnTimeKept(next, occurs, s, a);
      LeftBehindStays(next, occurs, s, a, fires, from, if n == 1 then a.now else acts[n - 2].now);
      if TickerFiredAt(next, made, acts, n - 1) && from <= a.now <= to {
        FirePasses(next, occurs, made, acts, n - 1);
        OneMoreFire(occurs, made.timing, fires, FireTimeAt(next, made, acts, n - 1), from, to);
      } else {
        assert FiresWithin(next, made, acts, n, from, to) == fires;
      }
    }
  }

  lemma {:induction false} IncreasingFits(fires: seq<Time>, occurrences: set<Time>)
    requires forall i :: 0 <= i < |fires| ==> fires[i] in occurrences
    requires forall i, j :: 0 <= i < j < |fires| ==> fires[i] < fires[j]
    ensures |fires| <= |occurrences|
  {
    if fires != [] {
      var last := fires[|fires| - 1];
      IncreasingFits(fires[..|fires| - 1], occurrences - {last});
    }
  }

  /** No backlog: with a fixed cadence, however long the ticker was down, its fires in any window are
      at most one more than the cadence's occurrences in it. */
  lemma NoBacklog(next: Calendar, occurs: (Timing, Time) -> bool, timing: Timing, enabled: bool, made: Time,
                  acts: seq<Act>, from: Time, to: Time, occurrences: set<Time>)
    requires Names(next, occurs) && InOrder(acts) && Steady(timing, acts)
    requires forall o :: occurs(timing, o) && from < o <= to ==> o in occurrences
    ensures |FiresWithin(next, Created(next, timing, enabled, made), acts, |acts|, from, to)| <= 1 + |occurrences|
  {
    var first := Created(next, timing, enabled, made);
    FiresAreOccurrences(next, occurs, first, acts, |acts|, from, to);
    var fires := FiresWithin(next, first, acts, |acts|, from, to);
    if fires != [] {
      IncreasingFits(fires[1..], occurrences);
    }
  }

  // ---------------------------------------------------------------- an update that raced

  /** An update whose row nothing changed between its read and its write is one act, as above. */
  lemma UnracedUpdate(next: Calendar, s: Schedule, timing: Timing, enabled: bool, now: Time)
    ensures Merged(s, s, Updated(next, s, timing, enabled, now)) == Updated(next, s, timing, enabled, now)
  {
  }

  /** Otherwise it leaves a schedule enabled with its strikes used up exactly when it re-enables what it
      read as paused without a failure, and by its write three have come: it has no count to clear. */
  lemma StrikesAfterWrite(next: Calendar, s: Schedule, seen: Schedule, timing: Timing, enabled: bool, readAt: Time)
    requires StrikesInv(s) && StrikesInv(seen)
    ensures StrikesInv(Merged(s, seen, Updated(next, seen, timing, enabled, readAt))) <==>
      !(enabled && !seen.enabled && seen.failures == 0 && s.failures >= MAX_CONSECUTIVE_FAILURES)
  {
  }

  /** Does the update arm the clock anew? */
  predicate ArmsAnew(next: Calendar, seen: Schedule, timing: Timing, enabled: bool, readAt: Time) {
    || timing != seen.timing
    || (enabled && !seen.enabled && !StillOwed(next, seen.(timing := timing, enabled := enabled), readAt))
  }

  /** And it takes a clock past `t` back to a tick up to `t` exactly when it arms anew and the first
      occurrence after its read, not the one it read, is one up to `t`. So no tick passed before the
      read comes back; one passed between the read and the write may. */
  lemma ClockAfterWrite(next: Calendar, occurs: (Timing, Time) -> bool, s: Schedule, seen: Schedule, timing: Timing, enabled: bool,
                        readAt: Time, t: Time)
    requires Names(next, occurs) && Past(s, t)
    ensures
      var armed := next(timing, readAt);
      Past(Merged(s, seen, Updated(next, seen, timing, enabled, readAt)), t) <==>
        !(ArmsAnew(next, seen, timing, enabled, readAt) && armed != seen.nextFireAt && armed.Some? && armed.value <= t)
    ensures t <= readAt ==> Past(Merged(s, seen, Updated(next, seen, timing, enabled, readAt)), t)
  {
  }

  const STRIKE := Act(Fire(None, NotQueued(true)), 4.0)

  lemma ThreeStrikes(next: Calendar, s: Schedule)
    requires s.enabled && s.failures == 0
    ensures
      var struck := Next(next, Next(next, Next(next, s, STRIKE), STRIKE), STRIKE);
      struck == s.(failures := 3, enabled := false, retryAfter := None)
  {
    assert Next(next, s, STRIKE).failures == 1;
    assert Next(next, Next(next, s, STRIKE), STRIKE).failures == 2;
  }

  /** A schedule is paused by hand, and an update that is to resume it reads it so; another resumes it
      first, and three fires by hand fail. Then the first writes: enabled, with three failures. */
  lemma EnabledWithThreeStrikes(next: Calendar, timing: Timing)
    ensures
      var made := Created(next, timing, true, 0.0);
      var acts := [Act(Update(timing, false), 1.0), Act(Update(timing, true), 3.0), STRIKE, STRIKE, STRIKE];
      var after := Merged(After(next, made, acts, 5), After(next, made, acts, 1),
                          Updated(next, After(next, made, acts, 1), timing, true, 2.0));
      after.enabled && after.failures == 3
  {
    hide Next;
    var made := Created(next, timing, true, 0.0);
    var acts := [Act(Update(timing, false), 1.0), Act(Update(timing, true), 3.0), STRIKE, STRIKE, STRIKE];
    var seen := After(next, made, acts, 1);
    assert seen == Next(next, After(next, made, acts, 0), acts[0]);
    UpdateIs(next, made, acts[0]);
    assert After(next, made, acts, 2) == Next(next, seen, acts[1]);
    UpdateIs(next, seen, acts[1]);
    ThreeStrikes(next, After(next, made, acts, 2));
    assert After(next, made, acts, 3) == Next(next, After(next, made, acts, 2), STRIKE);
    assert After(next, made, acts, 4) == Next(next, After(next, made, acts, 3), STRIKE);
    assert After(next, made, acts, 5) == Next(next, After(next, made, acts, 4), STRIKE);
  }

  lemma UpdateIs(next: Calendar, s: Schedule, a: Act)
    requires a.op.Update?
    ensures Next(next, s, a) == Updated(next, s, a.op.timing, a.op.enabled, a.now)
  {
  }

  /** Every whole second, whatever the cadence. */
  function EachSecond(c: Timing, t: Time): Option<Time> {
    Some(t.Floor as real + 1.0)
  }

  /** An update to another cadence reads the row at 1.5; the ticker fires at 2.5 for the tick at 1.0, which
      passes 2.0; the update writes the 2.0 it armed, and at 2.6 the ticker fires for that. */
  lemma PassedTickComesBack()
    ensures
      var seen := Created(EachSecond, Timing("a", "z"), true, 0.5);
      var fired := Next(EachSecond, seen, Act(FireDue(Queueing.Queued), 2.5));
      var after := Merged(fired, seen, Updated(EachSecond, seen, Timing("b", "z"), true, 1.5));
      && IsDue(seen, 2.5) && seen.nextFireAt == Some(1.0)
      && fired.nextFireAt == Some(3.0)
      && IsDue(after, 2.6) && after.nextFireAt == Some(2.0)
  {
    assert (0.5 as real).Floor == 0 && (1.5 as real).Floor == 1 && (2.5 as real).Floor == 2;
  }

  // ---------------------------------------------------------------- several schedules

  function DueSchedules(rows: map<string, Schedule>, now: Time): set<string> {
    set id | id in rows && IsDue(rows[id], now)
  }

  function NextAt(rows: map<string, Schedule>): string -> Time {
    id => if id in rows && rows[id].nextFireAt.Some? then rows[id].nextFireAt.value else 0.0
  }

  /** A due schedule once it was fired for its own tick. */
  function TickFired(next: Calendar, s: Schedule, fails: Option<bool>, now: Time): Schedule {
    if s.nextFireAt.None? then s
    else Fired(next, s, s.nextFireAt.value, if fails.None? then Queueing.Queued else NotQueued(fails.value), now)
  }

  /** What a batch makes of a due schedule is what the ticker's fire does. */
  lemma FiredInABatch(next: Calendar, s: Schedule, fails: Option<bool>, now: Time)
    requires IsDue(s, now)
    ensures TickFired(next, s, fails, now) ==
      Next(next, s, Act(FireDue(if fails.None? then Queueing.Queued else NotQueued(fails.value)), now))
  {
  }

  lemma WaitIsLong(failures: int)
    ensures Backoff(FIRE_RETRY_BASE, failures, FIRE_RETRY_CAP) >= 300.0
  {
    var n: nat := if failures >= 1 then failures - 1 else 0;
    assert Pow2(n) as real >= 1.0;
  }

  /** However the fire went, the schedule is not due again at that moment. */
  lemma FiredIsNotDue(next: Calendar, occurs: (Timing, Time) -> bool, s: Schedule, fails: Option<bool>, now: Time)
    requires Names(next, occurs) && IsDue(s, now)
    ensures !IsDue(TickFired(next, s, fails, now), now)
  {
    WaitIsLong(s.failures + 1);
  }

  function TableAfter(next: Calendar, rows: map<string, Schedule>, ids: seq<string>, fails: string -> Option<bool>, now: Time): map<string, Schedule> {
    map id | id in rows :: if id in ids then TickFired(next, rows[id], fails(id), now) else rows[id]
  }
}
