/** The claim, run alone: the loop that passes over tenants and keys without room, what it picks,
    and the fair share a fleet of claims adds up to. */
module Claiming {
  import opened Domain
  import opened Transitions
  import opened Database
  import opened Invariants
  import opened Lifecycle

  /** One claim's question: whose queue (None: every tenant's), for which agents, within which
      limits. */
  datatype Query = Query(tenant: Option<string>, agents: set<string>, now: Time, perKey: int, cap: Option<int>)

  // ---------------------------------------------------------------- what a claim counts

  /** The tenant's runs of these agents that workers hold: its share of the fleet. */
  function HeldRuns(db: Db, agents: set<string>, tenant: string): set<string> {
    set id | id in db.runs && db.runs[id].Leased() && db.runs[id].asked.agent in agents && db.runs[id].tenant == tenant
  }

  function Share(db: Db, agents: set<string>, tenant: string): nat {
    |HeldRuns(db, agents, tenant)|
  }

  /** All the tenant's runs that workers hold: what its cap bounds. */
  function LeasedRuns(db: Db, tenant: string): set<string> {
    set id | id in db.runs && db.runs[id].Leased() && db.runs[id].tenant == tenant
  }

  /** The tenant's RUNNING runs, leased or not, that share the key. */
  function RunningWithKey(db: Db, tenant: string, key: string): set<string> {
    set id | id in db.runs && db.runs[id].status.Running? && db.runs[id].tenant == tenant
             && db.runs[id].asked.concurrencyKey == Some(key)
  }

  predicate KeyHasRoom(db: Db, q: Query, r: Run) {
    r.asked.concurrencyKey.None? || |RunningWithKey(db, r.tenant, r.asked.concurrencyKey.value)| < q.perKey
  }

  predicate TenantHasRoom(db: Db, q: Query, r: Run) {
    q.cap.None? || |LeasedRuns(db, r.tenant)| < q.cap.value
  }

  /** What the query selects from. */
  predicate Eligible(db: Db, q: Query, id: string) {
    && id in db.runs
    && Claimable(db.runs[id], q.agents, q.now)
    && (q.tenant.None? || db.runs[id].tenant == q.tenant.value)
    && KeyHasRoom(db, q, db.runs[id])
  }

  predicate MayTake(db: Db, q: Query, id: string) {
    Eligible(db, q, id) && TenantHasRoom(db, q, db.runs[id])
  }

  /** Claim order: the smaller share first, then the higher priority, then the older. */
  predicate NotAfter(db: Db, q: Query, x: Run, y: Run)
    requires x.queuedAt.Some? && y.queuedAt.Some?
  {
    var sx, sy := Share(db, q.agents, x.tenant), Share(db, q.agents, y.tenant);
    || sx < sy
    || (sx == sy && x.asked.priority > y.asked.priority)
    || (sx == sy && x.asked.priority == y.asked.priority && x.queuedAt.value <= y.queuedAt.value)
  }

  // ---------------------------------------------------------------- the loop

  /** A condition a claim adds to its query after passing over a row. */
  datatype Passed = OtherTenant(tenant: string) | OtherKey(tenant: string, key: Option<string>)
  {
    predicate Admits(r: Run) {
      match this
      case OtherTenant(t) => r.tenant != t
      case OtherKey(t, k) => r.tenant != t || r.asked.concurrencyKey != k
    }
  }

  predicate Admitted(passed: seq<Passed>, r: Run) {
    forall i :: 0 <= i < |passed| ==> passed[i].Admits(r)
  }

  function Selection(db: Db, q: Query, passed: seq<Passed>): set<string> {
    set id | id in db.runs && Eligible(db, q, id) && Admitted(passed, db.runs[id])
  }

  /** The query: one of the first rows in claim order, or None. Rows that tie come in any order. */
  method NextQueued(db: Db, q: Query, passed: seq<Passed>) returns (next: Option<string>)
    requires RowsInv(db.runs)
    ensures next.None? <==> Selection(db, q, passed) == {}
    ensures next.Some? ==>
      && next.value in Selection(db, q, passed)
      && forall id :: id in Selection(db, q, passed) ==> NotAfter(db, q, db.runs[next.value], db.runs[id])
  {
    var rest := Selection(db, q, passed);
    if rest == {} {
      return None;
    }
    var best :| best in rest;
    rest := rest - {best};
    while rest != {}
      invariant rest <= Selection(db, q, passed) && best in Selection(db, q, passed)
      invariant forall id :: id in Selection(db, q, passed) - rest ==> NotAfter(db, q, db.runs[best], db.runs[id])
      decreases rest
    {
      var id :| id in rest;
      if !NotAfter(db, q, db.runs[best], db.runs[id]) {
        best := id;
      }
      rest := rest - {id};
    }
    return Some(best);
  }

  /** The claim's search: take the query's row if its tenant and its key have room, else pass over
      its tenant or its key and ask again. It ends, it answers None exactly when no row may be
      taken, and what it answers comes first in claim order among all the rows that may. */
  method FindClaim(db: Db, q: Query) returns (found: Option<string>)
    requires RowsInv(db.runs)
    ensures found.None? <==> forall id :: id in db.runs ==> !MayTake(db, q, id)
    ensures found.Some? ==> MayTake(db, q, found.value)
    ensures found.Some? ==> forall id :: id in db.runs && MayTake(db, q, id) ==> NotAfter(db, q, db.runs[found.value], db.runs[id])
  {
    var passed: seq<Passed> := [];
    var next := NextQueued(db, q, passed);
    while next.Some?
      invariant next.None? <==> Selection(db, q, passed) == {}
      invariant next.Some? ==>
        && next.value in Selection(db, q, passed)
        && forall id :: id in Selection(db, q, passed) ==> NotAfter(db, q, db.runs[next.value], db.runs[id])
      invariant forall id :: id in db.runs && MayTake(db, q, id) ==> id in Selection(db, q, passed)
      decreases Selection(db, q, passed)
    {
      var row := db.runs[next.value];
      ghost var before := Selection(db, q, passed);
      var more: Passed;
      if !TenantHasRoom(db, q, row) {
        more := OtherTenant(row.tenant);
      } else if !KeyHasRoom(db, q, row) {
        more := OtherKey(row.tenant, row.asked.concurrencyKey);
      } else {
        return next;
      }
      PassingOver(db, q, passed, more, next.value);
      passed := passed + [more];
      next := NextQueued(db, q, passed);
    }
    return None;
  }

  /** Passing over shrinks the selection, and only by rows that share the reason. */
  lemma PassingOver(db: Db, q: Query, passed: seq<Passed>, more: Passed, id: string)
    requires id in Selection(db, q, passed) && !more.Admits(db.runs[id])
    ensures Selection(db, q, passed + [more]) < Selection(db, q, passed)
    ensures forall other :: other in Selection(db, q, passed) && more.Admits(db.runs[other]) ==>
      other in Selection(db, q, passed + [more])
  {
    var longer := passed + [more];
    assert longer[|passed|] == more;
    assert forall r :: Admitted(longer, r) ==> Admitted(passed, r) by {
      forall r | Admitted(longer, r)
        ensures Admitted(passed, r)
      {
        assert forall i :: 0 <= i < |passed| ==> passed[i] == longer[i];
      }
    }
    assert id !in Selection(db, q, longer);
  }

  // ---------------------------------------------------------------- a claim's effect

  function ClaimOf(q: Query, id: string, worker: string, seconds: Time): Action {
    Action(OnRun(id, q.tenant, Claim(q.agents, worker, seconds)), q.now)
  }

  lemma ClaimEffect(db: Db, q: Query, id: string, worker: string, seconds: Time)
    requires Eligible(db, q, id)
    ensures
      var after := Next(db, ClaimOf(q, id, worker, seconds));
      && after.runs.Keys == db.runs.Keys
      && after.runs[id].Leased() && after.runs[id].status.Running?
      && after.runs[id].tenant == db.runs[id].tenant && after.runs[id].asked == db.runs[id].asked
      && after.runs[id].leaseOwner == Some(worker) && after.runs[id].attempt == db.runs[id].attempt
      && (forall other :: other in db.runs && other != id ==> after.runs[other] == db.runs[other])
      && after.artifacts == db.artifacts && after.logs == db.logs && after.resolutions == db.resolutions
  {
  }

  /** Only the claimed run joins what the three counts count. */
  lemma CountsAfterClaim(db: Db, after: Db, id: string)
    requires id in db.runs && after.runs.Keys == db.runs.Keys && !db.runs[id].status.Running?
    requires after.runs[id].Leased() && after.runs[id].tenant == db.runs[id].tenant && after.runs[id].asked == db.runs[id].asked
    requires forall other :: other in db.runs && other != id ==> after.runs[other] == db.runs[other]
    ensures forall agents, t ::
              HeldRuns(after, agents, t) == HeldRuns(db, agents, t)
                + if t == db.runs[id].tenant && db.runs[id].asked.agent in agents then {id} else {}
    ensures forall t ::
              LeasedRuns(after, t) == LeasedRuns(db, t) + if t == db.runs[id].tenant then {id} else {}
    ensures forall t, k ::
              RunningWithKey(after, t, k) == RunningWithKey(db, t, k)
                + if t == db.runs[id].tenant && db.runs[id].asked.concurrencyKey == Some(k) then {id} else {}
  {
  }

  lemma Fewer<T>(a: set<T>, b: set<T>)
    requires a <= b
    ensures |a| <= |b|
  {
    assert b == a + (b - a);
  }

  /** What a claim may take, told in full: a run QUEUED for its agents in its queue and not held back, with
      a place left under its key and its tenant's cap. */
  lemma MayTakeMeans(db: Db, q: Query, id: string)
    requires id in db.runs
    ensures
      var r := db.runs[id];
      MayTake(db, q, id) <==>
        && r.status.Queued? && r.asked.agent in q.agents && (q.tenant.None? || q.tenant == Some(r.tenant))
        && (r.availableAt.Some? ==> r.availableAt.value <= q.now)
        && (r.asked.concurrencyKey.Some? ==>
              |set x | x in db.runs && db.runs[x].status.Running? && db.runs[x].tenant == r.tenant
                       && db.runs[x].asked.concurrencyKey == r.asked.concurrencyKey| < q.perKey)
        && (q.cap.Some? ==>
              |set x | x in db.runs && db.runs[x].status.Running? && db.runs[x].leaseOwner.Some? && db.runs[x].tenant == r.tenant| < q.cap.value)
  {
    var r := db.runs[id];
    if r.asked.concurrencyKey.Some? {
      assert RunningWithKey(db, r.tenant, r.asked.concurrencyKey.value) ==
        set x | x in db.runs && db.runs[x].status.Running? && db.runs[x].tenant == r.tenant
                && db.runs[x].asked.concurrencyKey == r.asked.concurrencyKey;
    }
    assert LeasedRuns(db, r.tenant) ==
      set x | x in db.runs && db.runs[x].status.Running? && db.runs[x].leaseOwner.Some? && db.runs[x].tenant == r.tenant;
  }

  /** The run a claim takes comes before every other it may take: its tenant's workers hold no more runs
      of the agents; as many, and it has no lower priority; the same, and it was queued no later. */
  lemma ClaimedComesFirst(db: Db, q: Query, id: string, after: Db, other: string)
    requires ClaimStep(db, q, id, after) && other in db.runs && MayTake(db, q, other)
    ensures
      var x, y := db.runs[id], db.runs[other];
      var sx := |set k | k in db.runs && db.runs[k].status.Running? && db.runs[k].leaseOwner.Some?
                         && db.runs[k].asked.agent in q.agents && db.runs[k].tenant == x.tenant|;
      var sy := |set k | k in db.runs && db.runs[k].status.Running? && db.runs[k].leaseOwner.Some?
                         && db.runs[k].asked.agent in q.agents && db.runs[k].tenant == y.tenant|;
      && x.queuedAt.Some? && y.queuedAt.Some?
      && sx <= sy
      && (sx == sy ==> x.asked.priority >= y.asked.priority)
      && (sx == sy && x.asked.priority == y.asked.priority ==> x.queuedAt.value <= y.queuedAt.value)
  {
    hide Next;
    var x, y := db.runs[id], db.runs[other];
    assert RowInv(x) && RowInv(y) && NotAfter(db, q, x, y);
    assert HeldRuns(db, q.agents, x.tenant) ==
      set k | k in db.runs && db.runs[k].status.Running? && db.runs[k].leaseOwner.Some?
              && db.runs[k].asked.agent in q.agents && db.runs[k].tenant == x.tenant;
    assert HeldRuns(db, q.agents, y.tenant) ==
      set k | k in db.runs && db.runs[k].status.Running? && db.runs[k].leaseOwner.Some?
              && db.runs[k].asked.agent in q.agents && db.runs[k].tenant == y.tenant;
  }

  // ---------------------------------------------------------------- fair share

  /** A claim that takes a first one of the rows it may take. */
  ghost predicate ClaimStep(db: Db, q: Query, id: string, after: Db) {
    && RowsInv(db.runs)
    && MayTake(db, q, id)
    && (forall other :: other in db.runs && MayTake(db, q, other) ==> NotAfter(db, q, db.runs[id], db.runs[other]))
    && exists worker, seconds :: after == Next(db, ClaimOf(q, id, worker, seconds))
  }

  /** Claims alone, one after another, each taking `picks[i]`. */
  ghost predicate ClaimsAlone(dbs: seq<Db>, picks: seq<string>, q: Query) {
    && |dbs| == |picks| + 1
    && forall i :: 0 <= i < |picks| ==> ClaimStep(dbs[i], q, picks[i], dbs[i + 1])
  }

  /** The tenant has a run a claim may take now. */
  predicate Waits(db: Db, q: Query, tenant: string) {
    exists id :: id in db.runs && db.runs[id].tenant == tenant && MayTake(db, q, id)
  }

  lemma ClaimStepEffect(db: Db, q: Query, id: string, after: Db)
    requires ClaimStep(db, q, id, after)
    ensures after.runs.Keys == db.runs.Keys && id in db.runs && after.runs[id].Leased()
    ensures after.runs[id].tenant == db.runs[id].tenant && after.runs[id].asked == db.runs[id].asked
    ensures forall other :: other in db.runs && other != id ==> after.runs[other] == db.runs[other]
  {
    var worker, seconds :| after == Next(db, ClaimOf(q, id, worker, seconds));
    ClaimEffect(db, q, id, worker, seconds);
  }

  /** What a claim may take after a claim, it could take before. */
  lemma WaitedBefore(db: Db, q: Query, id: string, after: Db, tenant: string)
    requires ClaimStep(db, q, id, after) && Waits(after, q, tenant)
    ensures Waits(db, q, tenant)
  {
    ClaimStepEffect(db, q, id, after);
    CountsAfterClaim(db, after, id);
    var other :| other in after.runs && after.runs[other].tenant == tenant && MayTake(after, q, other);
    assert other != id && after.runs[other] == db.runs[other];
    var r := db.runs[other];
    Fewer(LeasedRuns(db, r.tenant), LeasedRuns(after, r.tenant));
    if r.asked.concurrencyKey.Some? {
      Fewer(RunningWithKey(db, r.tenant, r.asked.concurrencyKey.value), RunningWithKey(after, r.tenant, r.asked.concurrencyKey.value));
    }
    assert MayTake(db, q, other);
  }

  /** Only the claimed run's tenant's share grows, by one, and it was the least of those waiting. */
  lemma ShareAfterClaim(db: Db, q: Query, id: string, after: Db, tenant: string)
    requires ClaimStep(db, q, id, after)
    ensures Share(after, q.agents, tenant) == Share(db, q.agents, tenant) + if tenant == db.runs[id].tenant then 1 else 0
    ensures Waits(db, q, tenant) ==> Share(db, q.agents, db.runs[id].tenant) <= Share(db, q.agents, tenant)
  {
    hide Next;
    ClaimStepEffect(db, q, id, after);
    CountsAfterClaim(db, after, id);
    assert id !in HeldRuns(db, q.agents, tenant);
    if Waits(db, q, tenant) {
      var other :| other in db.runs && db.runs[other].tenant == tenant && MayTake(db, q, other);
      assert NotAfter(db, q, db.runs[id], db.runs[other]);
    }
  }

  /** Max-min fairness: whatever tenants and workers claim, while tenant `b` still waits no tenant
      holds more than one run over `b`'s share, or over what it held to begin with. */
  lemma {:induction false} FairShare(dbs: seq<Db>, picks: seq<string>, q: Query, n: nat, a: string, b: string)
    requires ClaimsAlone(dbs, picks, q) && n < |dbs| && q.tenant.None?
    requires Waits(dbs[n], q, b)
    ensures
      || Share(dbs[n], q.agents, a) <= Share(dbs[n], q.agents, b) + 1
      || Share(dbs[n], q.agents, a) <= Share(dbs[0], q.agents, a)
  {
    if n > 0 {
      WaitedBefore(dbs[n - 1], q, picks[n - 1], dbs[n], b);
      FairShare(dbs, picks, q, n - 1, a, b);
      ShareAfterClaim(dbs[n - 1], q, picks[n - 1], dbs[n], a);
      ShareAfterClaim(dbs[n - 1], q, picks[n - 1], dbs[n], b);
    }
  }

  /** From a fleet that holds nothing yet: no tenant gets more than one run ahead of one waiting. */
  lemma FairFromTheStart(dbs: seq<Db>, picks: seq<string>, q: Query, n: nat, a: string, b: string)
    requires ClaimsAlone(dbs, picks, q) && n < |dbs| && q.tenant.None?
    requires forall id :: id in dbs[0].runs ==> !dbs[0].runs[id].Leased()
    requires Waits(dbs[n], q, b)
    ensures Share(dbs[n], q.agents, a) <= Share(dbs[n], q.agents, b) + 1
  {
    assert HeldRuns(dbs[0], q.agents, a) == {};
    FairShare(dbs, picks, q, n, a, b);
  }
}
