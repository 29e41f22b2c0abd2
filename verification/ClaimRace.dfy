/** Claims as the database runs them: many transactions at once, statement by statement, between
    all the other operations. A row lock and an advisory lock are held to the transaction's end; a
    statement reads what has been committed; nothing a claim writes is seen before it commits. */
module ClaimRace {
  import opened Domain
  import opened Transitions
  import opened Database
  import opened Invariants
  import opened Lifecycle
  import opened Claiming

  /** What an advisory lock is taken on. The database hashes the name; the hash is any function,
      so two names may share a lock. */
  datatype LockName = TenantLock(tenant: string) | KeyLock(tenant: string, key: string)

  /** How far a claim has come with the row it looks at. */
  datatype Phase =
    | Looking
    | Picked(id: string)
    | TenantLocked(id: string)
    | TenantCleared(id: string)
    | KeyLocked(id: string)
    | Cleared(id: string)

  datatype Txn = Txn(q: Query, worker: string, seconds: Time,
                     passed: seq<Passed>, rows: set<string>, locks: set<int>, phase: Phase)

  /** `history` is what has been committed, in order. */
  datatype World = World(db: Db, txns: map<int, Txn>, history: seq<Action>)

  datatype Limits = Limits(perKey: int, cap: Option<int>)

  datatype Move =
    | Begin(t: int, query: Query, worker: string, seconds: Time)
    | Pick(t: int, id: string)
    | LockTenant(t: int)
    | CountTenant(t: int)
    | LockKey(t: int)
    | CountKey(t: int)
    | Commit(t: int)
    | Abort(t: int)
    | Other(action: Action)

  const START := World(EMPTY, map[], [])

  predicate RowLocked(w: World, id: string) {
    exists t :: t in w.txns && id in w.txns[t].rows
  }

  predicate LockedByAnother(w: World, t: int, lock: int) {
    exists u :: u in w.txns && u != t && lock in w.txns[u].locks
  }

  /** The row an operation locks while it works. */
  predicate Needs(step: Step, id: string) {
    !step.RemoveArtifact? && step.id == id
  }

  /** The row a claim looks at is there; `PhaseInv` says it always is. */
  predicate HasItsRow(w: World, t: int)
    requires t in w.txns && !w.txns[t].phase.Looking?
  {
    w.txns[t].phase.id in w.db.runs
  }

  // ---------------------------------------------------------------- one statement

  /** When a transaction may take a move. A pick skips rows another transaction has locked and
      checks the row again once it holds its lock; a tie, and a row that came later, may be picked
      too. Any other operation waits for, or skips, a row a claim has locked. */
  ghost predicate Can(limits: Limits, w: World, m: Move) {
    match m
    case Begin(t, query, _, _) => t !in w.txns && query.perKey == limits.perKey && query.cap == limits.cap
    case Pick(t, id) =>
      && t in w.txns && w.txns[t].phase.Looking?
      && (forall u :: u in w.txns && u != t ==> id !in w.txns[u].rows)
      && id in w.db.runs
      && Claimable(w.db.runs[id], w.txns[t].q.agents, w.txns[t].q.now)
      && (w.txns[t].q.tenant.None? || w.db.runs[id].tenant == w.txns[t].q.tenant.value)
      && Admitted(w.txns[t].passed, w.db.runs[id])
    case LockTenant(t) => t in w.txns && w.txns[t].phase.Picked? && HasItsRow(w, t)
    case CountTenant(t) => t in w.txns && w.txns[t].phase.TenantLocked? && HasItsRow(w, t)
    case LockKey(t) => t in w.txns && w.txns[t].phase.TenantCleared? && HasItsRow(w, t)
    case CountKey(t) => t in w.txns && w.txns[t].phase.KeyLocked? && HasItsRow(w, t)
    case Commit(t) => t in w.txns && w.txns[t].phase.Cleared?
    case Abort(t) => t in w.txns
    case Other(a) =>
      && (a.step.OnRun? ==> !a.step.verb.Claim?)
      && forall id :: Needs(a.step, id) ==> !RowLocked(w, id)
  }

  function PassOver(txn: Txn, passed: Passed): Txn {
    txn.(passed := txn.passed + [passed], phase := Looking)
  }

  function AfterLockTenant(w: World, t: int, lock: int): Txn
    requires t in w.txns && w.txns[t].phase.Picked? && w.txns[t].phase.id in w.db.runs
  {
    var txn := w.txns[t];
    if txn.q.cap.None? then txn.(phase := TenantCleared(txn.phase.id))
    else if LockedByAnother(w, t, lock) then PassOver(txn, OtherTenant(w.db.runs[txn.phase.id].tenant))
    else txn.(locks := txn.locks + {lock}, phase := TenantLocked(txn.phase.id))
  }

  function AfterCountTenant(w: World, t: int): Txn
    requires t in w.txns && w.txns[t].phase.TenantLocked? && w.txns[t].phase.id in w.db.runs
  {
    var txn := w.txns[t];
    if TenantHasRoom(w.db, txn.q, w.db.runs[txn.phase.id]) then txn.(phase := TenantCleared(txn.phase.id))
    else PassOver(txn, OtherTenant(w.db.runs[txn.phase.id].tenant))
  }

  function AfterLockKey(w: World, t: int, lock: int): Txn
    requires t in w.txns && w.txns[t].phase.TenantCleared? && w.txns[t].phase.id in w.db.runs
  {
    var txn := w.txns[t];
    var r := w.db.runs[txn.phase.id];
    if r.asked.concurrencyKey.None? then txn.(phase := Cleared(txn.phase.id))
    else if LockedByAnother(w, t, lock) then PassOver(txn, OtherKey(r.tenant, r.asked.concurrencyKey))
    else txn.(locks := txn.locks + {lock}, phase := KeyLocked(txn.phase.id))
  }

  function AfterCountKey(w: World, t: int): Txn
    requires t in w.txns && w.txns[t].phase.KeyLocked? && w.txns[t].phase.id in w.db.runs
  {
    var txn := w.txns[t];
    var r := w.db.runs[txn.phase.id];
    if KeyHasRoom(w.db, txn.q, r) then txn.(phase := Cleared(txn.phase.id))
    else PassOver(txn, OtherKey(r.tenant, r.asked.concurrencyKey))
  }

  function TenantLockOf(hash: LockName -> int, r: Run): int {
    hash(TenantLock(r.tenant))
  }

  function KeyLockOf(hash: LockName -> int, r: Run): int {
    if r.asked.concurrencyKey.Some? then hash(KeyLock(r.tenant, r.asked.concurrencyKey.value)) else 0
  }

  function Committed(w: World, a: Action, t: int): World {
    World(Next(w.db, a), w.txns - {t}, w.history + [a])
  }

  ghost function Do(hash: LockName -> int, limits: Limits, w: World, m: Move): World
    requires Can(limits, w, m)
  {
    match m
    case Begin(t, query, worker, seconds) =>
      w.(txns := w.txns[t := Txn(query, worker, seconds, [], {}, {}, Looking)])
    case Pick(t, id) =>
      w.(txns := w.txns[t := w.txns[t].(rows := w.txns[t].rows + {id}, phase := Picked(id))])
    case LockTenant(t) =>
      w.(txns := w.txns[t := AfterLockTenant(w, t, TenantLockOf(hash, w.db.runs[w.txns[t].phase.id]))])
    case CountTenant(t) => w.(txns := w.txns[t := AfterCountTenant(w, t)])
    case LockKey(t) =>
      w.(txns := w.txns[t := AfterLockKey(w, t, KeyLockOf(hash, w.db.runs[w.txns[t].phase.id]))])
    case CountKey(t) => w.(txns := w.txns[t := AfterCountKey(w, t)])
    case Commit(t) =>
      var txn := w.txns[t];
      Committed(w, ClaimOf(txn.q, txn.phase.id, txn.worker, txn.seconds), t)
    case Abort(t) => w.(txns := w.txns - {t})
    case Other(a) => w.(db := Next(w.db, a), history := w.history + [a])
  }

  // ---------------------------------------------------------------- what always holds

  /** A row a claim looks at is locked by it, and still what it picked. */
  ghost predicate PhaseInv(w: World, txn: Txn) {
    txn.phase.Looking? ||
    (&& txn.phase.id in txn.rows
     && txn.phase.id in w.db.runs
     && Claimable(w.db.runs[txn.phase.id], txn.q.agents, txn.q.now)
     && (txn.q.tenant.None? || w.db.runs[txn.phase.id].tenant == txn.q.tenant.value))
  }

  ghost predicate PhasesInv(w: World) {
    forall t :: t in w.txns ==> PhaseInv(w, w.txns[t])
  }

  /** No two transactions hold one row lock, or one advisory lock. */
  ghost predicate LocksInv(w: World) {
    forall t, u :: t in w.txns && u in w.txns && t != u ==>
      w.txns[t].rows !! w.txns[u].rows && w.txns[t].locks !! w.txns[u].locks
  }

  function LeasedWithKey(db: Db, tenant: string, key: string): set<string> {
    set id | id in db.runs && db.runs[id].Leased() && db.runs[id].tenant == tenant
             && db.runs[id].asked.concurrencyKey == Some(key)
  }

  /** What a claim has counted it has counted under the lock, and it is still so. */
  ghost predicate RoomInv(hash: LockName -> int, limits: Limits, w: World, txn: Txn)
    requires PhaseInv(w, txn)
  {
    && txn.q.perKey == limits.perKey && txn.q.cap == limits.cap
    && (txn.phase.Looking? || txn.phase.Picked? ||
        var r := w.db.runs[txn.phase.id];
        && (limits.cap.Some? ==>
              && TenantLockOf(hash, r) in txn.locks
              && (!txn.phase.TenantLocked? ==> |LeasedRuns(w.db, r.tenant)| < limits.cap.value))
        && ((txn.phase.KeyLocked? || txn.phase.Cleared?) && r.asked.concurrencyKey.Some? ==>
              && KeyLockOf(hash, r) in txn.locks
              && (txn.phase.Cleared? ==>
                    |LeasedWithKey(w.db, r.tenant, r.asked.concurrencyKey.value)| < limits.perKey)))
  }

  /** The bounds: no more leased runs of a tenant than its cap, nor sharing a key than allowed. */
  ghost predicate Bounded(limits: Limits, db: Db) {
    && (limits.cap.Some? ==> forall t :: |LeasedRuns(db, t)| <= limits.cap.value)
    && (forall t, k :: |LeasedWithKey(db, t, k)| <= limits.perKey)
  }

  ghost predicate WorldInv(hash: LockName -> int, limits: Limits, w: World) {
    && w.db == After(w.history, |w.history|)
    && PhasesInv(w)
    && LocksInv(w)
    && (forall t :: t in w.txns ==> RoomInv(hash, limits, w, w.txns[t]))
    && Bounded(limits, w.db)
  }

  // ---------------------------------------------------------------- moves that commit nothing

  /** Replacing one transaction's record, the database standing still. */
  lemma TxnMoves(hash: LockName -> int, limits: Limits, w: World, t: int, txn: Txn, after: World)
    requires WorldInv(hash, limits, w) && after == w.(txns := w.txns[t := txn])
    requires PhaseInv(w, txn) && RoomInv(hash, limits, w, txn)
    requires forall u :: u in w.txns && u != t ==> txn.rows !! w.txns[u].rows && txn.locks !! w.txns[u].locks
    ensures WorldInv(hash, limits, after)
  {
    hide After, Bounded, Claimable;
    assert forall u :: u in after.txns && u != t ==> after.txns[u] == w.txns[u];
    assert PhasesInv(after);
  }

  lemma LockIsFree(w: World, t: int, lock: int)
    requires LocksInv(w) && t in w.txns && !LockedByAnother(w, t, lock)
    ensures forall u :: u in w.txns && u != t ==> w.txns[t].locks + {lock} !! w.txns[u].locks
  {
  }

  lemma LeasedRunWithKey(db: Db, tenant: string, key: string)
    ensures |LeasedWithKey(db, tenant, key)| <= |RunningWithKey(db, tenant, key)|
  {
    Fewer(LeasedWithKey(db, tenant, key), RunningWithKey(db, tenant, key));
  }

  lemma LocalMoveKeeps(hash: LockName -> int, limits: Limits, w: World, m: Move)
    requires WorldInv(hash, limits, w) && Can(limits, w, m)
    requires m.Begin? || m.Pick? || m.CountTenant? || m.CountKey?
    ensures WorldInv(hash, limits, Do(hash, limits, w, m))
  {
    hide Next;
    var after := Do(hash, limits, w, m);
    if m.CountKey? {
      var r := w.db.runs[w.txns[m.t].phase.id];
      if r.asked.concurrencyKey.Some? {
        LeasedRunWithKey(w.db, r.tenant, r.asked.concurrencyKey.value);
      }
    }
    TxnMoves(hash, limits, w, m.t, after.txns[m.t], after);
  }

  lemma LockMoveKeeps(hash: LockName -> int, limits: Limits, w: World, m: Move)
    requires WorldInv(hash, limits, w) && Can(limits, w, m)
    requires m.LockTenant? || m.LockKey?
    ensures WorldInv(hash, limits, Do(hash, limits, w, m))
  {
    hide Next;
    var after := Do(hash, limits, w, m);
    var r := w.db.runs[w.txns[m.t].phase.id];
    var lock := if m.LockTenant? then TenantLockOf(hash, r) else KeyLockOf(hash, r);
    if !LockedByAnother(w, m.t, lock) {
      LockIsFree(w, m.t, lock);
    }
    TxnMoves(hash, limits, w, m.t, after.txns[m.t], after);
  }

  lemma AbortKeeps(hash: LockName -> int, limits: Limits, w: World, m: Move)
    requires WorldInv(hash, limits, w) && Can(limits, w, m) && m.Abort?
    ensures WorldInv(hash, limits, Do(hash, limits, w, m))
  {
    hide Next;
    var after := Do(hash, limits, w, m);
    assert forall u :: u in after.txns ==> u in w.txns && after.txns[u] == w.txns[u];
    assert PhasesInv(after);
  }

  // ---------------------------------------------------------------- the other operations

  lemma NoVerbLeases(db: Db, r: Run, verb: Verb, now: Time)
    requires RowInv(r) && !verb.Claim? && VerbVerdict(db, r, verb, now).Changed?
    requires verb.Finish? ==> verb.ending.status.Final()
    ensures VerbVerdict(db, r, verb, now).run.Leased() ==> r.Leased()
  {
  }

  /** Nothing but a claim leases a run: starts, resumes, sweeps and the rest only let go. */
  lemma OnlyClaimsLease(db: Db, a: Action, id: string)
    requires DbInv(db) && !(a.step.OnRun? && a.step.verb.Claim?)
    requires id in Next(db, a).runs && Next(db, a).runs[id].Leased()
    ensures id in db.runs && db.runs[id].Leased()
    ensures Next(db, a).runs[id].tenant == db.runs[id].tenant && Next(db, a).runs[id].asked == db.runs[id].asked
  {
    hide Next;
    if id !in db.runs {
      BornByStart(db, a, id);
    } else {
      RowAfter(db, a, id);
      if Touches(db, a, id) {
        Touched(db, a, id);
        NoVerbLeases(db, db.runs[id], a.step.verb, a.now);
        ChangeKeepsRow(db, db.runs[id], a.step.verb, a.now);
      }
    }
  }

  lemma LeasesOnlyFall(db: Db, a: Action)
    requires DbInv(db) && !(a.step.OnRun? && a.step.verb.Claim?)
    ensures forall t :: |LeasedRuns(Next(db, a), t)| <= |LeasedRuns(db, t)|
    ensures forall t, k :: |LeasedWithKey(Next(db, a), t, k)| <= |LeasedWithKey(db, t, k)|
  {
    hide Next;
    var after := Next(db, a);
    forall id | id in after.runs && after.runs[id].Leased()
      ensures id in db.runs && db.runs[id].Leased()
      ensures after.runs[id].tenant == db.runs[id].tenant && after.runs[id].asked == db.runs[id].asked
    {
      OnlyClaimsLease(db, a, id);
    }
    forall t ensures |LeasedRuns(after, t)| <= |LeasedRuns(db, t)| {
      Fewer(LeasedRuns(after, t), LeasedRuns(db, t));
    }
    forall t, k ensures |LeasedWithKey(after, t, k)| <= |LeasedWithKey(db, t, k)| {
      Fewer(LeasedWithKey(after, t, k), LeasedWithKey(db, t, k));
    }
  }

  /** An operation leaves alone every row it does not lock. */
  lemma LockedRowStays(db: Db, a: Action, id: string)
    requires id in db.runs && !Needs(a.step, id)
    ensures id in Next(db, a).runs && Next(db, a).runs[id] == db.runs[id]
  {
    if a.step.OnRun? {
      OtherRunsUntouched(db, a, id);
    }
  }

  lemma HistoryGrows(w: World, a: Action)
    requires w.db == After(w.history, |w.history|)
    ensures Next(w.db, a) == After(w.history + [a], |w.history| + 1)
  {
    hide Next;
    SamePrefix(w.history, w.history + [a], |w.history|);
  }

  lemma {:induction false} SamePrefix(short: seq<Action>, long: seq<Action>, n: nat)
    requires n <= |short| && short <= long
    ensures After(short, n) == After(long, n)
  {
    hide Next;
    if n > 0 {
      SamePrefix(short, long, n - 1);
    }
  }

  lemma OtherKeeps(hash: LockName -> int, limits: Limits, w: World, m: Move)
    requires WorldInv(hash, limits, w) && Can(limits, w, m) && m.Other?
    ensures WorldInv(hash, limits, Do(hash, limits, w, m))
  {
    hide Next;
    var a := m.action;
    var after := Do(hash, limits, w, m);
    HistoryGrows(w, a);
    Reachable(w.history, |w.history|);
    LeasesOnlyFall(w.db, a);
    forall t | t in after.txns
      ensures PhaseInv(after, after.txns[t]) && RoomInv(hash, limits, after, after.txns[t])
    {
      var txn := w.txns[t];
      assert PhaseInv(w, txn) && RoomInv(hash, limits, w, txn);
      if !txn.phase.Looking? {
        assert RowLocked(w, txn.phase.id);
        LockedRowStays(w.db, a, txn.phase.id);
      }
    }
  }

  // ---------------------------------------------------------------- a commit

  /** The database before and after a commit: one queued run is now leased, all else is as it was. */
  ghost predicate LeasedOneMore(db: Db, after: Db, id: string) {
    && id in db.runs && after.runs.Keys == db.runs.Keys && !db.runs[id].status.Running?
    && after.runs[id].Leased() && after.runs[id].tenant == db.runs[id].tenant && after.runs[id].asked == db.runs[id].asked
    && forall other :: other in db.runs && other != id ==> after.runs[other] == db.runs[other]
  }

  lemma TenantCountAfter(db: Db, after: Db, id: string, t: string)
    requires LeasedOneMore(db, after, id)
    ensures |LeasedRuns(after, t)| == |LeasedRuns(db, t)| + if t == db.runs[id].tenant then 1 else 0
  {
    CountsAfterClaim(db, after, id);
    assert id !in LeasedRuns(db, t);
  }

  lemma KeyMembersAfter(db: Db, after: Db, id: string, t: string, k: string)
    requires LeasedOneMore(db, after, id)
    ensures id !in LeasedWithKey(db, t, k)
    ensures
      var joins := t == db.runs[id].tenant && db.runs[id].asked.concurrencyKey == Some(k);
      LeasedWithKey(after, t, k) == LeasedWithKey(db, t, k) + if joins then {id} else {}
  {
  }

  lemma KeyCountAfter(db: Db, after: Db, id: string, t: string, k: string)
    requires LeasedOneMore(db, after, id)
    ensures
      var joins := t == db.runs[id].tenant && db.runs[id].asked.concurrencyKey == Some(k);
      |LeasedWithKey(after, t, k)| == |LeasedWithKey(db, t, k)| + if joins then 1 else 0
  {
    hide LeasedWithKey;
    KeyMembersAfter(db, after, id, t, k);
  }

  lemma CommitEffect(hash: LockName -> int, limits: Limits, w: World, t: int)
    requires WorldInv(hash, limits, w) && t in w.txns && w.txns[t].phase.Cleared?
    ensures
      var id := w.txns[t].phase.id;
      var after := Do(hash, limits, w, Commit(t)).db;
      && LeasedOneMore(w.db, after, id)
      && w.db.runs[id].status.Queued?
      && after.runs[id].leaseOwner == Some(w.txns[t].worker)
      && after.runs[id].attempt == w.db.runs[id].attempt
  {
    assert PhaseInv(w, w.txns[t]);
  }

  /** A transaction still going shares no lock with the one that commits, so what it has counted
      the commit does not change. */
  lemma OthersStillHaveRoom(hash: LockName -> int, limits: Limits, w: World, t: int, u: int)
    requires WorldInv(hash, limits, w) && t in w.txns && w.txns[t].phase.Cleared?
    requires u in w.txns && u != t
    ensures
      var after := Do(hash, limits, w, Commit(t));
      PhaseInv(after, w.txns[u]) && RoomInv(hash, limits, after, w.txns[u])
  {
    hide Next;
    CommitEffect(hash, limits, w, t);
    var txn, other := w.txns[t], w.txns[u];
    var after := Do(hash, limits, w, Commit(t));
    assert PhaseInv(w, txn) && RoomInv(hash, limits, w, txn) && PhaseInv(w, other) && RoomInv(hash, limits, w, other);
    assert txn.rows !! other.rows && txn.locks !! other.locks;
    if !other.phase.Looking? {
      assert other.phase.id != txn.phase.id;
      var r := w.db.runs[other.phase.id];
      TenantCountAfter(w.db, after.db, txn.phase.id, r.tenant);
      if r.asked.concurrencyKey.Some? {
        KeyCountAfter(w.db, after.db, txn.phase.id, r.tenant, r.asked.concurrencyKey.value);
      }
    }
  }

  lemma CommitKeeps(hash: LockName -> int, limits: Limits, w: World, t: int)
    requires WorldInv(hash, limits, w) && t in w.txns && w.txns[t].phase.Cleared?
    ensures WorldInv(hash, limits, Do(hash, limits, w, Commit(t)))
  {
    hide Next;
    var txn := w.txns[t];
    var after := Do(hash, limits, w, Commit(t));
    HistoryGrows(w, ClaimOf(txn.q, txn.phase.id, txn.worker, txn.seconds));
    CommitEffect(hash, limits, w, t);
    forall u | u in after.txns
      ensures PhaseInv(after, after.txns[u]) && RoomInv(hash, limits, after, after.txns[u])
    {
      OthersStillHaveRoom(hash, limits, w, t, u);
    }
    CommitStaysBounded(hash, limits, w, t);
    assert PhasesInv(after);
    assert LocksInv(after);
  }

  lemma CommitStaysBounded(hash: LockName -> int, limits: Limits, w: World, t: int)
    requires WorldInv(hash, limits, w) && t in w.txns && w.txns[t].phase.Cleared?
    ensures Bounded(limits, Do(hash, limits, w, Commit(t)).db)
  {
    hide Next;
    CommitEffect(hash, limits, w, t);
    var id, after := w.txns[t].phase.id, Do(hash, limits, w, Commit(t)).db;
    assert RoomInv(hash, limits, w, w.txns[t]);
    forall tenant ensures limits.cap.Some? ==> |LeasedRuns(after, tenant)| <= limits.cap.value {
      TenantCountAfter(w.db, after, id, tenant);
    }
    forall tenant, k ensures |LeasedWithKey(after, tenant, k)| <= limits.perKey {
      KeyCountAfter(w.db, after, id, tenant, k);
    }
  }

  // ---------------------------------------------------------------- every interleaving

  lemma MoveKeeps(hash: LockName -> int, limits: Limits, w: World, m: Move)
    requires WorldInv(hash, limits, w) && Can(limits, w, m)
    ensures WorldInv(hash, limits, Do(hash, limits, w, m))
  {
    hide Do;
    if m.LockTenant? || m.LockKey? {
      LockMoveKeeps(hash, limits, w, m);
    } else if m.Abort? {
      AbortKeeps(hash, limits, w, m);
    } else if m.Commit? {
      CommitKeeps(hash, limits, w, m.t);
    } else if m.Other? {
      OtherKeeps(hash, limits, w, m);
    } else {
      LocalMoveKeeps(hash, limits, w, m);
    }
  }

  /** The worlds an interleaving goes through, each a move from the one before. */
  ghost predicate Interleaving(hash: LockName -> int, limits: Limits, worlds: seq<World>, moves: seq<Move>) {
    && |worlds| == |moves| + 1
    && worlds[0] == START
    && forall i :: 0 <= i < |moves| ==>
         Can(limits, worlds[i], moves[i]) && worlds[i + 1] == Do(hash, limits, worlds[i], moves[i])
  }

  lemma {:induction false} WorldsAreGood(hash: LockName -> int, limits: Limits, worlds: seq<World>, moves: seq<Move>, n: nat)
    requires Interleaving(hash, limits, worlds, moves) && n < |worlds|
    requires limits.perKey >= 0 && (limits.cap.Some? ==> limits.cap.value >= 0)
    ensures WorldInv(hash, limits, worlds[n])
  {
    hide Do;
    if n == 0 {
      assert forall t :: LeasedRuns(EMPTY, t) == {};
      assert forall t, k :: LeasedWithKey(EMPTY, t, k) == {};
    } else {
      WorldsAreGood(hash, limits, worlds, moves, n - 1);
      MoveKeeps(hash, limits, worlds[n - 1], moves[n - 1]);
    }
  }

  /** Whatever claims and operations interleave, and whatever the lock hash confuses: a tenant's
      workers never hold more runs than its cap, nor more sharing a key than allowed. */
  lemma NoClaimGoesPastTheLimits(hash: LockName -> int, limits: Limits, worlds: seq<World>, moves: seq<Move>,
                                 n: nat, tenant: string, key: string)
    requires Interleaving(hash, limits, worlds, moves) && n < |worlds|
    requires limits.perKey >= 0 && (limits.cap.Some? ==> limits.cap.value >= 0)
    ensures |LeasedWithKey(worlds[n].db, tenant, key)| <= limits.perKey
    ensures limits.cap.Some? ==> |LeasedRuns(worlds[n].db, tenant)| <= limits.cap.value
  {
    WorldsAreGood(hash, limits, worlds, moves, n);
  }

  /** No run is claimed twice: every commit of a claim finds the run still queued and leases it to
      its own worker, and two commits that take one run, in one life of it, take it at different
      attempts. */
  lemma NoRunIsClaimedTwice(hash: LockName -> int, limits: Limits, worlds: seq<World>, moves: seq<Move>, i: nat)
    requires Interleaving(hash, limits, worlds, moves) && i < |moves| && moves[i].Commit?
    requires limits.perKey >= 0 && (limits.cap.Some? ==> limits.cap.value >= 0)
    ensures
      var txn := worlds[i].txns[moves[i].t];
      var id, before, after := txn.phase.id, worlds[i], worlds[i + 1];
      && id in before.db.runs && before.db.runs[id].status.Queued?
      && id in after.db.runs && after.db.runs[id].leaseOwner == Some(txn.worker)
      && |after.history| == |before.history| + 1 && before.history <= after.history
      && after.db == After(after.history, |after.history|)
      && ClaimedAt(after.history, |before.history|, id, txn.worker)
      && forall k, w :: 0 <= k < |before.history| && Alive(after.history, id, k, |before.history|)
                        && ClaimedAt(after.history, k, id, w) && id in After(after.history, k).runs ==>
           AttemptAt(after.history, k, id) < before.db.runs[id].attempt
  {
    WorldsAreGood(hash, limits, worlds, moves, i);
    WorldsAreGood(hash, limits, worlds, moves, i + 1);
    CommitIsNew(hash, limits, worlds[i], moves[i].t);
  }

  lemma CommitIsNew(hash: LockName -> int, limits: Limits, before: World, t: int)
    requires WorldInv(hash, limits, before) && t in before.txns && before.txns[t].phase.Cleared?
    ensures
      var txn := before.txns[t];
      var id, after, n := txn.phase.id, Do(hash, limits, before, Commit(t)), |before.history|;
      && id in before.db.runs && before.db.runs[id].status.Queued?
      && id in after.db.runs && after.db.runs[id].leaseOwner == Some(txn.worker)
      && |after.history| == n + 1 && before.history <= after.history
      && ClaimedAt(after.history, n, id, txn.worker)
      && forall k, w :: 0 <= k < n && Alive(after.history, id, k, n)
                        && ClaimedAt(after.history, k, id, w) && id in After(after.history, k).runs ==>
           AttemptAt(after.history, k, id) < before.db.runs[id].attempt
  {
    hide Next;
    CommitEffect(hash, limits, before, t);
    var txn := before.txns[t];
    var id, after, n := txn.phase.id, Do(hash, limits, before, Commit(t)), |before.history|;
    var a := ClaimOf(txn.q, id, txn.worker, txn.seconds);
    assert after.history == before.history + [a] && after.history[n] == a;
    SamePrefix(before.history, after.history, n);
    assert After(after.history, n) == before.db;
    assert PhaseInv(before, txn);
    assert ClaimedAt(after.history, n, id, txn.worker);
    forall k, w | 0 <= k < n && Alive(after.history, id, k, n) && ClaimedAt(after.history, k, id, w) && id in After(after.history, k).runs
      ensures AttemptAt(after.history, k, id) < before.db.runs[id].attempt
    {
      ClaimsCarryDistinctAttempts(after.history, id, k, n, w, txn.worker);
    }
  }

  // ---------------------------------------------------------------- running with a key

  /** The runs kept in their callers' processes that share the key: they take its places too, but no
      place is kept from them. */
  function InProcessWithKey(db: Db, tenant: string, key: string): set<string> {
    set id | id in RunningWithKey(db, tenant, key) && !db.runs[id].Leased()
  }

  /** Over every interleaving: running runs that share a key go past its limit by no more than those of
      them that no worker holds. */
  lemma PastTheLimitOnlyInProcess(hash: LockName -> int, limits: Limits, worlds: seq<World>, moves: seq<Move>, n: nat, tenant: string, key: string)
    requires Interleaving(hash, limits, worlds, moves) && n < |worlds|
    requires limits.perKey >= 0 && (limits.cap.Some? ==> limits.cap.value >= 0)
    ensures |RunningWithKey(worlds[n].db, tenant, key)| <= limits.perKey + |InProcessWithKey(worlds[n].db, tenant, key)|
  {
    hide Can, Do;
    NoClaimGoesPastTheLimits(hash, limits, worlds, moves, n, tenant, key);
    var db := worlds[n].db;
    assert RunningWithKey(db, tenant, key) == LeasedWithKey(db, tenant, key) + InProcessWithKey(db, tenant, key);
  }

  /** A start that keeps the run in its caller's process, for this tenant and key. */
  predicate StartsInProcess(step: Step, tenant: string, key: string) {
    step.Start? && !step.queue && step.owner == tenant && step.asked.concurrencyKey == Some(key)
  }

  lemma {:induction false} AllDurable(history: seq<Action>, n: nat, id: string, tenant: string, key: string)
    requires n <= |history| && forall k :: 0 <= k < n ==> !StartsInProcess(history[k].step, tenant, key)
    requires id in After(history, n).runs
    requires After(history, n).runs[id].tenant == tenant && After(history, n).runs[id].asked.concurrencyKey == Some(key)
    ensures After(history, n).runs[id].Durable()
  {
    hide Next;
    if n > 0 {
      var db, a := After(history, n - 1), history[n - 1];
      Reachable(history, n - 1);
      if id !in db.runs {
        BornByStart(db, a, id);
      } else {
        RowAfter(db, a, id);
        if Touches(db, a, id) {
          Touched(db, a, id);
          ChangeKeepsRow(db, db.runs[id], a.step.verb, a.now);
          DurableForLife(db, db.runs[id], a.step.verb, a.now);
        }
        AllDurable(history, n - 1, id, tenant, key);
      }
    }
  }

  /** So while no run of the key was ever started in its caller's process, no more of them run at once
      than the key allows, over every interleaving. */
  lemma QueuedRunsKeepTheLimit(hash: LockName -> int, limits: Limits, worlds: seq<World>, moves: seq<Move>, n: nat, tenant: string, key: string)
    requires Interleaving(hash, limits, worlds, moves) && n < |worlds|
    requires limits.perKey >= 0 && (limits.cap.Some? ==> limits.cap.value >= 0)
    requires forall k :: 0 <= k < |worlds[n].history| ==> !StartsInProcess(worlds[n].history[k].step, tenant, key)
    ensures |RunningWithKey(worlds[n].db, tenant, key)| <= limits.perKey
  {
    hide Can, Do;
    WorldsAreGood(hash, limits, worlds, moves, n);
    PastTheLimitOnlyInProcess(hash, limits, worlds, moves, n, tenant, key);
    var db, history := worlds[n].db, worlds[n].history;
    Reachable(history, |history|);
    forall id | id in RunningWithKey(db, tenant, key) ensures db.runs[id].Leased() {
      AllDurable(history, |history|, id, tenant, key);
      assert RowInv(db.runs[id]);
    }
    assert InProcessWithKey(db, tenant, key) == {};
  }

  /** What adds a running run to a key's without a claim: a start in the caller's process, and an answer
      that continues a run there. */
  predicate JoinsInProcess(db: Db, a: Action, id: string, tenant: string, key: string) {
    || (a.step.Start? && a.step.id == id && Inserts(db, id, a.step.owner, a.step.key) && StartsInProcess(a.step, tenant, key))
    || (&& Touches(db, a, id) && a.step.verb.Resume? && !a.step.verb.resolution.decision.Cancel?
        && id in db.runs && !db.runs[id].Durable()
        && db.runs[id].tenant == tenant && db.runs[id].asked.concurrencyKey == Some(key))
  }

  lemma ResumedInProcessRuns(db: Db, r: Run, verb: Verb, now: Time)
    requires RowInv(r) && !verb.Claim? && VerbVerdict(db, r, verb, now).Changed?
    requires verb.Finish? ==> verb.ending.status.Final()
    ensures
      var after := VerbVerdict(db, r, verb, now).run;
      && (!r.status.Running? ==>
            (after.status.Running? <==> verb.Resume? && !verb.resolution.decision.Cancel? && !r.Durable()))
      && (r.status.Running? ==> !verb.Resume?)
  {
  }

  /** One step that is no claim: the run joins those running with the key exactly then. */
  lemma JoinsOnlyInProcess(db: Db, a: Action, id: string, tenant: string, key: string)
    requires DbInv(db) && !(a.step.OnRun? && a.step.verb.Claim?)
    ensures JoinsInProcess(db, a, id, tenant, key) <==>
      id in RunningWithKey(Next(db, a), tenant, key) && id !in RunningWithKey(db, tenant, key)
  {
    hide Next;
    if id in db.runs && id in Next(db, a).runs {
      RowAfter(db, a, id);
      if Touches(db, a, id) {
        Touched(db, a, id);
        ChangeKeepsRow(db, db.runs[id], a.step.verb, a.now);
        ResumedInProcessRuns(db, db.runs[id], a.step.verb, a.now);
      }
    } else if id !in db.runs && id in Next(db, a).runs {
      BornByStart(db, a, id);
      StartedByInsert(db, a, id);
    } else if id in db.runs {
      NotJoiningGone(db, a, id);
    } else {
      NotJoiningNew(db, a, id);
    }
  }

  lemma StartedByInsert(db: Db, a: Action, id: string)
    requires id !in db.runs && a.step.Start? && a.step.id == id
    ensures id in Next(db, a).runs <==> Inserts(db, id, a.step.owner, a.step.key)
  {
  }

  lemma NotJoiningGone(db: Db, a: Action, id: string)
    requires id in db.runs && id !in Next(db, a).runs
    ensures a.step.Purge?
  {
  }

  lemma NotJoiningNew(db: Db, a: Action, id: string)
    requires id !in db.runs && id !in Next(db, a).runs
    ensures !Touches(db, a, id) && !(a.step.Start? && a.step.id == id && Inserts(db, id, a.step.owner, a.step.key))
  {
  }

  /** A step that joins a run in its caller's process to a key's runs takes them past the limit exactly
      when they had no place left: nothing holds it back. */
  lemma GoesPastExactlyWhenFull(db: Db, a: Action, id: string, tenant: string, key: string, perKey: int)
    requires DbInv(db) && !(a.step.OnRun? && a.step.verb.Claim?) && JoinsInProcess(db, a, id, tenant, key)
    ensures |RunningWithKey(Next(db, a), tenant, key)| == |RunningWithKey(db, tenant, key)| + 1
    ensures |RunningWithKey(Next(db, a), tenant, key)| > perKey <==> |RunningWithKey(db, tenant, key)| >= perKey
  {
    hide Next, JoinsInProcess;
    var before, after := RunningWithKey(db, tenant, key), RunningWithKey(Next(db, a), tenant, key);
    JoinsOnlyInProcess(db, a, id, tenant, key);
    OthersStay(db, a, id, tenant, key);
    assert after == before + {id};
  }

  lemma OthersStay(db: Db, a: Action, id: string, tenant: string, key: string)
    requires JoinsInProcess(db, a, id, tenant, key)
    ensures forall other :: other != id ==>
      (other in RunningWithKey(Next(db, a), tenant, key) <==> other in RunningWithKey(db, tenant, key))
  {
    hide Next;
    forall other | other != id
      ensures other in RunningWithKey(Next(db, a), tenant, key) <==> other in RunningWithKey(db, tenant, key)
    {
      if other in db.runs {
        LockedRowStays(db, a, other);
      } else if other in Next(db, a).runs {
        BornByStart(db, a, other);
      }
    }
  }

  /** It does happen: two starts in the caller's process, and a key that allows one. */
  lemma InProcessRunsAreNotHeldBack()
    ensures
      var asked := Asked("a", None, None, 0, Some("k"), "");
      var trace := [Action(Start("x", "t", asked, None, false), 0.0), Action(Start("y", "t", asked, None, false), 0.0)];
      |RunningWithKey(After(trace, 2), "t", "k")| == 2 && LeasedWithKey(After(trace, 2), "t", "k") == {}
  {
    var asked := Asked("a", None, None, 0, Some("k"), "");
    var trace := [Action(Start("x", "t", asked, None, false), 0.0), Action(Start("y", "t", asked, None, false), 0.0)];
    var one := Next(EMPTY, trace[0]);
    var two := Next(one, trace[1]);
    assert After(trace, 1) == Next(After(trace, 0), trace[0]) == one;
    assert After(trace, 2) == Next(After(trace, 1), trace[1]) == two;
    assert RunningWithKey(two, "t", "k") == {"x", "y"};
  }
}
