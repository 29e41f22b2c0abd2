/** The four tables of the run store, and every committed operation on them as one step. A trace
    is any sequence of operations from the empty database, whoever calls them. */
module Database {
  import opened Domain
  import opened Transitions

  /** An event as a worker sends it. */
  datatype RunEvent = RunEvent(tenant: string, run: string, attempt: int, sequence: int, body: Json)

  /** A row of run_events. */
  datatype LogEntry = LogEntry(position: int, event: RunEvent)

  /** A row of run_artifacts. */
  datatype Artifact = Artifact(run: string, checksum: string, expiresAt: Option<Time>)

  /** `resolutions` is keyed by the run and the interrupt, which the stored id is derived from. */
  datatype Db = Db(
    runs: map<string, Run>,
    resolutions: map<(string, string), Answered>,
    logs: map<string, seq<LogEntry>>,
    artifacts: map<string, Artifact>)
  {
    function Log(id: string): seq<LogEntry> {
      if id in logs then logs[id] else []
    }
  }

  const EMPTY := Db(map[], map[], map[], map[])

  // ---------------------------------------------------------------- operations

  /** An operation on one run's row, under its lock. The Booleans are the answers of code outside
      the store: does `expects` hold a JSON Schema, may this key answer or cancel, does the answer
      fit the question. A `draw` is the jitter's random number. */
  datatype Verb =
    | Pause(interrupt: Interrupt, schemaOk: bool, state: Option<Json>, worker: Option<string>)
    | Resume(resolution: Resolution, mayAnswer: bool, fits: bool)
    | Cancel(reason: Option<string>, principal: string, mayCancel: bool)
    | Finish(ending: Ending, worker: Option<string>, draw: real)
    | Claim(agents: set<string>, claimer: string, seconds: Time)
    | Heartbeat(holder: string, seconds: Time, state: Option<Json>)
    | Release(holder: string, state: Option<Json>)
    | TimeOutPastDeadline
    | TimeOutOverworked(service: Option<Time>)
    | RequeueLapsed(draw: real)
    | EscalateOverdue
  {
    /** The worker the call names, if any: whose write the lease fences. */
    function Names(): Option<string> {
      match this
      case Pause(_, _, _, worker) => worker
      case Finish(_, worker, _) => worker
      case Heartbeat(holder, _, _) => Some(holder)
      case Release(holder, _) => Some(holder)
      case _ => None
    }
  }

  datatype Step =
    | Start(id: string, owner: string, asked: Asked, key: Option<string>, queue: bool)
    | OnRun(id: string, tenant: Option<string>, verb: Verb)
    | Append(id: string, owner: string, events: seq<RunEvent>, writer: Option<string>)
    | AddArtifact(id: string, owner: string, artifact: string, checksum: string,
                  writer: Option<string>, role: string)
    | RemoveArtifact(artifact: string)
    | Purge(id: string, before: Time)

  datatype Action = Action(step: Step, now: Time)

  // ---------------------------------------------------------------- one run's row

  /** The tenant's own run; claims and sweeps (`tenant` None) see every tenant's. */
  predicate Visible(db: Db, id: string, tenant: Option<string>) {
    id in db.runs && (tenant.None? || db.runs[id].tenant == tenant.value)
  }

  function Kept(db: Db, tenant: string, resolution: Resolution): Option<Resolution> {
    var key := (resolution.run, resolution.interrupt);
    if key in db.resolutions && db.resolutions[key].tenant == tenant then Some(db.resolutions[key].resolution)
    else None
  }

  function VerbVerdict(db: Db, r: Run, verb: Verb, now: Time): Verdict {
    match verb
    case Pause(interrupt, _, state, worker) => PauseVerdict(r, interrupt, state, worker, now)
    case Resume(resolution, mayAnswer, fits) =>
      ResumeVerdict(r, resolution, Kept(db, r.tenant, resolution),
                    (resolution.run, resolution.interrupt) in db.resolutions, mayAnswer, fits, now)
    case Cancel(reason, principal, mayCancel) => CancelVerdict(r, reason, principal, mayCancel, now)
    case Finish(ending, worker, draw) => FinishVerdict(r, ending, worker, draw, now)
    case Claim(agents, claimer, seconds) => ClaimVerdict(r, agents, claimer, seconds, now)
    case Heartbeat(holder, seconds, state) => HeartbeatVerdict(r, holder, seconds, state, now)
    case Release(holder, state) => ReleaseVerdict(r, holder, state, now)
    case TimeOutPastDeadline => DeadlineVerdict(r, now)
    case TimeOutOverworked(service) => OverworkVerdict(r, service, now)
    case RequeueLapsed(draw) => LapseVerdict(r, draw, now)
    case EscalateOverdue => EscalateVerdict(r, now)
  }

  /** What a request is refused for before the row is even read. */
  predicate Malformed(id: string, tenant: Option<string>, verb: Verb) {
    match verb
    case Pause(interrupt, schemaOk, _, _) =>
      tenant != Some(interrupt.tenant) || interrupt.run != id || !schemaOk
    case Resume(resolution, _, _) => resolution.run != id
    case Finish(ending, _, _) => !ending.status.Final()
    case _ => false
  }

  function Reply(db: Db, id: string, tenant: Option<string>, verb: Verb, now: Time): Verdict {
    if Malformed(id, tenant, verb) then Refused(Unprocessable)
    else if !Visible(db, id, tenant) then Refused(NotFound)
    else VerbVerdict(db, db.runs[id], verb, now)
  }

  /** A run that just ended starts its artifacts' retention. */
  function Expired(artifacts: map<string, Artifact>, run: string, at: Time): map<string, Artifact> {
    map a | a in artifacts ::
      if artifacts[a].run == run && artifacts[a].expiresAt.None?
      then artifacts[a].(expiresAt := Some(at)) else artifacts[a]
  }

  function Written(db: Db, id: string, r: Run, now: Time): Db {
    db.(runs := db.runs[id := r],
        artifacts := if r.status.Final() then Expired(db.artifacts, id, now + ARTIFACT_RETENTION)
                     else db.artifacts)
  }

  function Recorded(db: Db, id: string, before: Run, verb: Verb): Db {
    if verb.Resume? && before.awaiting.Some? then
      db.(resolutions := db.resolutions[(id, verb.resolution.interrupt) :=
            Answered(before.tenant, verb.resolution, before.awaiting.value, before.attempt)])
    else db
  }

  // ---------------------------------------------------------------- starting

  predicate KeyTaken(db: Db, tenant: string, key: string) {
    exists id :: id in db.runs && db.runs[id].tenant == tenant && db.runs[id].idempotencyKey == Some(key)
  }

  predicate Inserts(db: Db, id: string, tenant: string, key: Option<string>) {
    id !in db.runs && (key.Some? ==> !KeyTaken(db, tenant, key.value))
  }

  function Started(tenant: string, asked: Asked, key: Option<string>, queue: bool, now: Time): Run {
    Run(tenant, asked, key, if queue then Queued else Running, 1, 0, 0,
        0.0, if queue then None else Some(now), if queue then Some(now) else None, None,
        None, None, None, None, None, None, None, None, None, None, None, None, None, now)
  }

  // ---------------------------------------------------------------- events and artifacts

  predicate Logged(log: seq<LogEntry>, e: RunEvent) {
    exists i :: 0 <= i < |log| && log[i].event.attempt == e.attempt && log[i].event.sequence == e.sequence
  }

  function LastPosition(log: seq<LogEntry>): (p: int)
    ensures p >= 0
    ensures forall i :: 0 <= i < |log| ==> log[i].position <= p
    ensures p == 0 || exists i :: 0 <= i < |log| && log[i].position == p
  {
    if log == [] then 0
    else
      var rest := LastPosition(log[..|log| - 1]);
      if log[|log| - 1].position > rest then log[|log| - 1].position else rest
  }

  /** Each event not logged yet goes at the next position. */
  function Appended(log: seq<LogEntry>, events: seq<RunEvent>): seq<LogEntry>
    decreases |events|
  {
    if events == [] then log
    else if Logged(log, events[0]) then Appended(log, events[1..])
    else Appended(log + [LogEntry(LastPosition(log) + 1, events[0])], events[1..])
  }

  /** Who may write to a RUNNING run: its lease holder, or the unnamed caller it runs in. */
  function HeldBy(r: Run, writer: Option<string>): Option<Fault> {
    if writer.None? && r.leaseOwner.Some? then Some(Conflict)
    else if writer != r.leaseOwner then Some(LeaseLost)
    else None
  }

  function AppendFault(db: Db, id: string, tenant: string, events: seq<RunEvent>, writer: Option<string>): Option<Fault>
  {
    if exists i :: 0 <= i < |events| && (events[i].tenant != tenant || events[i].run != id) then Some(Unprocessable)
    else if !Visible(db, id, Some(tenant)) then Some(NotFound)
    else if !db.runs[id].status.Running? then Some(if writer.Some? then LeaseLost else Conflict)
    else HeldBy(db.runs[id], writer)
  }

  function ArtifactFault(db: Db, id: string, tenant: string, writer: Option<string>, role: string): Option<Fault>
  {
    if !Visible(db, id, Some(tenant)) then Some(NotFound)
    else if db.runs[id].status.Running? then HeldBy(db.runs[id], writer)
    else if db.runs[id].status.Paused? then if role != PAUSED_ARTIFACT_ROLE then Some(Forbidden) else None
    else Some(if writer.Some? then LeaseLost else Conflict)
  }

  predicate HasContent(db: Db, run: string, checksum: string) {
    exists a :: a in db.artifacts && db.artifacts[a].run == run && db.artifacts[a].checksum == checksum
  }

  // ---------------------------------------------------------------- retention

  predicate Purgeable(db: Db, id: string, before: Time) {
    && id in db.runs
    && db.runs[id].status.Final()
    && db.runs[id].updatedAt < before
    && forall a :: a in db.artifacts ==> db.artifacts[a].run != id
  }

  function Purged(db: Db, id: string): Db {
    db.(runs := db.runs - {id},
        resolutions := map k | k in db.resolutions && k.0 != id :: db.resolutions[k],
        logs := db.logs - {id})
  }

  // ---------------------------------------------------------------- steps and traces

  function Next(db: Db, a: Action): Db {
    match a.step
    case Start(id, owner, asked, key, queue) =>
      if Inserts(db, id, owner, key) then
        db.(runs := db.runs[id := Started(owner, asked, key, queue, a.now)])
      else db
    case OnRun(id, tenant, verb) =>
      var answer := Reply(db, id, tenant, verb, a.now);
      if answer.Changed? then Written(Recorded(db, id, db.runs[id], verb), id, answer.run, a.now) else db
    case Append(id, owner, events, writer) =>
      if AppendFault(db, id, owner, events, writer).None? then
        db.(logs := db.logs[id := Appended(db.Log(id), events)])
      else db
    case AddArtifact(id, owner, artifact, checksum, writer, role) =>
      if && ArtifactFault(db, id, owner, writer, role).None?
         && !HasContent(db, id, checksum) && artifact !in db.artifacts then
        db.(artifacts := db.artifacts[artifact := Artifact(id, checksum, None)])
      else db
    case RemoveArtifact(artifact) =>
      if && artifact in db.artifacts && db.artifacts[artifact].expiresAt.Some?
         && db.artifacts[artifact].expiresAt.value < a.now then
        db.(artifacts := db.artifacts - {artifact})
      else db
    case Purge(id, before) =>
      if Purgeable(db, id, before) then Purged(db, id) else db
  }

  /** The database after the first `n` operations. */
  function After(trace: seq<Action>, n: nat): Db
    requires n <= |trace|
  {
    if n == 0 then EMPTY else Next(After(trace, n - 1), trace[n - 1])
  }

  /** The run is there from the `i`-th state to the `j`-th: one life of it. */
  ghost predicate Alive(trace: seq<Action>, id: string, i: nat, j: nat)
    requires i <= j <= |trace|
  {
    forall k :: i <= k <= j ==> id in After(trace, k).runs
  }

  /** Operations are given times that never go back, and leases a request may ask for. */
  ghost predicate Timely(trace: seq<Action>) {
    && (forall i, j :: 0 <= i <= j < |trace| ==> trace[i].now <= trace[j].now)
    && (forall i :: 0 <= i < |trace| ==> LeaseInBounds(trace[i].step))
  }

  predicate LeaseInBounds(step: Step) {
    step.OnRun? ==>
      && (step.verb.Claim? ==> MIN_LEASE_SECONDS <= step.verb.seconds <= MAX_LEASE_SECONDS)
      && (step.verb.Heartbeat? ==> MIN_LEASE_SECONDS <= step.verb.seconds <= MAX_LEASE_SECONDS)
  }
}
