/** The records the run store keeps, the one transition rule, and the retry policy. */
module Domain {

  datatype Option<+T> = None | Some(value: T)

  /** An instant, and a length of time, in seconds. Nothing in the stores reads the clock. */
  type Time = real

  /** A JSON document the service stores and never looks into. */
  type Json = string

  const MIN_LEASE_SECONDS: Time := 5.0
  const MAX_LEASE_SECONDS: Time := 3600.0
  const MAX_LEASE_LAPSES := 5
  const LAPSE_RETRY_BASE: Time := 5.0
  const LAPSE_RETRY_CAP: Time := 60.0
  const MAX_ERROR_RETRIES := 3
  const ERROR_RETRY_BASE: Time := 10.0
  const ERROR_RETRY_CAP: Time := 600.0
  const ARTIFACT_RETENTION: Time := 604800.0
  const PAUSED_ARTIFACT_ROLE := "service"

  // ---------------------------------------------------------------- the state machine

  datatype Status =
    | Queued | Running | Paused
    | Success | Partial | Error | Timeout | Cancelled | Rejected
  {
    predicate Final() {
      !Queued? && !Running? && !Paused?
    }

    /** The contracts' one rule, as the state-machine tests and the lifecycle diagram spell it
        out: anything may follow RUNNING but itself; a queued or waiting run ends only by a
        cancel or a timeout; nothing follows an ending. */
    predicate CanBecome(to: Status) {
      match this
      case Queued => to.Running? || to.Cancelled? || to.Timeout?
      case Running => !to.Running?
      case Paused => to.Running? || to.Queued? || to.Cancelled? || to.Timeout?
      case _ => false
    }
  }

  // ---------------------------------------------------------------- records

  /** What a paused run waits on. */
  datatype Interrupt = Interrupt(
    tenant: string, run: string, id: string,
    assignee: Option<string>, escalateTo: Option<string>, deadline: Option<Time>, question: Json)

  datatype Decision = Approve | Answer | Edit | Reject | Cancel

  /** A person's answer to an interrupt; `content` carries its reviewer, payload and
      `resolved_at`, so two answers are equal exactly when they are the very same answer. */
  datatype Resolution = Resolution(run: string, interrupt: string, decision: Decision, content: Json)

  /** A row of run_resolutions. */
  datatype Answered = Answered(tenant: string, resolution: Resolution, asked: Interrupt, attempt: int)

  /** What a start asks for (the fields a repeated idempotency key is compared on). */
  datatype Asked = Asked(
    agent: string, deadline: Option<Time>, timeout: Option<Time>,
    priority: int, concurrencyKey: Option<string>, rest: Json)

  datatype Failure = Failure(code: string, retryable: bool)

  /** How a worker says a run ended. */
  datatype Ending = Ending(status: Status, output: Option<Json>, error: Option<Failure>)

  /** A row of agent_runs. */
  datatype Run = Run(
    tenant: string,
    asked: Asked,
    idempotencyKey: Option<string>,
    status: Status,
    attempt: int,
    leaseLapses: int,
    errorRetries: int,
    worked: Time,
    runningSince: Option<Time>,
    queuedAt: Option<Time>,
    availableAt: Option<Time>,
    leaseOwner: Option<string>,
    leaseExpiresAt: Option<Time>,
    settledBy: Option<string>,
    cancelRequestedAt: Option<Time>,
    cancelReason: Option<string>,
    cancelledBy: Option<string>,
    awaiting: Option<Interrupt>,
    assignee: Option<string>,
    awaitingDeadline: Option<Time>,
    checkpoint: Option<Json>,
    lastResolution: Option<Resolution>,
    output: Option<Json>,
    error: Option<Failure>,
    updatedAt: Time)
  {
    /** Some worker has it; shares and caps are counts of such runs. */
    predicate Leased() {
      status.Running? && leaseOwner.Some?
    }

    /** It was on the queue at least once, so a worker resumes it. */
    predicate Durable() {
      queuedAt.Some?
    }

    predicate WaitsOn(interrupt: string) {
      awaiting.Some? && awaiting.value.id == interrupt
    }
  }

  /** Why an operation is refused. `Integrity` is a unique key the database would not take twice:
      the transaction is rolled back. */
  datatype Fault = NotFound | Conflict | LeaseLost | Unprocessable | Forbidden | Integrity

  // ---------------------------------------------------------------- the retry policy

  function Pow2(n: nat): (p: nat)
    ensures p >= 1
  {
    if n == 0 then 1 else 2 * Pow2(n - 1)
  }

  function Least(a: Time, b: Time): Time {
    if a <= b then a else b
  }

  function Later(a: Time, b: Time): Time {
    if a >= b then a else b
  }

  /** The wait after the `failures`-th failure in a row: doubling, capped. */
  function Backoff(base: Time, failures: int, cap: Time): Time {
    Least(base * Pow2(if failures >= 1 then failures - 1 else 0) as real, cap)
  }

  /** The first wait is the base, each next one twice the one before, and none is over the cap. */
  lemma WaitsDouble(base: Time, failures: int, cap: Time)
    requires base >= 0.0 && cap >= 0.0
    ensures failures <= 1 ==> Backoff(base, failures, cap) == Least(base, cap)
    ensures failures >= 1 ==> Backoff(base, failures + 1, cap) == Least(2.0 * Backoff(base, failures, cap), cap)
  {
    if failures >= 1 {
      var p := Pow2(failures - 1) as real;
      assert Pow2(failures) as real == 2.0 * p;
      assert base * (2.0 * p) == 2.0 * (base * p) && base * p >= 0.0;
    }
  }

  /** `wait` spread over its upper half; `draw` is the random number, in [0, 1/2]. */
  function Jittered(wait: Time, draw: real): Time {
    wait / 2.0 + wait * draw
  }
}
