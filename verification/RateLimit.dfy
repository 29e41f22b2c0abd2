/** The per-tenant request budget: a token bucket kept as one time, the virtual scheduling algorithm
    of the generic cell rate algorithm in Annex A of ITU-T I.371. Times are exact. */
module RateLimit {
  import opened Domain

  /** `perMinute` requests a minute, at most `burst` at once. */
  datatype Rate = Rate(perMinute: int, burst: int)
  {
    predicate Valid() {
      perMinute > 0 && burst >= 1
    }

    function Interval(): (i: Time)
      requires Valid()
      ensures i > 0.0
    {
      60.0 / perMinute as real
    }

    function Tolerance(): Time
      requires Valid()
    {
      Interval() * (burst - 1) as real
    }
  }

  datatype Decision = Decision(allowed: bool, limit: int, remaining: int, retryAfter: int)

  function Max(a: int, b: int): int {
    if a >= b then a else b
  }

  function Ceiling(x: real): int {
    -((-x).Floor)
  }

  /** Where the budget would be full again, or now. */
  function Due(tat: Option<Time>, clock: Time): Time {
    if tat.None? then clock else Later(tat.value, clock)
  }

  predicate Allows(rate: Rate, tat: Option<Time>, clock: Time)
    requires rate.Valid()
  {
    tat.None? || Due(tat, clock) - clock <= rate.Tolerance()
  }

  /** The row after a request. */
  function TatAfter(rate: Rate, tat: Option<Time>, clock: Time): Option<Time>
    requires rate.Valid()
  {
    if Allows(rate, tat, clock) then Some(Due(tat, clock) + rate.Interval()) else tat
  }

  function Decided(rate: Rate, tat: Option<Time>, clock: Time): Decision
    requires rate.Valid()
  {
    if Allows(rate, tat, clock) then
      var left := rate.burst as real - (TatAfter(rate, tat, clock).value - clock) / rate.Interval();
      Decision(true, rate.perMinute, Max(0, left.Floor), 0)
    else
      Decision(false, rate.perMinute, 0, Max(1, Ceiling(tat.value - clock - rate.Tolerance())))
  }

  /** What a request is told, or the TypeError it dies of. */
  datatype Answer = Told(decision: Decision) | Raised

  /** The statement decides on the row as it stands once it has the row's lock; but a refusal's wait is
      told from `seen`, the row in the snapshot the statement began with. */
  function Answering(rate: Rate, tat: Option<Time>, seen: Option<Time>, clock: Time): Answer
    requires rate.Valid()
  {
    if Allows(rate, tat, clock) then Told(Decided(rate, tat, clock))
    else if seen.None? then Raised
    else Told(Decision(false, rate.perMinute, 0, Max(1, Ceiling(seen.value - clock - rate.Tolerance()))))
  }

  class TenantRateLimiter {
    const rate: Rate
    var buckets: map<string, Time>

    constructor (rate: Rate)
      ensures this.rate == rate && buckets == map[]
    {
      this.rate := rate;
      buckets := map[];
    }

    function Tat(tenant: string): Option<Time>
      reads this
    {
      if tenant in buckets then Some(buckets[tenant]) else None
    }

    /** Insert a first row, or move the one there unless that would overdraw the burst. `seen` is the
        row's time in the statement's snapshot, which a concurrent request may have moved since. */
    method Take(tenant: string, clock: Time, seen: Option<Time>) returns (answer: Answer)
      requires rate.Valid()
      modifies this`buckets
      ensures answer == Answering(rate, old(Tat(tenant)), seen, clock)
      ensures Tat(tenant) == TatAfter(rate, old(Tat(tenant)), clock)
      ensures forall other :: other != tenant ==> Tat(other) == old(Tat(other))
    {
      hide Rate.Interval, Rate.Tolerance, Ceiling;
      var interval, tolerance := rate.Interval(), rate.Tolerance();
      var took: Option<Time> := None;
      if tenant !in buckets {
        took := Some(clock + interval);
      } else {
        var due := Later(buckets[tenant], clock);
        if due - clock <= tolerance {
          took := Some(due + interval);
        }
      }
      if took.Some? {
        buckets := buckets[tenant := took.value];
        var left := rate.burst as real - (took.value - clock) / interval;
        return Told(Decision(true, rate.perMinute, Max(0, left.Floor), 0));
      }
      if seen.None? {
        return Raised;
      }
      var wait := seen.value - clock - tolerance;
      return Told(Decision(false, rate.perMinute, 0, Max(1, Ceiling(wait))));
    }
  }

  // ---------------------------------------------------------------- the bound in any window

  /** The row after the first `n` requests, which come with these clocks in this order. */
  function TatAt(rate: Rate, clocks: seq<Time>, n: nat): Option<Time>
    requires rate.Valid() && n <= |clocks|
  {
    if n == 0 then None else TatAfter(rate, TatAt(rate, clocks, n - 1), clocks[n - 1])
  }

  predicate AllowedAt(rate: Rate, clocks: seq<Time>, i: nat)
    requires rate.Valid() && i < |clocks|
  {
    Allows(rate, TatAt(rate, clocks, i), clocks[i])
  }

  /** The requests allowed among the first `n` whose clock is in the window. */
  function AllowedWithin(rate: Rate, clocks: seq<Time>, n: nat, from: Time, to: Time): nat
    requires rate.Valid() && n <= |clocks|
  {
    if n == 0 then 0
    else
      AllowedWithin(rate, clocks, n - 1, from, to)
      + if AllowedAt(rate, clocks, n - 1) && from <= clocks[n - 1] <= to then 1 else 0
  }

  /** `n` intervals. */
  function Times(n: int, i: Time): Time {
    n as real * i
  }

  lemma OneMore(n: int, i: Time)
    ensures Times(n + 1, i) == Times(n, i) + i && Times(0, i) == 0.0
  {
  }

  /** An allowed request pushes the row at least one interval on, and past its own clock by at
      least one interval and at most the burst. */
  lemma AllowedPushes(rate: Rate, tat: Option<Time>, clock: Time)
    requires rate.Valid() && Allows(rate, tat, clock)
    ensures
      var after := TatAfter(rate, tat, clock);
      && after.Some?
      && clock + rate.Interval() <= after.value <= clock + Times(rate.burst, rate.Interval())
      && (tat.Some? ==> after.value >= tat.value + rate.Interval())
  {
    OneMore(rate.burst - 1, rate.Interval());
    ToleranceInTokens(rate);
  }

  /** The window's allowed requests have pushed the row as many intervals from its start, and never
      further than the burst past its end. */
  lemma {:induction false} WindowPushes(rate: Rate, clocks: seq<Time>, n: nat, from: Time, to: Time)
    requires rate.Valid() && n <= |clocks|
    ensures
      var count := AllowedWithin(rate, clocks, n, from, to);
      count > 0 ==>
        && TatAt(rate, clocks, n).Some?
        && TatAt(rate, clocks, n).value >= from + Times(count, rate.Interval())
        && Times(count, rate.Interval()) <= (to - from) + Times(rate.burst, rate.Interval())
  {
    hide Times, Allows, TatAfter, Rate.Interval;
    if n > 0 {
      WindowPushes(rate, clocks, n - 1, from, to);
      OneMore(AllowedWithin(rate, clocks, n - 1, from, to), rate.Interval());
      if AllowedAt(rate, clocks, n - 1) {
        AllowedPushes(rate, TatAt(rate, clocks, n - 1), clocks[n - 1]);
      } else {
        RefusedStays(rate, TatAt(rate, clocks, n - 1), clocks[n - 1]);
      }
    }
  }

  lemma RefusedStays(rate: Rate, tat: Option<Time>, clock: Time)
    requires rate.Valid() && !Allows(rate, tat, clock)
    ensures TatAfter(rate, tat, clock) == tat
  {
  }

  /** In any window of any length, in whatever order clocks and commits fall, at most the burst and
      `perMinute` requests for each minute of it are allowed. */
  lemma AtMostBurstPlusRate(rate: Rate, clocks: seq<Time>, from: Time, to: Time)
    requires rate.Valid() && from <= to
    ensures AllowedWithin(rate, clocks, |clocks|, from, to) as real <= rate.burst as real + (to - from) * rate.perMinute as real / 60.0
  {
    hide AllowedWithin, Rate.Interval, Times, TatAt;
    WindowPushes(rate, clocks, |clocks|, from, to);
    var count := AllowedWithin(rate, clocks, |clocks|, from, to);
    InIntervals(count, rate.burst, to - from, rate.Interval());
    PerMinute(rate, to - from);
  }

  /** So many intervals in a time as the settings allow requests in it. */
  lemma PerMinute(rate: Rate, length: Time)
    requires rate.Valid()
    ensures length / rate.Interval() == length * rate.perMinute as real / 60.0
  {
    var i, p := rate.Interval(), rate.perMinute as real;
    Quotient(60.0, p);
    assert i * p == 60.0;
    Quotient(length, i);
    assert length / i * i * p == length * p;
    assert length / i * 60.0 == length * p;
  }

  lemma InIntervals(count: nat, burst: int, length: Time, i: Time)
    requires i > 0.0 && length >= 0.0 && burst >= 1
    requires count > 0 ==> Times(count, i) <= length + Times(burst, i)
    ensures count as real <= burst as real + length / i
  {
    Quotient(length, i);
    if count > 0 {
      assert (burst as real + length / i) * i == Times(burst, i) + length;
      CancelFactor(count as real, burst as real + length / i, i);
    }
  }

  lemma Quotient(x: real, i: real)
    requires i > 0.0
    ensures x / i * i == x
    ensures x >= 0.0 ==> x / i >= 0.0
  {
  }

  lemma CancelFactor(a: real, b: real, i: real)
    requires i > 0.0
    ensures a * i <= b * i ==> a <= b
  {
    if a > b {
      assert (a - b) * i > 0.0;
      assert a * i - b * i == (a - b) * i;
    }
  }

  // ---------------------------------------------------------------- the token bucket it refines

  /** The textbook bucket: how many tokens it held when it was last looked at. It holds `burst` at most and
      gains `perMinute` a minute. */
  datatype Bucket = Bucket(tokens: real, at: Time)

  function Refilled(rate: Rate, b: Bucket, now: Time): Bucket
    requires rate.Valid()
  {
    Bucket(Least(rate.burst as real, b.tokens + (now - b.at) * rate.perMinute as real / 60.0), now)
  }

  function TakenFrom(rate: Rate, b: Bucket, now: Time): Bucket
    requires rate.Valid()
  {
    var full := Refilled(rate, b, now);
    if full.tokens >= 1.0 then full.(tokens := full.tokens - 1.0) else full
  }

  /** The tokens a row stands for: a full bucket, less one for each interval the row is ahead. */
  function Tokens(rate: Rate, tat: Option<Time>, clock: Time): real
    requires rate.Valid()
  {
    rate.burst as real - (Due(tat, clock) - clock) / rate.Interval()
  }

  lemma AheadInTokens(x: real, y: real, i: real)
    requires i > 0.0
    ensures (x + y) / i == x / i + y / i
    ensures x <= y <==> x / i <= y / i
    ensures i / i == 1.0 && 0.0 / i == 0.0
  {
    Quotient(x, i);
    Quotient(y, i);
    CancelFactor(x / i, y / i, i);
    CancelFactor(y / i, x / i, i);
  }

  /** Waiting refills the row's bucket as the textbook one. */
  lemma WaitingRefills(rate: Rate, tat: Option<Time>, clock: Time, now: Time)
    requires rate.Valid() && clock <= now
    ensures Tokens(rate, tat, now) == Refilled(rate, Bucket(Tokens(rate, tat, clock), clock), now).tokens
  {
    var i := rate.Interval();
    var ahead := Due(tat, clock) - clock;
    var passed := now - clock;
    PerMinute(rate, passed);
    assert Due(tat, now) - now == if ahead >= passed then ahead - passed else 0.0;
    AheadInTokens(ahead, -passed, i);
    AheadInTokens(passed, -passed, i);
    AheadInTokens(ahead, passed, i);
    assert ahead + -passed == ahead - passed;
    assert passed + -passed == 0.0;
  }

  /** A request is allowed exactly when the bucket holds a token; it takes one, and `remaining` says
      how many whole ones are left. */
  lemma TakesAToken(rate: Rate, tat: Option<Time>, clock: Time)
    requires rate.Valid()
    ensures Allows(rate, tat, clock) <==> Tokens(rate, tat, clock) >= 1.0
    ensures
      var after := TatAfter(rate, tat, clock);
      && Tokens(rate, after, clock) == Tokens(rate, tat, clock) - (if Allows(rate, tat, clock) then 1.0 else 0.0)
      && (Allows(rate, tat, clock) ==>
            && Tokens(rate, after, clock) >= 0.0
            && Decided(rate, tat, clock).remaining == Tokens(rate, after, clock).Floor)
  {
    var i := rate.Interval();
    var ahead := Due(tat, clock) - clock;
    AheadInTokens(ahead, i, i);
    AheadInTokens(ahead, rate.Tolerance(), i);
    ToleranceInTokens(rate);
    if Allows(rate, tat, clock) {
      assert Due(TatAfter(rate, tat, clock), clock) - clock == ahead + i;
    }
  }

  lemma ToleranceInTokens(rate: Rate)
    requires rate.Valid()
    ensures rate.Tolerance() / rate.Interval() == (rate.burst - 1) as real
    ensures rate.Tolerance() >= 0.0
  {
    var i, b := rate.Interval(), (rate.burst - 1) as real;
    Quotient(rate.Tolerance(), i);
    assert rate.Tolerance() == b * i;
    CancelFactor(rate.Tolerance() / i, b, i);
    CancelFactor(b, rate.Tolerance() / i, i);
  }

  /** The textbook bucket after the first `n` requests, full to begin with. */
  function BucketAt(rate: Rate, clocks: seq<Time>, n: nat): Bucket
    requires rate.Valid() && 0 < n <= |clocks|
  {
    var before := if n == 1 then Bucket(rate.burst as real, clocks[0]) else BucketAt(rate, clocks, n - 1);
    TakenFrom(rate, before, clocks[n - 1])
  }

  /** Over any requests whose clocks do not go back, every decision and every `remaining` is the
      token bucket's. */
  lemma {:induction false} RefinesTokenBucket(rate: Rate, clocks: seq<Time>, n: nat)
    requires rate.Valid() && 0 < n <= |clocks|
    requires forall i, j :: 0 <= i <= j < |clocks| ==> clocks[i] <= clocks[j]
    ensures BucketAt(rate, clocks, n).at == clocks[n - 1]
    ensures BucketAt(rate, clocks, n).tokens == Tokens(rate, TatAt(rate, clocks, n), clocks[n - 1])
    ensures
      var before := if n == 1 then Bucket(rate.burst as real, clocks[0]) else BucketAt(rate, clocks, n - 1);
      var d := Decided(rate, TatAt(rate, clocks, n - 1), clocks[n - 1]);
      && (d.allowed <==> Refilled(rate, before, clocks[n - 1]).tokens >= 1.0)
      && (d.allowed ==> d.remaining == BucketAt(rate, clocks, n).tokens.Floor && d.retryAfter == 0)
      && (!d.allowed ==> d.remaining == 0)
      && d.limit == rate.perMinute
  {
    hide Refilled, Tokens, Decided, TatAfter;
    var clock, tat := clocks[n - 1], TatAt(rate, clocks, n - 1);
    TakesAToken(rate, tat, clock);
    SaysAllowed(rate, tat, clock);
    if n == 1 {
      FullToBeginWith(rate, clock);
    } else {
      RefinesTokenBucket(rate, clocks, n - 1);
      WaitingRefills(rate, tat, clocks[n - 2], clock);
    }
    RefilledAt(rate, if n == 1 then Bucket(rate.burst as real, clocks[0]) else BucketAt(rate, clocks, n - 1), clock);
  }

  lemma SaysAllowed(rate: Rate, tat: Option<Time>, clock: Time)
    requires rate.Valid()
    ensures Decided(rate, tat, clock).allowed <==> Allows(rate, tat, clock)
    ensures Decided(rate, tat, clock).limit == rate.perMinute
    ensures if Allows(rate, tat, clock) then Decided(rate, tat, clock).retryAfter == 0 else Decided(rate, tat, clock).remaining == 0
  {
  }

  lemma RefilledAt(rate: Rate, b: Bucket, now: Time)
    requires rate.Valid()
    ensures Refilled(rate, b, now).at == now
  {
  }

  lemma FullToBeginWith(rate: Rate, clock: Time)
    requires rate.Valid()
    ensures Tokens(rate, None, clock) == rate.burst as real
    ensures Refilled(rate, Bucket(rate.burst as real, clock), clock).tokens == rate.burst as real
  {
    AheadInTokens(0.0, 0.0, rate.Interval());
  }

  // ---------------------------------------------------------------- when to come back

  /** A refused caller, alone: refused until exactly the time the row is ahead of the burst's has passed,
      and allowed at the Retry-After it was told, which rounds that wait up to whole seconds, at least one. */
  lemma ComeBackAfter(rate: Rate, tat: Time, clock: Time, later: Time)
    requires rate.Valid() && !Allows(rate, Some(tat), clock) && clock <= later
    ensures
      var wait := tat - clock - 60.0 * (rate.burst - 1) as real / rate.perMinute as real;
      var retry := Decided(rate, Some(tat), clock).retryAfter;
      && wait > 0.0
      && (Allows(rate, Some(tat), later) <==> later >= clock + wait)
      && Allows(rate, Some(tat), clock + retry as real)
      && retry >= 1 && wait <= retry as real < Later(wait + 1.0, 2.0)
  {
    ToleranceInTokens(rate);
    ToleranceIs(rate);
  }

  lemma ToleranceIs(rate: Rate)
    requires rate.Valid()
    ensures rate.Tolerance() == 60.0 * (rate.burst - 1) as real / rate.perMinute as real
  {
    var b, p := (rate.burst - 1) as real, rate.perMinute as real;
    Quotient(60.0, p);
    Quotient(60.0 * b, p);
    assert rate.Tolerance() * p == 60.0 / p * p * b == 60.0 * b;
    SameQuotient(rate.Tolerance(), 60.0 * b / p, p);
  }

  lemma SameQuotient(x: real, y: real, p: real)
    requires p > 0.0 && x * p == y * p
    ensures x == y
  {
    CancelFactor(x, y, p);
    CancelFactor(y, x, p);
  }

  // ---------------------------------------------------------------- concurrent requests

  lemma {:induction false} TatNeverFalls(rate: Rate, clocks: seq<Time>, i: nat, j: nat)
    requires rate.Valid() && i <= j <= |clocks|
    ensures TatAt(rate, clocks, i).Some? ==>
      TatAt(rate, clocks, j).Some? && TatAt(rate, clocks, i).value <= TatAt(rate, clocks, j).value
    ensures 0 < j ==> TatAt(rate, clocks, j).Some?
    decreases j
  {
    if i < j {
      TatNeverFalls(rate, clocks, i, j - 1);
    } else if 0 < j {
      TatNeverFalls(rate, clocks, j - 1, j - 1);
    }
  }

  /** Requests take effect in some order, the `n`-th with the snapshot its statement began with, which
      has the first `saw` of them. Whether it is allowed and what remains are as if it ran alone. A
      refused request dies exactly when it saw no row; else it is told a wait no longer than the true
      one, and the true one when the row has not moved since. */
  lemma StaleSnapshot(rate: Rate, clocks: seq<Time>, n: nat, saw: nat)
    requires rate.Valid() && saw <= n < |clocks|
    ensures
      var tat, seen, clock := TatAt(rate, clocks, n), TatAt(rate, clocks, saw), clocks[n];
      var answer, alone := Answering(rate, tat, seen, clock), Decided(rate, tat, clock);
      && (answer.Raised? <==> !Allows(rate, tat, clock) && saw == 0)
      && (answer.Told? ==>
            && answer.decision.(retryAfter := 0) == alone.(retryAfter := 0)
            && answer.decision.retryAfter <= alone.retryAfter
            && (alone.allowed || seen == tat ==> answer.decision == alone))
  {
    var tat, clock := TatAt(rate, clocks, n), clocks[n];
    TatNeverFalls(rate, clocks, saw, n);
    TatNeverFalls(rate, clocks, saw, saw);
    if saw > 0 && !Allows(rate, tat, clock) {
      CeilingGrows(TatAt(rate, clocks, saw).value - clock - rate.Tolerance(), tat.value - clock - rate.Tolerance());
    }
  }

  lemma CeilingGrows(a: real, b: real)
    requires a <= b
    ensures Ceiling(a) <= Ceiling(b)
  {
  }

  /** Two first requests at once, with a burst of one: the second waits for the first's row, is
      refused by it, and has no row in its snapshot to tell a wait from. */
  lemma SecondOfTwoFirstsRaises()
    ensures
      var rate := Rate(60, 1);
      rate.Valid() && Answering(rate, TatAt(rate, [0.0, 0.0], 1), TatAt(rate, [0.0, 0.0], 0), 0.0) == Raised
  {
    var rate := Rate(60, 1);
    assert rate.Interval() == 1.0 && rate.Tolerance() == 0.0;
    assert TatAt(rate, [0.0, 0.0], 0).None?;
    assert TatAt(rate, [0.0, 0.0], 1) == Some(1.0);
  }
}
