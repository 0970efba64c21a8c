/** The retry loop over an optional circuit breaker, and the breaker-only handler. What the
    loop meets from outside is a list of moments, one an attempt. */
module Retry {
  import opened CircuitBreaker
  import opened GatewayConfig
  import opened Wrappers
  import BR = BreakerRuns

  const MAX_BODY := 10 * 1024 * 1024

  datatype Reply = Reply(code: int, body: seq<char>)

  /** A critical section of another request that shares the breaker. */
  datatype Section = Entry(now: int) | Exit(isProbe: bool, ok: bool, now: int)

  /** What one attempt meets: whether the client is gone before and after the sleep that
      precedes it; the sections of other requests since the attempt before it and during its
      call; the clock in its own two sections, the reply and the jitter. */
  datatype Moment = Moment(
    goneBefore: bool,
    goneAfter: bool,
    othersBefore: seq<Section>,
    admitAt: int,
    othersDuring: seq<Section>,
    reply: Reply,
    completeAt: int,
    jitter: real)

  // One moment for every attempt that the loop may come to.
  type Env = seq<Moment>

  /** The request's body: absent, readable or broken. */
  datatype Body = NoBody | Content(bytes: seq<char>) | Unreadable

  datatype Outcome =
    | Forwarded(reply: Reply)
    | CircuitIsOpen
    | Exhausted
    | ClientClosed
    | ReadFailed
    | TooLarge

  function Status(o: Outcome): int {
    match o
    case Forwarded(reply) => reply.code
    case CircuitIsOpen => 503
    case Exhausted => 502
    case ClientClosed => 499
    case ReadFailed => 502
    case TooLarge => 413
  }

  // ---------- Backoff ----------

  function Pow(m: real, k: nat): real {
    if k == 0 then 1.0 else m * Pow(m, k - 1)
  }

  /** The delay before jitter of the i-th retry, from 0. */
  function Delay(cfg: RetryConfig, i: nat): real {
    cfg.initialDelay as real * Pow(cfg.multiplier, i)
  }

  function Backoff(cfg: RetryConfig, attempt: nat, jitter: real): real
    requires attempt >= 1
  {
    Delay(cfg, attempt - 1) * jitter
  }

  /** The total slept before attempts 1 to k. */
  function Slept(cfg: RetryConfig, env: Env, k: nat): real
    requires k == 0 || k < |env|
  {
    if k == 0 then 0.0 else Slept(cfg, env, k - 1) + Backoff(cfg, k, env[k].jitter)
  }

  /** The sum of initialDelay * multiplier^i for i < k. */
  function Geometric(cfg: RetryConfig, k: nat): real {
    if k == 0 then 0.0 else Geometric(cfg, k - 1) + Delay(cfg, k - 1)
  }

  lemma {:induction false} OneMoreTerm(d: real, m: real, p: real, sum: real)
    requires (m - 1.0) * sum == d * (p - 1.0)
    ensures (m - 1.0) * (sum + d * p) == d * (m * p - 1.0)
  {
    assert (m - 1.0) * (sum + d * p) == (m - 1.0) * sum + (m - 1.0) * (d * p);
    assert (m - 1.0) * (d * p) == d * (m * p) - d * p;
  }

  lemma {:induction false} GeometricClosedForm(cfg: RetryConfig, k: nat)
    ensures (cfg.multiplier - 1.0) * Geometric(cfg, k) == cfg.initialDelay as real * (Pow(cfg.multiplier, k) - 1.0)
  {
    if k > 0 {
      GeometricClosedForm(cfg, k - 1);
      var p, sum := Pow(cfg.multiplier, k - 1), Geometric(cfg, k - 1);
      assert Pow(cfg.multiplier, k) == cfg.multiplier * p && Geometric(cfg, k) == sum + cfg.initialDelay as real * p;
      OneMoreTerm(cfg.initialDelay as real, cfg.multiplier, p, sum);
    }
  }

  /** With a multiplier of one, for which the closed form says nothing, every delay is the
      initial one. */
  lemma {:induction false} GeometricAtOne(cfg: RetryConfig, k: nat)
    requires cfg.multiplier == 1.0
    ensures Delay(cfg, k) == cfg.initialDelay as real && Geometric(cfg, k) == k as real * cfg.initialDelay as real
  {
    if k > 0 {
      GeometricAtOne(cfg, k - 1);
      DelayGrows(cfg, k - 1);
      hide Delay;
      var d := cfg.initialDelay as real;
      assert k as real * d == (k - 1) as real * d + d;
    }
  }

  lemma {:induction false} PowNonNegative(m: real, k: nat)
    requires m >= 0.0
    ensures Pow(m, k) >= 0.0
  {
    if k > 0 {
      PowNonNegative(m, k - 1);
    }
  }

  /** The powers go one way: up for a base of at least one, down for a smaller one. */
  lemma {:induction false} PowMonotone(m: real, i: nat, j: nat)
    requires m >= 0.0 && i <= j
    ensures if m >= 1.0 then Pow(m, i) <= Pow(m, j) else Pow(m, i) >= Pow(m, j)
  {
    if i < j {
      PowMonotone(m, i, j - 1);
      PowNonNegative(m, j - 1);
    }
  }

  /** Any delay is at least the first or at least the last, whichever is less. */
  lemma {:induction false} DelayAtLeastAnEnd(cfg: RetryConfig, i: nat, last: nat)
    requires cfg.multiplier >= 0.0 && cfg.initialDelay >= 0 && i <= last
    ensures Delay(cfg, i) >= Delay(cfg, if cfg.multiplier >= 1.0 then 0 else last)
  {
    PowMonotone(cfg.multiplier, 0, i);
    PowMonotone(cfg.multiplier, i, last);
  }

  /** The delays start at the initial one and grow by the multiplier. */
  lemma {:induction false} DelayGrows(cfg: RetryConfig, i: nat)
    ensures Delay(cfg, 0) == cfg.initialDelay as real
    ensures Delay(cfg, i + 1) == cfg.multiplier * Delay(cfg, i)
  {
    var d, m, p := cfg.initialDelay as real, cfg.multiplier, Pow(cfg.multiplier, i);
    assert d * (m * p) == m * (d * p);
  }

  lemma {:induction false} Scaled(d: real, lo: real, jitter: real, hi: real)
    requires d >= 0.0 && lo <= jitter <= hi
    ensures lo * d <= d * jitter <= hi * d
  {
  }

  lemma {:induction false} BackoffBounds(cfg: RetryConfig, attempt: nat, lo: real, jitter: real, hi: real)
    requires attempt >= 1 && cfg.multiplier >= 0.0 && cfg.initialDelay >= 0 && lo <= jitter <= hi
    ensures lo * Delay(cfg, attempt - 1) <= Backoff(cfg, attempt, jitter) <= hi * Delay(cfg, attempt - 1)
  {
    PowNonNegative(cfg.multiplier, attempt - 1);
    Scaled(Delay(cfg, attempt - 1), lo, jitter, hi);
  }

  lemma {:induction false} OneMoreSleep(lo: real, hi: real, sum: real, d: real, slept: real, more: real)
    requires lo * sum <= slept <= hi * sum && lo * d <= more <= hi * d
    ensures lo * (sum + d) <= slept + more <= hi * (sum + d)
  {
  }

  /** With jitters between two bounds, which are 0.5 and 1.5 in the program, k retries sleep
      between those multiples of the geometric sum. An omitted multiplier is 0. */
  lemma {:induction false} SleptBounds(cfg: RetryConfig, env: Env, k: nat, lo: real, hi: real)
    requires cfg.multiplier >= 0.0 && cfg.initialDelay >= 0 && (k == 0 || k < |env|)
    requires forall i :: 1 <= i <= k ==> lo <= env[i].jitter <= hi
    ensures lo * Geometric(cfg, k) <= Slept(cfg, env, k) <= hi * Geometric(cfg, k)
  {
    hide Backoff, Delay;
    if k > 0 {
      SleptBounds(cfg, env, k - 1, lo, hi);
      BackoffBounds(cfg, k, lo, env[k].jitter, hi);
      OneMoreSleep(lo, hi, Geometric(cfg, k - 1), Delay(cfg, k - 1), Slept(cfg, env, k - 1), Backoff(cfg, k, env[k].jitter));
    }
  }

  // ---------- The loop ----------

  predicate Failed(reply: Reply) {
    reply.code >= 500
  }

  predicate Retryable(cfg: RetryConfig, reply: Reply) {
    reply.code in cfg.retryableStatusCodes
  }

  function AfterSection(cbCfg: Config, s: Snapshot, section: Section): Snapshot {
    match section
    case Entry(now) => AdmitStep(cbCfg, s, now).0
    case Exit(isProbe, ok, now) => CompleteStep(cbCfg, s, isProbe, ok, now).0
  }

  /** What other requests make of the breaker. */
  function Meanwhile(cbCfg: Config, s: Snapshot, others: seq<Section>): Snapshot {
    if others == [] then s
    else AfterSection(cbCfg, Meanwhile(cbCfg, s, others[..|others| - 1]), others[|others| - 1])
  }

  /** One attempt: the breaker's answer, and the error the loop sees. */
  datatype Attempt = Refused | Tried(acceptable: bool)

  function AttemptStep(cfg: RetryConfig, cbCfg: Config, cb: Option<Snapshot>, at: Moment): (Option<Snapshot>, Attempt) {
    var reply := at.reply;
    if cb.None? then (None, Tried(!Retryable(cfg, reply)))
    else
      var (s, a, _) := AdmitStep(cbCfg, Meanwhile(cbCfg, cb.value, at.othersBefore), at.admitAt);
      if a.Rejected? then (Some(s), Refused)
      else
        var found := Meanwhile(cbCfg, s, at.othersDuring);
        var (s', _) := CompleteStep(cbCfg, found, a.isProbe, !Failed(reply), at.completeAt);
        (Some(s'), Tried(!Failed(reply) && !Retryable(cfg, reply)))
  }

  /** One turn of the loop: whether the upstream is called, and the outcome if it is the last. */
  datatype Turn = Turn(cb: Option<Snapshot>, called: bool, end: Option<Outcome>)

  function TurnStep(cfg: RetryConfig, cbCfg: Config, cb: Option<Snapshot>, at: Moment, first: bool): Turn {
    if !first && (at.goneBefore || at.goneAfter) then Turn(cb, false, Some(ClientClosed))
    else
      var (cb', attempt) := AttemptStep(cfg, cbCfg, cb, at);
      match attempt
      case Refused => Turn(cb', false, Some(CircuitIsOpen))
      case Tried(acceptable) => Turn(cb', true, if acceptable then Some(Forwarded(at.reply)) else None)
  }

  /** What a run of the loop from the n-th attempt on comes to. */
  datatype Trace = Trace(outcome: Outcome, calls: nat, sleeps: nat, cb: Option<Snapshot>)

  predicate Covers(env: Env, cfg: RetryConfig, n: nat) {
    n <= |env| && cfg.maxRetries + 1 <= |env| && (n == 0 || n <= cfg.maxRetries + 1)
  }

  function Serve(cfg: RetryConfig, cbCfg: Config, cb: Option<Snapshot>, env: Env, n: nat): (t: Trace)
    requires Covers(env, cfg, n)
    ensures n <= t.calls <= |env| && (t.sleeps == 0 || t.sleeps < |env|)
    decreases cfg.maxRetries + 1 - n
  {
    if n >= cfg.maxRetries + 1 then Trace(Exhausted, n, if n == 0 then 0 else n - 1, cb)
    else
      var turn := TurnStep(cfg, cbCfg, cb, env[n], n == 0);
      if turn.end.None? then Serve(cfg, cbCfg, turn.cb, env, n + 1)
      else
        Trace(turn.end.value, if turn.called then n + 1 else n, if n > 0 && env[n].goneBefore then n - 1 else n, turn.cb)
  }

  function Copies(body: Body, n: nat): (r: seq<Body>)
    ensures |r| == n && forall i :: 0 <= i < n ==> r[i] == body
  {
    seq(n, _ => body)
  }

  /** The breaker, what the upstream has been sent, and the time slept. */
  datatype Progress = Progress(cb: Option<Snapshot>, sent: seq<Body>, slept: real)

  function TurnFrom(cfg: RetryConfig, cbCfg: Config, body: Body, s: Progress, at: Moment, n: nat): (Progress, Option<Outcome>) {
    var turn := TurnStep(cfg, cbCfg, s.cb, at, n == 0);
    (Progress(
       turn.cb,
       if turn.called then s.sent + [body] else s.sent,
       if n == 0 || at.goneBefore then s.slept else s.slept + Backoff(cfg, n, at.jitter)),
     turn.end)
  }

  /** The loop from the n-th attempt on. */
  function LoopFrom(cfg: RetryConfig, cbCfg: Config, body: Body, s: Progress, env: Env, n: nat): (Progress, Outcome)
    requires Covers(env, cfg, n)
    decreases cfg.maxRetries + 1 - n
  {
    if n >= cfg.maxRetries + 1 then (s, Exhausted)
    else
      var (s', end) := TurnFrom(cfg, cbCfg, body, s, env[n], n);
      if end.Some? then (s', end.value) else LoopFrom(cfg, cbCfg, body, s', env, n + 1)
  }

  /** k copies of the body, sent one at a time. */
  ghost function Sending(sent: seq<Body>, body: Body, k: nat): seq<Body>
    decreases k
  {
    if k == 0 then sent else Sending(sent + [body], body, k - 1)
  }

  lemma {:induction false} SendingCopies(sent: seq<Body>, body: Body, k: nat)
    ensures Sending(sent, body, k) == sent + Copies(body, k)
    decreases k
  {
    if k > 0 {
      SendingCopies(sent + [body], body, k - 1);
      assert [body] + Copies(body, k - 1) == Copies(body, k);
    }
  }

  lemma {:induction false} SendingOn(sent: seq<Body>, body: Body, k: nat)
    requires k > 0
    ensures Sending(sent, body, k) == Sending(sent + [body], body, k - 1)
  {
  }

  /** One turn: the loop's calls and its trace's agree on it. */
  lemma {:induction false} TurnSends(cfg: RetryConfig, cbCfg: Config, body: Body, s: Progress, env: Env, n: nat)
    requires Covers(env, cfg, n) && n < cfg.maxRetries + 1
    ensures var (s', end) := TurnFrom(cfg, cbCfg, body, s, env[n], n);
            var t := Serve(cfg, cbCfg, s.cb, env, n);
            && (end.None? ==> t == Serve(cfg, cbCfg, s'.cb, env, n + 1) && s'.sent == s.sent + [body])
            && (end.Some? ==> t.outcome == end.value && t.cb == s'.cb && s'.sent == Sending(s.sent, body, t.calls - n))
            && LoopFrom(cfg, cbCfg, body, s, env, n) == if end.Some? then (s', end.value) else LoopFrom(cfg, cbCfg, body, s', env, n + 1)
  {
    hide AttemptStep, Backoff;
  }

  lemma {:induction false} NoTurnLeft(cfg: RetryConfig, cbCfg: Config, body: Body, s: Progress, env: Env, n: nat)
    requires Covers(env, cfg, n) && n >= cfg.maxRetries + 1
    ensures var t := Serve(cfg, cbCfg, s.cb, env, n);
            && LoopFrom(cfg, cbCfg, body, s, env, n) == (s, Exhausted) && t.outcome == Exhausted && t.cb == s.cb && t.calls == n
            && s.sent == Sending(s.sent, body, 0)
            && (var i := if n == 0 then 0 else n - 1; t.sleeps == i && s.slept == Sleeping(s.slept, cfg, env, i, i))
  {
  }

  /** Every attempt sends the same body again. */
  lemma {:induction false} LoopSends(cfg: RetryConfig, cbCfg: Config, body: Body, s: Progress, env: Env, n: nat)
    requires Covers(env, cfg, n)
    ensures var t := Serve(cfg, cbCfg, s.cb, env, n);
            LoopFrom(cfg, cbCfg, body, s, env, n).1 == t.outcome && LoopFrom(cfg, cbCfg, body, s, env, n).0.cb == t.cb
    ensures LoopFrom(cfg, cbCfg, body, s, env, n).0.sent == Sending(s.sent, body, Serve(cfg, cbCfg, s.cb, env, n).calls - n)
    decreases cfg.maxRetries + 1 - n
  {
    hide TurnFrom, Serve, LoopFrom, Sending;  // costly to unfold
    if n >= cfg.maxRetries + 1 {
      NoTurnLeft(cfg, cbCfg, body, s, env, n);
    } else {
      TurnSends(cfg, cbCfg, body, s, env, n);
      var (s', end) := TurnFrom(cfg, cbCfg, body, s, env[n], n);
      if end.None? {
        LoopSends(cfg, cbCfg, body, s', env, n + 1);
        SendingOn(s.sent, body, Serve(cfg, cbCfg, s'.cb, env, n + 1).calls - n);
      }
    }
  }

  /** The time slept after the sleeps before retries i + 1 to k. */
  ghost function Sleeping(slept: real, cfg: RetryConfig, env: Env, i: nat, k: nat): real
    requires i <= k && (k == 0 || k < |env|)
    decreases k - i
  {
    if i == k then slept else Sleeping(slept + Backoff(cfg, i + 1, env[i + 1].jitter), cfg, env, i + 1, k)
  }

  lemma {:induction false} SleepingAdds(slept: real, cfg: RetryConfig, env: Env, i: nat, k: nat)
    requires i <= k && (k == 0 || k < |env|)
    ensures Sleeping(slept, cfg, env, i, k) == slept + Slept(cfg, env, k) - Slept(cfg, env, i)
    decreases k - i
  {
    hide Backoff;
    if i < k {
      SleepingAdds(slept + Backoff(cfg, i + 1, env[i + 1].jitter), cfg, env, i + 1, k);
    }
  }

  /** One turn: the loop's sleeps and its trace's agree on it. */
  lemma {:induction false} TurnSleeps(cfg: RetryConfig, cbCfg: Config, body: Body, s: Progress, env: Env, n: nat)
    requires Covers(env, cfg, n) && n < cfg.maxRetries + 1
    ensures var i := if n == 0 then 0 else n - 1;
            var (s', end) := TurnFrom(cfg, cbCfg, body, s, env[n], n);
            var t := Serve(cfg, cbCfg, s.cb, env, n);
            && (end.None? ==> t == Serve(cfg, cbCfg, s'.cb, env, n + 1) && s'.slept == Sleeping(s.slept, cfg, env, i, n))
            && (end.Some? ==> i <= t.sleeps <= n && s'.slept == Sleeping(s.slept, cfg, env, i, t.sleeps))
  {
    hide AttemptStep, Backoff;
  }

  lemma {:induction false} SleepingOn(slept: real, cfg: RetryConfig, env: Env, n: nat, k: nat)
    requires n <= k && (k == 0 || k < |env|)
    ensures var i := if n == 0 then 0 else n - 1;
            Sleeping(slept, cfg, env, i, k) == Sleeping(Sleeping(slept, cfg, env, i, n), cfg, env, n, k)
  {
    hide Backoff;
  }

  /** There is one sleep before each retry. */
  lemma {:induction false} LoopSleeps(cfg: RetryConfig, cbCfg: Config, body: Body, s: Progress, env: Env, n: nat)
    requires Covers(env, cfg, n)
    ensures var i, k := if n == 0 then 0 else n - 1, Serve(cfg, cbCfg, s.cb, env, n).sleeps;
            i <= k && LoopFrom(cfg, cbCfg, body, s, env, n).0.slept == Sleeping(s.slept, cfg, env, i, k)
    decreases cfg.maxRetries + 1 - n
  {
    hide TurnFrom, Serve, LoopFrom, Sleeping;
    if n >= cfg.maxRetries + 1 {
      NoTurnLeft(cfg, cbCfg, body, s, env, n);
    } else {
      TurnSends(cfg, cbCfg, body, s, env, n);
      TurnSleeps(cfg, cbCfg, body, s, env, n);
      var (s', end) := TurnFrom(cfg, cbCfg, body, s, env[n], n);
      if end.None? {
        LoopSleeps(cfg, cbCfg, body, s', env, n + 1);
        SleepingOn(s.slept, cfg, env, n, Serve(cfg, cbCfg, s'.cb, env, n + 1).sleeps);
      }
    }
  }

  /** The sections of other requests, one after the other. */
  method OtherTraffic(cb: CircuitBreaker, others: seq<Section>)
    modifies cb
    ensures cb.Snap() == Meanwhile(cb.cfg, old(cb.Snap()), others)
  {
    for i := 0 to |others|
      invariant cb.Snap() == Meanwhile(cb.cfg, old(cb.Snap()), others[..i])
    {
      assert others[..i + 1][..i] == others[..i];
      match others[i]
      case Entry(now) => var _, _ := cb.Admit(now);
      case Exit(isProbe, ok, now) => var _ := cb.Complete(isProbe, ok, now);
    }
    assert others[..|others|] == others;
  }

  class RetryHandler {
    const cfg: RetryConfig
    const cb: CircuitBreaker?
    const retryable: set<int>
    // What the upstream has been sent, and the time slept.
    var sent: seq<Body>
    var slept: real

    ghost predicate Valid() {
      forall code :: code in retryable <==> code in cfg.retryableStatusCodes
    }

    constructor (cfg: RetryConfig, cb: CircuitBreaker?)
      ensures Valid() && this.cfg == cfg && this.cb == cb && sent == [] && slept == 0.0
    {
      var codes := {};
      for i := 0 to |cfg.retryableStatusCodes|
        invariant forall code :: code in codes <==> code in cfg.retryableStatusCodes[..i]
      {
        codes := codes + {cfg.retryableStatusCodes[i]};
      }
      this.cfg, this.cb, sent, slept := cfg, cb, [], 0.0;
      retryable := codes;
    }

    function BreakerConfig(): Config {
      if cb == null then CircuitBreakerConfig(1, 1, 0) else cb.cfg
    }

    function Breaker(): Option<Snapshot>
      reads this, if cb == null then {} else {cb}
    {
      if cb == null then None else Some(cb.Snap())
    }

    function Now(): Progress
      reads this, if cb == null then {} else {cb}
    {
      Progress(Breaker(), sent, slept)
    }

    /** The call of one attempt, through the breaker if there is one. */
    method Try(body: Body, at: Moment) returns (attempt: Attempt)
      requires Valid()
      modifies this`sent, if cb == null then {} else {cb}
      ensures (Breaker(), attempt) == AttemptStep(cfg, BreakerConfig(), old(Breaker()), at)
      ensures sent == if attempt.Refused? then old(sent) else old(sent) + [body]
    {
      var reply := at.reply;
      if cb != null {
        OtherTraffic(cb, at.othersBefore);
        var a, _ := cb.Admit(at.admitAt);
        if a.Rejected? {
          return Refused;
        }
        sent := sent + [body];
        OtherTraffic(cb, at.othersDuring);
        var _ := cb.Complete(a.isProbe, !Failed(reply), at.completeAt);
        if Failed(reply) {
          return Tried(false);
        }
      } else {
        sent := sent + [body];
      }
      attempt := Tried(reply.code !in retryable);
    }

    /** Waits before a retry, unless the client is gone before or after. */
    method Wait(at: Moment, n: nat) returns (gone: bool)
      requires n > 0
      modifies this`slept
      ensures gone == (at.goneBefore || at.goneAfter)
      ensures slept == old(slept) + if at.goneBefore then 0.0 else Backoff(cfg, n, at.jitter)
    {
      var delay := Backoff(cfg, n, at.jitter);
      if at.goneBefore {
        return true;
      }
      slept := slept + delay;
      return at.goneAfter;
    }

    /** The body of the loop; the loop goes on when there is no outcome yet. */
    method TakeTurn(body: Body, at: Moment, n: nat) returns (end: Option<Outcome>)
      requires Valid()
      modifies this, if cb == null then {} else {cb}
      ensures (Now(), end) == TurnFrom(cfg, BreakerConfig(), body, old(Now()), at, n)
    {
      if n > 0 {
        var gone := Wait(at, n);
        if gone {
          return Some(ClientClosed);
        }
      }
      var attempt := Try(body, at);
      if attempt.Refused? {
        return Some(CircuitIsOpen);
      }
      if attempt.acceptable {
        return Some(Forwarded(at.reply));
      }
      return None;
    }

    /** The loop over the attempts. */
    method Attempts(body: Body, env: Env) returns (outcome: Outcome)
      requires Valid() && Covers(env, cfg, 0)
      modifies this, if cb == null then {} else {cb}
      ensures (Now(), outcome) == LoopFrom(cfg, BreakerConfig(), body, old(Now()), env, 0)
    {
      hide TurnFrom;
      var maxAttempts := cfg.maxRetries + 1;
      var n := 0;
      while n < maxAttempts
        invariant 0 <= n && Covers(env, cfg, n)
        invariant LoopFrom(cfg, BreakerConfig(), body, Now(), env, n) == LoopFrom(cfg, BreakerConfig(), body, old(Now()), env, 0)
      {
        var end := TakeTurn(body, env[n], n);
        if end.Some? {
          return end.value;
        }
        n := n + 1;
      }
      return Exhausted;
    }

    method ServeHTTP(body: Body, env: Env) returns (outcome: Outcome)
      requires Valid() && Covers(env, cfg, 0)
      modifies this, if cb == null then {} else {cb}
      ensures body.Unreadable? || (body.Content? && |body.bytes| > 10_485_760) ==>
                outcome == (if body.Unreadable? then ReadFailed else TooLarge)
                && Status(outcome) == (if body.Unreadable? then 502 else 413)
                && sent == old(sent) && slept == old(slept) && Breaker() == old(Breaker())
      ensures body.NoBody? || (body.Content? && |body.bytes| <= 10_485_760) ==>
                var t := Serve(cfg, BreakerConfig(), old(Breaker()), env, 0);
                && outcome == t.outcome
                && (outcome.ClientClosed? ==> Status(outcome) == 499)
                && (outcome.Forwarded? ==> Status(outcome) == outcome.reply.code)
                && Breaker() == t.cb
                && sent == old(sent) + Copies(body, t.calls)
                && slept == old(slept) + Slept(cfg, env, t.sleeps)
    {
      if body.Unreadable? {
        return ReadFailed;
      }
      if body.Content? && |body.bytes| > MAX_BODY {
        return TooLarge;
      }
      LoopSends(cfg, BreakerConfig(), body, Now(), env, 0);
      LoopSleeps(cfg, BreakerConfig(), body, Now(), env, 0);
      ghost var t := Serve(cfg, BreakerConfig(), Breaker(), env, 0);
      SendingCopies(sent, body, t.calls);
      SleepingAdds(slept, cfg, env, 0, t.sleeps);
      outcome := Attempts(body, env);
    }
  }

  // ---------- An attempt among the sections of all requests ----------

  function SectionOf(e: BR.Event): Section {
    match e
    case Arrive(now) => Entry(now)
    case Return(ticket, ok, now) => Section.Exit(ticket.isProbe, ok, now)
  }

  function Sections(es: seq<BR.Event>): (r: seq<Section>)
    ensures |r| == |es| && forall i :: 0 <= i < |r| ==> r[i] == SectionOf(es[i])
  {
    seq(|es|, i requires 0 <= i < |es| => SectionOf(es[i]))
  }

  lemma {:induction false} SectionOfAnEvent(cbCfg: Config, w: BR.World, e: BR.Event)
    requires BR.Enabled(w, e)
    ensures BR.Next(cbCfg, w, e).cb == AfterSection(cbCfg, w.cb, SectionOf(e))
  {
  }

  /** Other requests make of the breaker what any stretch of an interleaving does. */
  lemma {:induction false} OthersAreARun(cbCfg: Config, ws: seq<BR.World>, es: seq<BR.Event>, i: nat, j: nat)
    requires BR.IsRun(cbCfg, ws, es) && i <= j <= |es|
    ensures Meanwhile(cbCfg, ws[i].cb, Sections(es[i..j])) == ws[j].cb
  {
    hide BR.Next, AfterSection, SectionOf;
    if i < j {
      OthersAreARun(cbCfg, ws, es, i, j - 1);
      var others := Sections(es[i..j]);
      assert others[..|others| - 1] == Sections(es[i..j - 1]);
      assert BR.StepAt(cbCfg, ws, es, j - 1);
      SectionOfAnEvent(cbCfg, ws[j - 1], es[j - 1]);
    }
  }

  /** The attempt that arrives as event j of an interleaving, with the sections of other requests
      since event i before it. */
  predicate ArrivesAt(at: Moment, es: seq<BR.Event>, i: nat, j: nat) {
    i <= j < |es| && at.othersBefore == Sections(es[i..j]) && es[j] == BR.Arrive(at.admitAt)
  }

  /** A refused attempt is an arrival that the interleaving does not admit. */
  lemma {:induction false} RefusedInARun(cfg: RetryConfig, cbCfg: Config, at: Moment, ws: seq<BR.World>, es: seq<BR.Event>, i: nat, j: nat)
    requires BR.IsRun(cbCfg, ws, es) && ArrivesAt(at, es, i, j)
    ensures AttemptStep(cfg, cbCfg, Some(ws[i].cb), at).1 == Refused <==> !BR.Admits(cbCfg, ws[j], es[j])
    ensures !BR.Admits(cbCfg, ws[j], es[j]) ==> AttemptStep(cfg, cbCfg, Some(ws[i].cb), at).0 == Some(ws[j + 1].cb)
  {
    OthersAreARun(cbCfg, ws, es, i, j);
    assert BR.StepAt(cbCfg, ws, es, j);
  }

  /** An admitted one that returns as event k leaves the breaker that the interleaving does: what
      is proved of all interleavings holds of those that retrying requests take part in. */
  lemma {:induction false} TriedInARun(cfg: RetryConfig, cbCfg: Config, at: Moment, ws: seq<BR.World>, es: seq<BR.Event>, i: nat, j: nat, k: nat)
    requires BR.IsRun(cbCfg, ws, es) && ArrivesAt(at, es, i, j) && BR.Admits(cbCfg, ws[j], es[j])
    requires j < k < |es| && at.othersDuring == Sections(es[j + 1..k])
    requires es[k].Return? && es[k].ok == (at.reply.code < 500) && es[k].now == at.completeAt
    requires es[k].ticket.isProbe == AdmitStep(cbCfg, ws[j].cb, at.admitAt).1.isProbe
    ensures AttemptStep(cfg, cbCfg, Some(ws[i].cb), at) ==
              (Some(ws[k + 1].cb), Tried(at.reply.code < 500 && at.reply.code !in cfg.retryableStatusCodes))
  {
    OthersAreARun(cbCfg, ws, es, i, j);
    OthersAreARun(cbCfg, ws, es, j + 1, k);
    assert BR.StepAt(cbCfg, ws, es, j) && BR.StepAt(cbCfg, ws, es, k);
  }

  // ---------- The first acceptable reply ----------

  /** Through a breaker a server error is never acceptable; without one it is, unless its
      code is retryable. */
  predicate Acceptable(cfg: RetryConfig, guarded: bool, reply: Reply) {
    !(guarded && reply.code >= 500) && reply.code !in cfg.retryableStatusCodes
  }

  lemma {:induction false} AttemptShape(cfg: RetryConfig, cbCfg: Config, cb: Option<Snapshot>, at: Moment)
    ensures var (cb', a) := AttemptStep(cfg, cbCfg, cb, at);
            cb'.Some? == cb.Some? && (a == Refused || a == Tried(Acceptable(cfg, cb.Some?, at.reply)))
  {
  }

  /** Whatever the client and the other requests on the breaker do, the replies before the last
      call were not acceptable, and the one forwarded is that of the last call and is
      acceptable. */
  lemma {:induction false} ForwardsFirstAcceptable(cfg: RetryConfig, cbCfg: Config, cb: Option<Snapshot>, env: Env, n: nat)
    requires Covers(env, cfg, n)
    ensures var t := Serve(cfg, cbCfg, cb, env, n);
            && (forall i :: n <= i < t.calls - 1 ==> !Acceptable(cfg, cb.Some?, env[i].reply))
            && (n < t.calls ==>
                  (t.outcome.Forwarded? <==> Acceptable(cfg, cb.Some?, env[t.calls - 1].reply)))
            && (t.outcome.Forwarded? ==> n < t.calls && t.outcome.reply == env[t.calls - 1].reply)
            && (t.outcome.Exhausted? ==> t.calls == if n < cfg.maxRetries + 1 then cfg.maxRetries + 1 else n)
            && t.calls <= t.sleeps + 1
    decreases cfg.maxRetries + 1 - n
  {
    hide AttemptStep, Acceptable;
    if n < cfg.maxRetries + 1 {
      AttemptShape(cfg, cbCfg, cb, env[n]);
      ForwardsFirstAcceptable(cfg, cbCfg, TurnStep(cfg, cbCfg, cb, env[n], n == 0).cb, env, n + 1);
    }
  }

  /** There is one sleep before each retry, and one more before an attempt that is refused or
      that finds the client gone after its sleep. */
  lemma {:induction false} SleepsMade(cfg: RetryConfig, cbCfg: Config, cb: Option<Snapshot>, env: Env, n: nat)
    requires Covers(env, cfg, n)
    ensures var t := Serve(cfg, cbCfg, cb, env, n);
            && (t.outcome.CircuitIsOpen? || t.outcome.ClientClosed? ==> t.calls < |env|)
            && t.sleeps == if t.outcome.CircuitIsOpen? || (t.outcome.ClientClosed? && !env[t.calls].goneBefore) then t.calls
                           else if t.calls == 0 then 0
                           else t.calls - 1
    decreases cfg.maxRetries + 1 - n
  {
    hide AttemptStep;
    if n < cfg.maxRetries + 1 {
      SleepsMade(cfg, cbCfg, TurnStep(cfg, cbCfg, cb, env[n], n == 0).cb, env, n + 1);
    }
  }

  // ---------- Without a breaker ----------

  predicate GoneAt(env: Env, i: nat)
    requires i < |env|
  {
    env[i].goneBefore || env[i].goneAfter
  }

  /** What ends the loop after i calls without a breaker, if anything does. */
  function PlainEnd(cfg: RetryConfig, env: Env, i: nat): Option<Outcome>
    requires Covers(env, cfg, 0) && i <= |env|
  {
    if i > 0 && env[i - 1].reply.code !in cfg.retryableStatusCodes then Some(Forwarded(env[i - 1].reply))
    else if i >= cfg.maxRetries + 1 then Some(Exhausted)
    else if i > 0 && GoneAt(env, i) then Some(ClientClosed)
    else None
  }

  lemma {:induction false} PlainFrom(cfg: RetryConfig, cbCfg: Config, env: Env, n: nat)
    requires Covers(env, cfg, 0) && Covers(env, cfg, n)
    requires n > 0 ==> env[n - 1].reply.code in cfg.retryableStatusCodes
    ensures var t := Serve(cfg, cbCfg, None, env, n);
            && t.cb == None
            && (forall i :: n <= i < t.calls ==> PlainEnd(cfg, env, i) == None)
            && PlainEnd(cfg, env, t.calls) == Some(t.outcome)
    decreases cfg.maxRetries + 1 - n
  {
    if n < cfg.maxRetries + 1 && TurnStep(cfg, cbCfg, None, env[n], n == 0).end.None? {
      PlainFrom(cfg, cbCfg, env, n + 1);
    }
  }

  /** Without a breaker, for any replies and any client: the loop makes its calls until one ends
      it, and that decides the answer. */
  lemma {:induction false} PlainOutcome(cfg: RetryConfig, cbCfg: Config, env: Env)
    requires Covers(env, cfg, 0)
    ensures var t := Serve(cfg, cbCfg, None, env, 0);
            && t.cb == None
            && (forall i :: 0 <= i < t.calls ==> PlainEnd(cfg, env, i) == None)
            && PlainEnd(cfg, env, t.calls) == Some(t.outcome)
  {
    PlainFrom(cfg, cbCfg, env, 0);
  }

  /** The first reply that is not retryable, n replies in, is forwarded after one call more than
      it has predecessors. */
  lemma {:induction false} PlainForwards(cfg: RetryConfig, cbCfg: Config, env: Env, n: nat)
    requires Covers(env, cfg, 0) && (forall i :: 0 <= i < |env| ==> !GoneAt(env, i))
    requires n <= cfg.maxRetries && env[n].reply.code !in cfg.retryableStatusCodes
    requires forall i :: 0 <= i < n ==> env[i].reply.code in cfg.retryableStatusCodes
    ensures Serve(cfg, cbCfg, None, env, 0) == Trace(Forwarded(env[n].reply), n + 1, n, None)
  {
    PlainOutcome(cfg, cbCfg, env);
    var t := Serve(cfg, cbCfg, None, env, 0);
    assert n + 1 < t.calls ==> PlainEnd(cfg, env, n + 1) == None;
    SleepsMade(cfg, cbCfg, None, env, 0);
  }

  /** If every reply is retryable, all attempts are made, to no avail. */
  lemma {:induction false} PlainExhausts(cfg: RetryConfig, cbCfg: Config, env: Env)
    requires Covers(env, cfg, 0) && cfg.maxRetries >= 0 && (forall i :: 0 <= i < |env| ==> !GoneAt(env, i))
    requires forall i :: 0 <= i < cfg.maxRetries + 1 ==> env[i].reply.code in cfg.retryableStatusCodes
    ensures Serve(cfg, cbCfg, None, env, 0) == Trace(Exhausted, cfg.maxRetries + 1, cfg.maxRetries, None)
  {
    PlainOutcome(cfg, cbCfg, env);
    var t := Serve(cfg, cbCfg, None, env, 0);
    assert cfg.maxRetries + 1 < t.calls ==> PlainEnd(cfg, env, cfg.maxRetries + 1) == None;
    SleepsMade(cfg, cbCfg, None, env, 0);
  }

  // ---------- With no other traffic ----------

  /** No other request reaches the breaker. */
  predicate Alone(env: Env) {
    forall n :: 0 <= n < |env| ==> env[n].othersBefore == env[n].othersDuring == []
  }

  /** And the client waits. */
  predicate Undisturbed(env: Env) {
    Alone(env) && forall n :: 0 <= n < |env| ==> !GoneAt(env, n)
  }

  /** When a breaker that is open at attempt i opened: before the first attempt, or at the
      end of the call before. */
  function OpenedAt(cb: Snapshot, env: Env, i: nat): int
    requires i <= |env|
  {
    if i == 0 then cb.openedAt else env[i - 1].completeAt
  }

  /** Attempt i comes within the timeout of that. */
  predicate TooEarly(cbCfg: Config, cb: Snapshot, env: Env, i: nat)
    requires i < |env|
  {
    env[i].admitAt - OpenedAt(cb, env, i) < cbCfg.timeout
  }

  /** How the breaker stands: with so many failures in a row while closed, with so many
      successful probes in a row, or open. */
  datatype Mode = Counting(failures: int) | Probing(successes: int) | Tripped

  /** The breaker's mode after n calls, by their replies alone. */
  function ModeAfter(cbCfg: Config, cb: Snapshot, env: Env, n: nat): Mode
    requires n <= |env|
  {
    if n == 0 then
      match cb.state
      case Closed => Counting(cb.failureCount)
      case HalfOpen => Probing(cb.successCount)
      case Open => Tripped
    else
      var before, failed := ModeAfter(cbCfg, cb, env, n - 1), env[n - 1].reply.code >= 500;
      if before.Counting? then
        if !failed then Counting(0)
        else if before.failures + 1 < cbCfg.failureThreshold then Counting(before.failures + 1) else Tripped
      else
        var successes := if before.Probing? then before.successes + 1 else 1;
        if failed then Tripped else if successes < cbCfg.successThreshold then Probing(successes) else Counting(0)
  }

  /** Attempt i is refused: another request's probe was out at the start, or the breaker is
      open and the attempt comes too early. */
  predicate RefusedAt(cbCfg: Config, cb: Snapshot, env: Env, i: nat)
    requires i < |env|
  {
    || (i == 0 && cb.state == HalfOpen && cb.halfOpenProbing)
    || (ModeAfter(cbCfg, cb, env, i) == Tripped && TooEarly(cbCfg, cb, env, i))
  }

  /** What ends the loop after i calls, if anything does. */
  function EndAfter(cfg: RetryConfig, cbCfg: Config, cb: Snapshot, env: Env, i: nat): Option<Outcome>
    requires Covers(env, cfg, 0) && i <= |env|
  {
    if i > 0 && Acceptable(cfg, true, env[i - 1].reply) then Some(Forwarded(env[i - 1].reply))
    else if i >= cfg.maxRetries + 1 then Some(Exhausted)
    else if i > 0 && GoneAt(env, i) then Some(ClientClosed)
    else if RefusedAt(cbCfg, cb, env, i) then Some(CircuitIsOpen)
    else None
  }

  /** The breaker found at attempt i, cb having been found at the first. */
  predicate StandsAt(cbCfg: Config, cb: Snapshot, env: Env, i: nat, found: Snapshot)
    requires i <= |env|
  {
    match ModeAfter(cbCfg, cb, env, i)
    case Counting(failures) => found.state == Closed && found.failureCount == failures
    case Probing(successes) =>
      && found.state == HalfOpen && found.successCount == successes
      && found.halfOpenProbing == (i == 0 && cb.halfOpenProbing)
    case Tripped => found.state == Open && found.openedAt == OpenedAt(cb, env, i)
  }

  lemma {:induction false} OneCall(cfg: RetryConfig, cbCfg: Config, cb: Snapshot, env: Env, i: nat, found: Snapshot)
    requires Alone(env) && i < |env| && StandsAt(cbCfg, cb, env, i, found)
    ensures var (next, attempt) := AttemptStep(cfg, cbCfg, Some(found), env[i]);
            && attempt == (if RefusedAt(cbCfg, cb, env, i) then Refused else Tried(Acceptable(cfg, true, env[i].reply)))
            && next.Some? && (!RefusedAt(cbCfg, cb, env, i) ==> StandsAt(cbCfg, cb, env, i + 1, next.value))
  {
  }

  /** From the n-th attempt on. */
  lemma {:induction false} OutcomeFrom(cfg: RetryConfig, cbCfg: Config, cb: Snapshot, env: Env, n: nat, found: Snapshot)
    requires Alone(env) && Covers(env, cfg, 0) && Covers(env, cfg, n) && StandsAt(cbCfg, cb, env, n, found)
    requires n > 0 ==> !Acceptable(cfg, true, env[n - 1].reply)
    ensures var t := Serve(cfg, cbCfg, Some(found), env, n);
            && (forall i :: n <= i < t.calls ==> EndAfter(cfg, cbCfg, cb, env, i) == None)
            && EndAfter(cfg, cbCfg, cb, env, t.calls) == Some(t.outcome)
    decreases cfg.maxRetries + 1 - n
  {
    if n < cfg.maxRetries + 1 {
      OneCall(cfg, cbCfg, cb, env, n, found);
      hide AttemptStep, StandsAt, RefusedAt, Acceptable;
      var turn := TurnStep(cfg, cbCfg, Some(found), env[n], n == 0);
      if turn.end.None? {
        OutcomeFrom(cfg, cbCfg, cb, env, n + 1, turn.cb.value);
      }
    }
  }

  /** Exact outcome over a breaker that no other request reaches, in any state, for any replies
      and any client: the loop makes its calls until one ends it, and that decides the answer. */
  lemma {:induction false} ExactOutcome(cfg: RetryConfig, cbCfg: Config, cb: Snapshot, env: Env)
    requires Alone(env) && Covers(env, cfg, 0)
    ensures var t := Serve(cfg, cbCfg, Some(cb), env, 0);
            && (forall i :: 0 <= i < t.calls ==> EndAfter(cfg, cbCfg, cb, env, i) == None)
            && EndAfter(cfg, cbCfg, cb, env, t.calls) == Some(t.outcome)
  {
    OutcomeFrom(cfg, cbCfg, cb, env, 0, cb);
  }

  // ---------- Over an upstream that always fails ----------

  predicate Failing(env: Env) {
    forall i :: 0 <= i < |env| ==> env[i].reply.code >= 500
  }

  /** How many failing calls leave the breaker open. */
  function Budget(cbCfg: Config, cb: Snapshot): nat {
    match cb.state
    case Closed => if cbCfg.failureThreshold - cb.failureCount <= 1 then 1 else cbCfg.failureThreshold - cb.failureCount
    case HalfOpen => 1
    case Open => 0
  }

  lemma {:induction false} FailingMode(cbCfg: Config, cb: Snapshot, env: Env, n: nat)
    requires Failing(env) && n <= |env|
    ensures var mode := ModeAfter(cbCfg, cb, env, n);
            && (mode == Tripped <==> n >= Budget(cbCfg, cb))
            && (cb.state == Closed && mode != Tripped ==> mode == Counting(cb.failureCount + n))
  {
    if n > 0 {
      FailingMode(cbCfg, cb, env, n - 1);
    }
  }

  /** The breaker turns attempt i away. */
  predicate TurnedAway(cbCfg: Config, cb: Snapshot, env: Env, i: nat)
    requires i < |env|
  {
    || (i == 0 && cb.state == HalfOpen && cb.halfOpenProbing)
    || (i >= Budget(cbCfg, cb) && TooEarly(cbCfg, cb, env, i))
  }

  /** Over an upstream that always fails, and from any state of the breaker, the calls go on
      after the breaker has opened, up to the last retry or to the first attempt that comes
      less than the timeout after the call before it. The client gets 503 if and only if
      there is such an attempt, otherwise 502. */
  lemma {:induction false} FailingUpstream(cfg: RetryConfig, cbCfg: Config, cb: Snapshot, env: Env)
    requires Undisturbed(env) && Covers(env, cfg, 0) && Failing(env)
    ensures var t := Serve(cfg, cbCfg, Some(cb), env, 0);
            && (t.calls > 0 ==> t.calls <= cfg.maxRetries + 1)
            && (forall i :: 0 <= i < t.calls ==> !TurnedAway(cbCfg, cb, env, i))
            && (t.calls < cfg.maxRetries + 1 ==> TurnedAway(cbCfg, cb, env, t.calls))
            && Status(t.outcome) == (if t.calls < cfg.maxRetries + 1 then 503 else 502)
  {
    ExactOutcome(cfg, cbCfg, cb, env);
    var t := Serve(cfg, cbCfg, Some(cb), env, 0);
    forall i | 0 <= i <= t.calls
      ensures EndAfter(cfg, cbCfg, cb, env, i) ==
              if i >= cfg.maxRetries + 1 then Some(Exhausted)
              else if TurnedAway(cbCfg, cb, env, i) then Some(CircuitIsOpen)
              else None
    {
      FailingMode(cbCfg, cb, env, i);
    }
    if t.calls > 0 {
      assert EndAfter(cfg, cbCfg, cb, env, t.calls - 1) == None;
    }
    assert forall i :: 0 <= i < t.calls ==> EndAfter(cfg, cbCfg, cb, env, i) == None;
  }

  /** When every retry comes within the timeout of the call before it, a breaker that lets the
      first attempt through lets exactly its budget through, a closed one with f failures in a
      row failureThreshold - f calls. */
  lemma {:induction false} QuickRetries(cfg: RetryConfig, cbCfg: Config, cb: Snapshot, env: Env)
    requires Undisturbed(env) && Covers(env, cfg, 0) && Failing(env) && cfg.maxRetries >= 0
    requires !TurnedAway(cbCfg, cb, env, 0) && forall i :: 0 < i < |env| ==> TooEarly(cbCfg, cb, env, i)
    ensures var let := if cb.state == Open then 1 else Budget(cbCfg, cb);
            Serve(cfg, cbCfg, Some(cb), env, 0).calls == if let <= cfg.maxRetries then let else cfg.maxRetries + 1
  {
    FailingUpstream(cfg, cbCfg, cb, env);
    var k := Serve(cfg, cbCfg, Some(cb), env, 0).calls;
    var let := if cb.state == Open then 1 else Budget(cbCfg, cb);
    assert let < |env| ==> TurnedAway(cbCfg, cb, env, let);
  }

  // ---------- Whether retries are made once the breaker has opened ----------

  /** The clock never goes back, and every retry comes after its whole backoff. */
  predicate Paced(cfg: RetryConfig, env: Env) {
    && (forall n :: 0 <= n < |env| ==> env[n].admitAt <= env[n].completeAt)
    && (forall n :: 0 < n < |env| ==>
          && 0.5 <= env[n].jitter < 1.5
          && env[n].admitAt >= env[n - 1].completeAt
          && env[n].admitAt >= env[n - 1].completeAt + Backoff(cfg, n, env[n].jitter).Floor)
  }

  /** On every paced run over an upstream that always fails, all the attempts are made. */
  ghost predicate AllAttemptsMade(cfg: RetryConfig, cbCfg: Config, cb: Snapshot) {
    forall env: Env :: Undisturbed(env) && Covers(env, cfg, 0) && Failing(env) && Paced(cfg, env) ==>
      Serve(cfg, cbCfg, Some(cb), env, 0).calls >= cfg.maxRetries + 1
  }

  /** The shortest backoff before retry n lasts through the timeout. */
  predicate Outlasts(cfg: RetryConfig, cbCfg: Config, n: nat)
    requires n >= 1
  {
    cbCfg.timeout <= 0 || cbCfg.timeout as real <= 0.5 * Delay(cfg, n - 1)
  }

  /** The shortest wait before retry n. */
  function ShortestWait(cfg: RetryConfig, n: nat): nat
    requires n >= 1
  {
    var d := Backoff(cfg, n, 0.5).Floor;
    if d < 0 then 0 else d
  }

  function Hasty(cfg: RetryConfig, n: nat): int {
    if n == 0 then 0 else Hasty(cfg, n - 1) + ShortestWait(cfg, n)
  }

  /** The run in which every wait is the shortest. */
  function HastyRun(cfg: RetryConfig, len: nat): (env: Env)
    ensures |env| == len
    ensures forall n :: 0 <= n < len ==>
      env[n] == Moment(false, false, [], Hasty(cfg, n), [], Reply(500, []), Hasty(cfg, n), 0.5)
  {
    seq(len, n requires 0 <= n < len => Moment(false, false, [], Hasty(cfg, n), [], Reply(500, []), Hasty(cfg, n), 0.5))
  }

  lemma HastyIsPaced(cfg: RetryConfig, len: nat)
    ensures Undisturbed(HastyRun(cfg, len)) && Failing(HastyRun(cfg, len)) && Paced(cfg, HastyRun(cfg, len))
  {
    hide Backoff;
    var env := HastyRun(cfg, len);
    forall n | 0 < n < len
      ensures env[n].admitAt == env[n - 1].completeAt + ShortestWait(cfg, n)
    {
    }
  }

  lemma {:induction false} BackoffAtLeastHalf(cfg: RetryConfig, n: nat, jitter: real)
    requires n >= 1 && 0.5 <= jitter && Delay(cfg, n - 1) >= 0.0
    ensures Backoff(cfg, n, jitter) >= 0.5 * Delay(cfg, n - 1)
  {
  }

  lemma {:induction false} NotTooEarly(cfg: RetryConfig, cbCfg: Config, cb: Snapshot, env: Env, n: nat)
    requires Paced(cfg, env) && 1 <= n < |env| && Outlasts(cfg, cbCfg, n)
    ensures !TooEarly(cbCfg, cb, env, n)
  {
    if cbCfg.timeout > 0 {
      BackoffAtLeastHalf(cfg, n, env[n].jitter);
    }
  }

  lemma {:induction false} AllMade(cfg: RetryConfig, cbCfg: Config, cb: Snapshot, env: Env)
    requires cb.state == Closed || (cb.state == HalfOpen && !cb.halfOpenProbing)
    requires forall n :: Budget(cbCfg, cb) <= n <= cfg.maxRetries ==> Outlasts(cfg, cbCfg, n)
    requires Undisturbed(env) && Covers(env, cfg, 0) && Failing(env) && Paced(cfg, env)
    ensures Serve(cfg, cbCfg, Some(cb), env, 0).calls >= cfg.maxRetries + 1
  {
    FailingUpstream(cfg, cbCfg, cb, env);
    var k := Serve(cfg, cbCfg, Some(cb), env, 0).calls;
    if k < cfg.maxRetries + 1 {
      hide Serve, Outlasts, TooEarly, Paced;
      assert Outlasts(cfg, cbCfg, k);
      NotTooEarly(cfg, cbCfg, cb, env, k);
    }
  }

  lemma {:induction false} SomeNotMade(cfg: RetryConfig, cbCfg: Config, cb: Snapshot, n: nat)
    requires 1 <= Budget(cbCfg, cb) <= n <= cfg.maxRetries && !Outlasts(cfg, cbCfg, n)
    ensures !AllAttemptsMade(cfg, cbCfg, cb)
  {
    var env := HastyRun(cfg, cfg.maxRetries + 1);
    HastyIsPaced(cfg, cfg.maxRetries + 1);
    assert env[n].admitAt == env[n - 1].completeAt + ShortestWait(cfg, n);
    assert TurnedAway(cbCfg, cb, env, n);
    hide Serve, Outlasts, TurnedAway, Paced, Failing, Undisturbed;
    FailingUpstream(cfg, cbCfg, cb, env);
  }

  /** A breaker that is not open and lets the first attempt through sees all attempts made
      if and only if every backoff from the one after its opening on lasts through the
      timeout, even at half its length. */
  lemma {:induction false} AllAttemptsMadeIff(cfg: RetryConfig, cbCfg: Config, cb: Snapshot)
    requires cb.state == Closed || (cb.state == HalfOpen && !cb.halfOpenProbing)
    ensures AllAttemptsMade(cfg, cbCfg, cb) <==>
            forall n :: Budget(cbCfg, cb) <= n <= cfg.maxRetries ==> Outlasts(cfg, cbCfg, n)
  {
    hide Serve, Outlasts, Paced, Failing, Undisturbed;
    if forall n :: Budget(cbCfg, cb) <= n <= cfg.maxRetries ==> Outlasts(cfg, cbCfg, n) {
      forall env: Env | Undisturbed(env) && Covers(env, cfg, 0) && Failing(env) && Paced(cfg, env)
        ensures Serve(cfg, cbCfg, Some(cb), env, 0).calls >= cfg.maxRetries + 1
      {
        AllMade(cfg, cbCfg, cb, env);
      }
    } else {
      var n :| Budget(cbCfg, cb) <= n <= cfg.maxRetries && !Outlasts(cfg, cbCfg, n);
      SomeNotMade(cfg, cbCfg, cb, n);
    }
  }

  /** Retries are always attempted after a closed breaker has opened under exactly the
      configurations without retries, without a timeout, or whose first and last delays are at
      least twice the timeout. With a multiplier of at least one the first decides alone. */
  lemma {:induction false} RetriesAttemptedIff(cfg: RetryConfig, cbCfg: Config)
    requires cfg.multiplier >= 0.0 && cfg.initialDelay >= 0
    ensures (forall cb: Snapshot :: cb.state == Closed && 0 <= cb.failureCount < cbCfg.Failures() ==> AllAttemptsMade(cfg, cbCfg, cb)) <==>
            || cfg.maxRetries <= 0 || cbCfg.timeout <= 0
            || (2 * cbCfg.timeout <= cfg.initialDelay && 2.0 * cbCfg.timeout as real <= Delay(cfg, cfg.maxRetries - 1))
    ensures cfg.multiplier >= 1.0 && cfg.maxRetries >= 1 && 2 * cbCfg.timeout <= cfg.initialDelay ==>
              2.0 * cbCfg.timeout as real <= Delay(cfg, cfg.maxRetries - 1)
  {
    var last := Snapshot(Closed, cbCfg.Failures() - 1, 0, false, 0);
    AllAttemptsMadeIff(cfg, cbCfg, last);
    assert Budget(cbCfg, last) == 1;
    assert Delay(cfg, 0) == cfg.initialDelay as real;
    if cfg.maxRetries >= 1 {
      DelayAtLeastAnEnd(cfg, cfg.maxRetries - 1, cfg.maxRetries - 1);
      assert Outlasts(cfg, cbCfg, 1) <==> cbCfg.timeout <= 0 || 2 * cbCfg.timeout <= cfg.initialDelay;
    }
    hide Delay, AllAttemptsMade;
    if cfg.maxRetries >= 1 && Outlasts(cfg, cbCfg, 1) && Outlasts(cfg, cbCfg, cfg.maxRetries) {
      forall n | 1 <= n <= cfg.maxRetries
        ensures Outlasts(cfg, cbCfg, n)
      {
        DelayAtLeastAnEnd(cfg, n - 1, cfg.maxRetries - 1);
      }
    }
    forall cb: Snapshot | cb.state == Closed && 0 <= cb.failureCount < cbCfg.Failures()
      ensures (forall n :: 1 <= n <= cfg.maxRetries ==> Outlasts(cfg, cbCfg, n)) ==> AllAttemptsMade(cfg, cbCfg, cb)
    {
      AllAttemptsMadeIff(cfg, cbCfg, cb);
    }
  }

  // ---------- The breaker alone ----------

  /** Without retries the upstream's reply is forwarded whatever its code, and its code
      only decides what the breaker records, other requests having had their sections during
      the call. */
  method ServeThroughBreaker(cb: CircuitBreaker, admitAt: int, othersDuring: seq<Section>, reply: Reply, completeAt: int)
    returns (outcome: Outcome)
    modifies cb
    ensures outcome == if AdmitStep(cb.cfg, old(cb.Snap()), admitAt).1.Rejected? then CircuitIsOpen else Forwarded(reply)
    ensures cb.Snap() ==
              var (s, a, _) := AdmitStep(cb.cfg, old(cb.Snap()), admitAt);
              if a.Rejected? then s
              else CompleteStep(cb.cfg, Meanwhile(cb.cfg, s, othersDuring), a.isProbe, !Failed(reply), completeAt).0
  {
    var a, _ := cb.Admit(admitAt);
    if a.Rejected? {
      return CircuitIsOpen;
    }
    OtherTraffic(cb, othersDuring);
    var _ := cb.Complete(a.isProbe, !Failed(reply), completeAt);
    return Forwarded(reply);
  }
}
