/** The three-state circuit breaker. Its two critical sections, before and after the
    protected call, are the two methods Admit and Complete; the call itself runs between
    them without the lock, so any number of other sections may come in between. */
module CircuitBreaker {
  import opened GatewayConfig
  import opened Wrappers

  datatype State = Closed | Open | HalfOpen

  type Config = CircuitBreakerConfig

  /** The fields of the breaker that its methods update. */
  datatype Snapshot = Snapshot(
    state: State,
    failureCount: int,
    successCount: int,
    halfOpenProbing: bool,
    openedAt: int)

  datatype Admission = Rejected | Admitted(isProbe: bool)

  /** A change of state, for which one callback is owed once the lock is released. */
  datatype Transition = Transition(from: State, to: State)

  /** The section before the call, state by state. */
  function AdmitStep(cfg: Config, s: Snapshot, now: int): (Snapshot, Admission, Option<Transition>) {
    match s.state
    case Closed =>
      (s, Admitted(false), None)
    case HalfOpen =>
      if s.halfOpenProbing then (s, Rejected, None) else (s.(halfOpenProbing := true), Admitted(true), None)
    case Open =>
      if now - s.openedAt >= cfg.timeout then
        (Snapshot(HalfOpen, 0, 0, true, s.openedAt), Admitted(true), Some(Transition(Open, HalfOpen)))
      else (s, Rejected, None)
  }

  /** Whether the outcome of a call moves the breaker, and where. */
  function Target(cfg: Config, s: Snapshot, ok: bool): State {
    match s.state
    case Closed => if !ok && s.failureCount + 1 >= cfg.failureThreshold then Open else Closed
    case HalfOpen => if !ok then Open else if s.successCount + 1 >= cfg.successThreshold then Closed else HalfOpen
    case Open => Open
  }

  /** The section after the call. */
  function CompleteStep(cfg: Config, s: Snapshot, isProbe: bool, ok: bool, now: int): (Snapshot, Option<Transition>) {
    var to := Target(cfg, s, ok);
    if to != s.state then
      (Snapshot(to, 0, 0, false, if to == Open then now else s.openedAt), Some(Transition(s.state, to)))
    else
      (Snapshot(to, if ok then 0 else s.failureCount + 1, if ok then s.successCount + 1 else 0,
                s.halfOpenProbing && !isProbe, s.openedAt),
       None)
  }

  class CircuitBreaker {
    const cfg: Config
    var state: State
    var failureCount: int
    var successCount: int
    var halfOpenProbing: bool
    var openedAt: int

    function Snap(): Snapshot
      reads this
    {
      Snapshot(state, failureCount, successCount, halfOpenProbing, openedAt)
    }

    constructor (cfg: Config)
      ensures this.cfg == cfg
      ensures Snap() == Snapshot(Closed, 0, 0, false, 0)
    {
      this.cfg := cfg;
      state, failureCount, successCount, halfOpenProbing, openedAt := Closed, 0, 0, false, 0;
    }

    method SetState(to: State, now: int) returns (from: State, changed: bool)
      modifies this
      ensures Snap() == Snapshot(to, 0, 0, false, if to == Open then now else old(openedAt))
      ensures from == old(state) && changed == (from != to)
    {
      from := state;
      state := to;
      failureCount := 0;
      successCount := 0;
      halfOpenProbing := false;
      if to == Open {
        openedAt := now;
      }
      changed := from != to;
    }

    method Admit(now: int) returns (a: Admission, owed: Option<Transition>)
      modifies this
      ensures (Snap(), a, owed) == AdmitStep(cfg, old(Snap()), now)
    {
      owed := None;
      if state == Open {
        if now - openedAt >= cfg.timeout {
          var from, changed := SetState(HalfOpen, now);
          if changed {
            owed := Some(Transition(from, HalfOpen));
          }
        } else {
          return Rejected, None;
        }
      }
      var isProbe := false;
      if state == HalfOpen {
        if halfOpenProbing {
          return Rejected, owed;
        }
        halfOpenProbing := true;
        isProbe := true;
      }
      a := Admitted(isProbe);
    }

    method Complete(isProbe: bool, ok: bool, now: int) returns (owed: Option<Transition>)
      modifies this
      ensures (Snap(), owed) == CompleteStep(cfg, old(Snap()), isProbe, ok, now)
    {
      owed := None;
      if isProbe {
        halfOpenProbing := false;
      }
      if !ok {
        failureCount := failureCount + 1;
        successCount := 0;
        if state == HalfOpen || (state == Closed && failureCount >= cfg.failureThreshold) {
          var from, changed := SetState(Open, now);
          if changed {
            owed := Some(Transition(from, Open));
          }
        }
      } else {
        successCount := successCount + 1;
        failureCount := 0;
        if state == HalfOpen && successCount >= cfg.successThreshold {
          var from, changed := SetState(Closed, now);
          if changed {
            owed := Some(Transition(from, Closed));
          }
        }
      }
    }
  }
}
