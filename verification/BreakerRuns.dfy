/** Every interleaving of the breaker's two critical sections, by any number of callers:
    what each step keeps, and what holds over whole runs. */
module BreakerRuns {
  import opened Clock
  import opened Wrappers
  import opened CircuitBreaker

  /** A call between its two sections. Tickets that agree in both fields are
      interchangeable, so the calls in flight form a multiset. */
  datatype Ticket = Ticket(isProbe: bool, period: nat)

  datatype Event =
    | Arrive(now: int)
    | Return(ticket: Ticket, ok: bool, now: int)

  /** The breaker with the bookkeeping the properties speak of: the number of half-open
      periods begun, the calls in flight, the probes of earlier periods that completed in
      the current half-open period, the outcomes recorded since the last transition, and
      the callbacks owed so far. */
  datatype World = World(
    cb: Snapshot,
    period: nat,
    inFlight: multiset<Ticket>,
    lateProbes: nat,
    recorded: seq<bool>,
    log: seq<Transition>)

  const INITIAL := World(Snapshot(Closed, 0, 0, false, 0), 0, multiset{}, 0, [], [])

  predicate Enabled(w: World, e: Event) {
    e.Return? ==> e.ticket in w.inFlight
  }

  predicate Admits(cfg: Config, w: World, e: Event) {
    e.Arrive? && AdmitStep(cfg, w.cb, e.now).1.Admitted?
  }

  function Owed(o: Option<Transition>): seq<Transition> {
    if o.Some? then [o.value] else []
  }

  function Next(cfg: Config, w: World, e: Event): World
    requires Enabled(w, e)
  {
    match e
    case Arrive(now) =>
      var (cb, a, owed) := AdmitStep(cfg, w.cb, now);
      var period := if owed.Some? then w.period + 1 else w.period;
      World(
        cb,
        period,
        if a.Admitted? then w.inFlight + multiset{Ticket(a.isProbe, period)} else w.inFlight,
        if owed.Some? then 0 else w.lateProbes,
        if owed.Some? then [] else w.recorded,
        w.log + Owed(owed))
    case Return(t, ok, now) =>
      var (cb, owed) := CompleteStep(cfg, w.cb, t.isProbe, ok, now);
      World(
        cb,
        w.period,
        w.inFlight - multiset{t},
        if w.cb.state == HalfOpen && t.isProbe && t.period < w.period then w.lateProbes + 1 else w.lateProbes,
        if owed.Some? then [] else w.recorded + [ok],
        w.log + Owed(owed))
  }

  predicate StepAt(cfg: Config, ws: seq<World>, es: seq<Event>, i: nat)
    requires i < |es| && |ws| == |es| + 1
  {
    Enabled(ws[i], es[i]) && ws[i + 1] == Next(cfg, ws[i], es[i])
  }

  predicate IsRun(cfg: Config, ws: seq<World>, es: seq<Event>) {
    && |ws| == |es| + 1
    && ws[0] == INITIAL
    && forall i :: 0 <= i < |es| ==> StepAt(cfg, ws, es, i)
  }

  // ---------- What the counters mean ----------

  /** The length of the run of outcomes equal to b at the end of s. */
  function Trailing(s: seq<bool>, b: bool): nat {
    if s == [] || s[|s| - 1] != b then 0 else 1 + Trailing(s[..|s| - 1], b)
  }

  predicate LastAll(s: seq<bool>, n: nat, b: bool) {
    n <= |s| && forall i :: |s| - n <= i < |s| ==> s[i] == b
  }

  lemma {:induction false} TrailingIsLastAll(s: seq<bool>, n: nat, b: bool)
    ensures Trailing(s, b) >= n <==> LastAll(s, n, b)
  {
    if n > 0 && s != [] && s[|s| - 1] == b {
      TrailingIsLastAll(s[..|s| - 1], n - 1, b);
      if LastAll(s[..|s| - 1], n - 1, b) {
        assert forall i :: |s| - n <= i < |s| - 1 ==> s[i] == s[..|s| - 1][i];
      }
    }
  }

  /** The counters are the lengths of the runs of failures and of successes recorded last. */
  predicate Counted(cfg: Config, cb: Snapshot, recorded: seq<bool>) {
    && cb.failureCount == Trailing(recorded, false)
    && cb.successCount == Trailing(recorded, true)
    && (cb.state == Closed ==> cb.failureCount < cfg.Failures())
    && (cb.state == HalfOpen ==> cb.failureCount == 0 && cb.successCount < cfg.Successes())
    && (cb.halfOpenProbing ==> cb.state == HalfOpen)
  }

  predicate CountersInv(cfg: Config, w: World) {
    Counted(cfg, w.cb, w.recorded)
  }

  // ---------- How many probes are in flight ----------

  /** The probes in flight that the current half-open period admitted. */
  function Probes(w: World): nat {
    w.inFlight[Ticket(true, w.period)]
  }

  function Flag(w: World): nat {
    if w.cb.halfOpenProbing then 1 else 0
  }

  predicate ProbesInv(w: World) {
    && (w.cb.state == HalfOpen ==> w.lateProbes <= w.cb.successCount)
    && (forall t :: t in w.inFlight ==> t.period <= w.period)
    && (w.cb.state == HalfOpen ==> Probes(w) <= Flag(w) + w.lateProbes)
    && (w.cb.state == HalfOpen && w.lateProbes == 0 ==> Probes(w) == Flag(w))
    && (w.cb.halfOpenProbing ==> Probes(w) >= 1)
  }

  // ---------- The transition log ----------

  predicate Edge(t: Transition) {
    t in {Transition(Closed, Open), Transition(Open, HalfOpen), Transition(HalfOpen, Open), Transition(HalfOpen, Closed)}
  }

  /** log is a path of legal edges from Closed to last. */
  predicate Path(log: seq<Transition>, last: State) {
    && (forall i :: 0 <= i < |log| ==> Edge(log[i]))
    && (forall i :: 0 < i < |log| ==> log[i].from == log[i - 1].to)
    && (if log == [] then last == Closed else log[0].from == Closed && log[|log| - 1].to == last)
  }

  predicate Inv(cfg: Config, w: World) {
    CountersInv(cfg, w) && ProbesInv(w) && Path(w.log, w.cb.state)
  }

  lemma TrailingGrows(s: seq<bool>, ok: bool, b: bool)
    ensures Trailing(s + [ok], b) == if ok == b then Trailing(s, b) + 1 else 0
  {
    assert (s + [ok])[..|s|] == s;
  }

  lemma CompletionKeepsCounters(cfg: Config, cb: Snapshot, recorded: seq<bool>, isProbe: bool, ok: bool, now: int)
    requires Counted(cfg, cb, recorded)
    ensures var (cb', owed) := CompleteStep(cfg, cb, isProbe, ok, now);
            Counted(cfg, cb', if owed.Some? then [] else recorded + [ok])
  {
    TrailingGrows(recorded, ok, false);
    TrailingGrows(recorded, ok, true);
    assert Trailing([], false) == Trailing([], true) == 0;
    hide Trailing;
  }

  lemma StepKeepsCounters(cfg: Config, w: World, e: Event)
    requires CountersInv(cfg, w) && Enabled(w, e)
    ensures CountersInv(cfg, Next(cfg, w, e))
  {
    if e.Return? {
      CompletionKeepsCounters(cfg, w.cb, w.recorded, e.ticket.isProbe, e.ok, e.now);
      hide CompleteStep, Counted;
    }
  }

  lemma StepKeepsProbes(cfg: Config, w: World, e: Event)
    requires CountersInv(cfg, w) && ProbesInv(w) && Enabled(w, e)
    ensures ProbesInv(Next(cfg, w, e))
  {
    hide Trailing;
    var w' := Next(cfg, w, e);
    if e.Return? {
      assert w'.inFlight == w.inFlight - multiset{e.ticket};
    } else {
      assert w'.inFlight == w.inFlight || exists b :: w'.inFlight == w.inFlight + multiset{Ticket(b, w'.period)};
    }
  }

  lemma StepKeepsPath(cfg: Config, w: World, e: Event)
    requires CountersInv(cfg, w) && Path(w.log, w.cb.state) && Enabled(w, e)
    ensures var w' := Next(cfg, w, e);
            && w'.log == w.log + (if w'.cb.state != w.cb.state then [Transition(w.cb.state, w'.cb.state)] else [])
            && Path(w'.log, w'.cb.state)
  {
    var w' := Next(cfg, w, e);
    var step := if w'.cb.state != w.cb.state then [Transition(w.cb.state, w'.cb.state)] else [];
    assert w'.log == w.log + step;
    if step != [] {
      assert Edge(step[0]);
      hide Next;
    } else {
      assert w'.log == w.log;
    }
  }

  lemma {:induction false} Reachable(cfg: Config, ws: seq<World>, es: seq<Event>, n: nat)
    requires IsRun(cfg, ws, es) && n < |ws|
    ensures Inv(cfg, ws[n])
  {
    if n > 0 {
      Reachable(cfg, ws, es, n - 1);
      assert StepAt(cfg, ws, es, n - 1);
      StepKeepsCounters(cfg, ws[n - 1], es[n - 1]);
      StepKeepsProbes(cfg, ws[n - 1], es[n - 1]);
      StepKeepsPath(cfg, ws[n - 1], es[n - 1]);
    }
  }

  /** A closed breaker opens exactly when as many of the most recent outcomes since the last
      transition as the threshold asks for are failures; a half-open one opens on any
      failure, whoever reports it, and closes exactly when as many of the most recent as the
      other threshold asks for are successes; an open one is not moved by completions. */
  lemma CompletionMovesExactly(cfg: Config, ws: seq<World>, es: seq<Event>, n: nat)
    requires IsRun(cfg, ws, es) && n < |es| && es[n].Return?
    ensures var recorded := ws[n].recorded + [es[n].ok];
            ws[n + 1].cb.state == match ws[n].cb.state
              case Closed => if LastAll(recorded, cfg.Failures(), false) then Open else Closed
              case Open => Open
              case HalfOpen => if !es[n].ok then Open
                               else if LastAll(recorded, cfg.Successes(), true) then Closed
                               else HalfOpen
  {
    Reachable(cfg, ws, es, n);
    assert StepAt(cfg, ws, es, n);
    var recorded := ws[n].recorded + [es[n].ok];
    assert recorded[..|recorded| - 1] == ws[n].recorded;
    TrailingIsLastAll(recorded, cfg.Failures(), false);
    TrailingIsLastAll(recorded, cfg.Successes(), true);
  }

  /** In any half-open period the probes in flight number at most one plus the probes of
      earlier periods that completed during it, each of which counted as a success, and while the flag is set one of the
      period's own probes is in flight to clear it. */
  lemma ProbeBound(cfg: Config, ws: seq<World>, es: seq<Event>, n: nat)
    requires IsRun(cfg, ws, es) && n < |ws| && ws[n].cb.state == HalfOpen
    ensures Probes(ws[n]) <= 1 + ws[n].lateProbes <= 1 + ws[n].cb.successCount <= cfg.Successes()
    ensures ws[n].lateProbes == 0 ==> Probes(ws[n]) == Flag(ws[n])
    ensures ws[n].cb.halfOpenProbing ==> Probes(ws[n]) >= 1
  {
    Reachable(cfg, ws, es, n);
  }

  // ---------- When the flag counts the probes ----------

  /** The flag says exactly how many of the period's probes are in flight. */
  predicate FlagExact(w: World) {
    w.cb.state == HalfOpen ==> Probes(w) == Flag(w)
  }

  /** A probe of an earlier period reports success while the period's own probe is in
      flight, without closing the breaker. */
  predicate LateSuccess(cfg: Config, w: World, e: Event) {
    && w.cb.state == HalfOpen && w.cb.halfOpenProbing
    && e.Return? && e.ticket.isProbe && e.ticket.period < w.period
    && e.ok && w.cb.successCount + 1 < cfg.Successes()
  }

  lemma FlagExactStep(cfg: Config, w: World, e: Event)
    requires Inv(cfg, w) && Enabled(w, e) && FlagExact(w)
    ensures FlagExact(Next(cfg, w, e)) <==> !LateSuccess(cfg, w, e)
  {
  }

  lemma {:induction false} FlagExactUpTo(cfg: Config, ws: seq<World>, es: seq<Event>, n: nat)
    requires IsRun(cfg, ws, es) && n < |ws|
    ensures (forall i :: 0 <= i <= n ==> FlagExact(ws[i])) <==>
            (forall i :: 0 <= i < n ==> !LateSuccess(cfg, ws[i], es[i]))
  {
    if n > 0 {
      FlagExactUpTo(cfg, ws, es, n - 1);
      Reachable(cfg, ws, es, n - 1);
      assert StepAt(cfg, ws, es, n - 1);
      if FlagExact(ws[n - 1]) {
        FlagExactStep(cfg, ws[n - 1], es[n - 1]);
      }
    }
  }

  /** Over a whole run the flag is exact if and only if no late success occurs. */
  lemma FlagExactIff(cfg: Config, ws: seq<World>, es: seq<Event>)
    requires IsRun(cfg, ws, es)
    ensures (forall i :: 0 <= i < |ws| ==> FlagExact(ws[i])) <==>
            (forall i :: 0 <= i < |es| ==> !LateSuccess(cfg, ws[i], es[i]))
  {
    FlagExactUpTo(cfg, ws, es, |es|);
  }

  /** After a late success the very next arrival is let through as a second probe. */
  lemma LateSuccessLetsASecondProbeIn(cfg: Config, w: World, e: Event, now: int)
    requires Inv(cfg, w) && Enabled(w, e) && FlagExact(w) && LateSuccess(cfg, w, e)
    ensures var w1 := Next(cfg, w, e);
            Admits(cfg, w1, Arrive(now)) && Probes(Next(cfg, w1, Arrive(now))) == 2
  {
  }

  // ---------- How many probes of one period there can be ----------

  /** Whatever the interleaving, at most k of a half-open period's probes are in flight. */
  ghost predicate AtMostProbes(cfg: Config, k: nat) {
    forall ws: seq<World>, es, i :: IsRun(cfg, ws, es) && 0 <= i < |ws| && ws[i].cb.state == HalfOpen ==> Probes(ws[i]) <= k
  }

  function Time(e: Event): int {
    e.now
  }

  predicate Clocked(es: seq<Event>) {
    InOrder(Time, es)
  }

  /** A run whose clock never goes back and has not passed now. */
  predicate ClockedRun(cfg: Config, ws: seq<World>, es: seq<Event>, now: int) {
    IsRun(cfg, ws, es) && Clocked(es) && forall i :: 0 <= i < |es| ==> es[i].now <= now
  }

  lemma Extend(cfg: Config, ws: seq<World>, es: seq<Event>, e: Event) returns (ws': seq<World>, es': seq<Event>)
    requires ClockedRun(cfg, ws, es, e.now) && Enabled(ws[|es|], e)
    ensures ClockedRun(cfg, ws', es', e.now) && ws'[|es'|] == Next(cfg, ws[|es|], e)
  {
    hide Next;
    ws', es' := ws + [Next(cfg, ws[|es|], e)], es + [e];
    forall i | 0 <= i < |es'|
      ensures StepAt(cfg, ws', es', i)
    {
      assert i < |es| ==> StepAt(cfg, ws, es, i);
    }
  }

  predicate At(w: World, cb: Snapshot, period: nat, inFlight: multiset<Ticket>) {
    w.cb == cb && w.period == period && w.inFlight == inFlight
  }

  const EARLY := Ticket(false, 0)

  /** How long after its opening a breaker lets a call through. */
  function Pause(cfg: Config): nat {
    if cfg.timeout > 0 then cfg.timeout else 0
  }

  /** A closed breaker lets any number of calls through. */
  lemma {:induction false} Crowd(cfg: Config, n: nat) returns (ws: seq<World>, es: seq<Event>)
    ensures ClockedRun(cfg, ws, es, 0) && At(ws[|es|], INITIAL.cb, 0, multiset{}[EARLY := n])
  {
    ws, es := [INITIAL], [];
    if n > 0 {
      ws, es := Crowd(cfg, n - 1);
      assert multiset{}[EARLY := n - 1] + multiset{EARLY} == multiset{}[EARLY := n];
      ws, es := Extend(cfg, ws, es, Arrive(0));
    }
  }

  /** Of the calls that the threshold asks for and extra more, n fail. */
  lemma {:induction false} FirstFailures(cfg: Config, extra: nat, n: nat) returns (ws: seq<World>, es: seq<Event>)
    requires n < cfg.Failures()
    ensures ClockedRun(cfg, ws, es, 0)
    ensures At(ws[|es|], Snapshot(Closed, n, 0, false, 0), 0, multiset{}[EARLY := cfg.Failures() + extra - n])
  {
    if n == 0 {
      ws, es := Crowd(cfg, cfg.Failures() + extra);
    } else {
      ws, es := FirstFailures(cfg, extra, n - 1);
      var left := cfg.Failures() + extra - n;
      assert multiset{}[EARLY := left + 1] - multiset{EARLY} == multiset{}[EARLY := left];
      ws, es := Extend(cfg, ws, es, Return(EARLY, false, 0));
    }
  }

  /** The probes of the periods from the first to the last are in flight. */
  predicate Linger(w: World, first: nat, last: nat) {
    forall j :: first <= j <= last ==> Ticket(true, j) in w.inFlight
  }

  /** The breaker has just opened after p half-open periods, whose probes are all in flight
      beside the early calls that are left. */
  predicate OpenAgain(w: World, p: nat, early: nat, now: int) {
    w.cb == Snapshot(Open, 0, 0, false, now) && w.period == p && w.inFlight[EARLY] == early && Linger(w, 1, p)
  }

  /** The threshold is reached with the extra calls still in flight. */
  lemma Opening(cfg: Config, extra: nat) returns (ws: seq<World>, es: seq<Event>)
    ensures ClockedRun(cfg, ws, es, 0) && OpenAgain(ws[|es|], 0, extra, 0)
  {
    ws, es := FirstFailures(cfg, extra, cfg.Failures() - 1);
    assert multiset{}[EARLY := extra + 1] - multiset{EARLY} == multiset{}[EARLY := extra];
    ws, es := Extend(cfg, ws, es, Return(EARLY, false, 0));
  }

  /** A probe goes out, and an early call reports a failure. */
  lemma OnePeriod(cfg: Config, w: World, p: nat, early: nat, now: int)
    requires OpenAgain(w, p, early + 1, now)
    ensures var later := now + Pause(cfg);
            var w1 := Next(cfg, w, Arrive(later));
            Enabled(w1, Return(EARLY, false, later)) && OpenAgain(Next(cfg, w1, Return(EARLY, false, later)), p + 1, early, later)
  {
    var later := now + Pause(cfg);
    var w1 := Next(cfg, w, Arrive(later));
    assert w1.cb == Snapshot(HalfOpen, 0, 0, true, now);
    assert w1.inFlight == w.inFlight + multiset{Ticket(true, p + 1)};
    var w2 := Next(cfg, w1, Return(EARLY, false, later));
    assert w2.inFlight == w1.inFlight - multiset{EARLY};
  }

  /** p half-open periods, each ended by an early call. */
  lemma {:induction false} Reopened(cfg: Config, extra: nat, p: nat) returns (ws: seq<World>, es: seq<Event>, now: int)
    requires p <= extra
    ensures ClockedRun(cfg, ws, es, now) && OpenAgain(ws[|es|], p, extra - p, now)
  {
    hide Next, OpenAgain;
    if p == 0 {
      ws, es := Opening(cfg, extra);
      now := 0;
    } else {
      ws, es, now := Reopened(cfg, extra, p - 1);
      OnePeriod(cfg, ws[|es|], p - 1, extra - p, now);
      now := now + Pause(cfg);
      ws, es := Extend(cfg, ws, es, Arrive(now));
      ws, es := Extend(cfg, ws, es, Return(EARLY, false, now));
    }
  }

  /** Under every configuration a probe can outlive its period: an early call fails after
      the first probe has gone out, and a second period begins beside it. */
  lemma SecondPeriod(cfg: Config) returns (ws: seq<World>, es: seq<Event>)
    ensures IsRun(cfg, ws, es) && Clocked(es)
    ensures var w := ws[|es|];
            w.cb.state == HalfOpen && w.period == 2 && Ticket(true, 1) in w.inFlight && Ticket(true, 2) in w.inFlight
  {
    var now;
    ws, es, now := Reopened(cfg, 1, 1);
    ws, es := Extend(cfg, ws, es, Arrive(now + Pause(cfg)));
  }

  /** k probes of the current period are in flight, k - 1 probes of earlier periods having
      succeeded during it, and those of the other earlier periods are still to come. */
  predicate Crowded(cfg: Config, w: World, k: nat) {
    && 1 <= k <= cfg.Successes()
    && w.cb.state == HalfOpen && w.cb.halfOpenProbing && w.cb.successCount == k - 1
    && w.period == cfg.Successes() && Probes(w) >= k && Linger(w, k, w.period - 1)
  }

  lemma FirstProbe(cfg: Config, w: World, now: int)
    requires OpenAgain(w, cfg.Successes() - 1, 0, now)
    ensures Crowded(cfg, Next(cfg, w, Arrive(now + Pause(cfg))), 1)
  {
    var w' := Next(cfg, w, Arrive(now + Pause(cfg)));
    assert w'.inFlight == w.inFlight + multiset{Ticket(true, cfg.Successes())};
  }

  /** A late success frees the flag, and the next arrival is one probe more. */
  lemma OneMoreProbe(cfg: Config, w: World, k: nat, now: int)
    requires Crowded(cfg, w, k) && k < cfg.Successes()
    ensures var e := Return(Ticket(true, k), true, now);
            Enabled(w, e) && Crowded(cfg, Next(cfg, Next(cfg, w, e), Arrive(now)), k + 1)
  {
    var w1 := Next(cfg, w, Return(Ticket(true, k), true, now));
    assert w1.inFlight == w.inFlight - multiset{Ticket(true, k)};
    assert w1.cb.state == HalfOpen && !w1.cb.halfOpenProbing;
    var w2 := Next(cfg, w1, Arrive(now));
    assert w2.inFlight == w1.inFlight + multiset{Ticket(true, w.period)};
  }

  /** The runs in which the crowd of probes grows to k. */
  lemma {:induction false} CrowdGrows(cfg: Config, k: nat) returns (ws: seq<World>, es: seq<Event>, now: int)
    requires 1 <= k <= cfg.Successes()
    ensures ClockedRun(cfg, ws, es, now) && Crowded(cfg, ws[|es|], k)
  {
    hide Next, Crowded, OpenAgain;
    if k == 1 {
      var p := cfg.Successes() - 1;
      ws, es, now := Reopened(cfg, p, p);
      FirstProbe(cfg, ws[|es|], now);
      now := now + Pause(cfg);
      ws, es := Extend(cfg, ws, es, Arrive(now));
    } else {
      ws, es, now := CrowdGrows(cfg, k - 1);
      OneMoreProbe(cfg, ws[|es|], k - 1, now);
      ws, es := Extend(cfg, ws, es, Return(Ticket(true, k - 1), true, now));
      ws, es := Extend(cfg, ws, es, Arrive(now));
    }
  }

  /** Under every configuration, as many probes of one period can be in flight as successes
      are needed to close the breaker. */
  lemma ProbesInFlight(cfg: Config) returns (ws: seq<World>, es: seq<Event>)
    ensures IsRun(cfg, ws, es) && Clocked(es)
    ensures ws[|es|].cb.state == HalfOpen && Probes(ws[|es|]) == cfg.Successes()
  {
    var now;
    ws, es, now := CrowdGrows(cfg, cfg.Successes());
    ProbeBound(cfg, ws, es, |es|);
  }

  /** The greatest number of a period's probes in flight is exactly the number of successes
      that close the breaker. */
  lemma MostProbesIff(cfg: Config, k: nat)
    ensures AtMostProbes(cfg, k) <==> cfg.Successes() <= k
  {
    if cfg.Successes() <= k {
      forall ws: seq<World>, es, i | IsRun(cfg, ws, es) && 0 <= i < |ws| && ws[i].cb.state == HalfOpen
        ensures Probes(ws[i]) <= k
      {
        ProbeBound(cfg, ws, es, i);
      }
    } else {
      var ws, es := ProbesInFlight(cfg);
      assert Probes(ws[|es|]) > k;
    }
  }

  /** The promise of a single probe is kept under exactly the configurations that close the
      breaker on the first success. */
  lemma SingleProbeIff(cfg: Config)
    ensures AtMostProbes(cfg, 1) <==> cfg.successThreshold <= 1
  {
    MostProbesIff(cfg, 1);
  }

  /** There the flag counts the probes exactly, since no success can come late. */
  lemma OneSuccessOneProbe(cfg: Config, ws: seq<World>, es: seq<Event>, n: nat)
    requires cfg.successThreshold <= 1 && IsRun(cfg, ws, es) && n < |ws| && ws[n].cb.state == HalfOpen
    ensures Probes(ws[n]) == Flag(ws[n])
  {
    forall i | 0 <= i < |es|
      ensures !LateSuccess(cfg, ws[i], es[i])
    {
      Reachable(cfg, ws, es, i);
    }
    FlagExactIff(cfg, ws, es);
    assert FlagExact(ws[n]);
  }

  // ---------- Quarantine ----------

  predicate Opens(ws: seq<World>, i: nat)
    requires i + 1 < |ws|
  {
    ws[i].cb.state != Open && ws[i + 1].cb.state == Open
  }

  lemma OpenStep(cfg: Config, w: World, e: Event)
    requires Enabled(w, e)
    ensures w.cb.state == Open && !(e.now - w.cb.openedAt >= cfg.timeout) ==>
              Next(cfg, w, e).cb.state == Open && Next(cfg, w, e).cb.openedAt == w.cb.openedAt
    ensures w.cb.state != Open && Next(cfg, w, e).cb.state == Open ==> Next(cfg, w, e).cb.openedAt == e.now
  {
  }

  /** Until some later event happens at or after the timeout, the breaker stays open. */
  lemma {:induction false} StaysOpen(cfg: Config, ws: seq<World>, es: seq<Event>, i: nat, j: nat)
    requires IsRun(cfg, ws, es) && Clocked(es) && i < j <= |es| && Opens(ws, i)
    ensures (ws[j].cb.state == Open && ws[j].cb.openedAt == es[i].now) || es[j - 1].now - es[i].now >= cfg.timeout
  {
    assert StepAt(cfg, ws, es, j - 1);
    OpenStep(cfg, ws[j - 1], es[j - 1]);
    if j > i + 1 {
      StaysOpen(cfg, ws, es, i, j - 1);
    }
  }

  /** Whatever completes or arrives meanwhile, no call is let through between a transition
      to Open and the end of the timeout. */
  lemma Quarantine(cfg: Config, ws: seq<World>, es: seq<Event>, i: nat, j: nat)
    requires IsRun(cfg, ws, es) && Clocked(es) && i < j < |es|
    requires Opens(ws, i) && Admits(cfg, ws[j], es[j])
    ensures es[j].now >= es[i].now + cfg.timeout
  {
    StaysOpen(cfg, ws, es, i, j);
  }

  /** While the flag is set, arrivals alone change nothing: only a completion can let the
      next call through. */
  lemma {:induction false} OnlyACompletionFreesTheProbe(cfg: Config, ws: seq<World>, es: seq<Event>, i: nat, j: nat)
    requires IsRun(cfg, ws, es) && i <= j < |ws|
    requires ws[i].cb.halfOpenProbing && forall k :: i <= k < j ==> es[k].Arrive?
    ensures ws[j].cb == ws[i].cb && ws[j].inFlight == ws[i].inFlight
  {
    Reachable(cfg, ws, es, i);
    if i < j {
      OnlyACompletionFreesTheProbe(cfg, ws, es, i, j - 1);
      assert StepAt(cfg, ws, es, j - 1);
    }
  }
}
