/** The sliding-window script on one key of the store, and the proof that the trimmed and
    expiring sorted set decides as the whole history of accepted requests would. */
module SlidingWindow {
  import opened Clock
  import opened Limiter
  import opened Wrappers

  /** A sorted-set member. The instance identifies the process, the serial number is taken
      from the process's counter. */
  datatype Member = Member(instance: string, nowMs: int, serial: nat)

  /** A sorted set by member, with the time from which the store may drop the key. */
  datatype ZSet = ZSet(scores: map<Member, int>, expireAt: int)

  /** Removes the scores from lo to hi; a set left empty is no longer there. */
  function WithoutRange(z: Option<ZSet>, lo: int, hi: int): Option<ZSet> {
    if z.None? then None
    else
      var left := map m | m in z.value.scores && !(lo <= z.value.scores[m] <= hi) :: z.value.scores[m];
      if left == map[] then None else Some(ZSet(left, z.value.expireAt))
  }

  lemma {:induction false} LeastExists(values: set<int>, v: int)
    requires v in values
    ensures exists o :: o in values && forall u :: u in values ==> o <= u
  {
    if w :| w in values && w != v {
      LeastExists(values - {v}, w);
      var o :| o in values - {v} && forall u :: u in values - {v} ==> o <= u;
      var least := if v <= o then v else o;
      assert forall u :: u in values ==> u == v || u in values - {v};
      assert least in values && forall u :: u in values ==> least <= u;
    } else {
      assert forall u :: u in values ==> v <= u;
    }
  }

  lemma OldestExists(scores: map<Member, int>)
    requires scores != map[]
    ensures exists m :: m in scores && forall n :: n in scores ==> scores[m] <= scores[n]
  {
    var m :| m in scores;
    assert scores[m] in scores.Values;
    LeastExists(scores.Values, scores[m]);
    var o :| o in scores.Values && forall u :: u in scores.Values ==> o <= u;
    var least :| least in scores && scores[least] == o;
    forall n | n in scores
      ensures scores[least] <= scores[n]
    {
      assert scores[n] in scores.Values;
    }
  }

  /** The least score. */
  ghost function Oldest(scores: map<Member, int>): int
    requires scores != map[]
  {
    OldestExists(scores);
    var m :| m in scores && forall n :: n in scores ==> scores[m] <= scores[n];
    scores[m]
  }

  function Scores(z: Option<ZSet>): map<Member, int> {
    if z.None? then map[] else z.value.scores
  }

  /** The script after trimming: adds the member if there is room. */
  ghost function CountStep(z: Option<ZSet>, window: int, limit: int, now: int, member: Member): (Option<ZSet>, Reply) {
    var count := |Scores(z)|;
    if count < limit then
      (Some(ZSet(Scores(z)[member := now], now + window)), Reply(true, limit - count - 1, now + window))
    else
      (z, Reply(false, 0, if Scores(z) == map[] then now + window else Oldest(Scores(z)) + window))
  }

  ghost function SlidingStep(z: Option<ZSet>, window: int, limit: int, now: int, member: Member): (Option<ZSet>, Reply) {
    CountStep(WithoutRange(z, 0, now - window), window, limit, now, member)
  }

  function ExpireStep(z: Option<ZSet>, now: int): Option<ZSet> {
    if z.Some? && now >= z.value.expireAt then None else z
  }

  // ---------- Runs on one key ----------

  /** A request by some process on this key, a request by some process on another key, and
      the store dropping the key, which it does at any time from the expiry on. */
  datatype Op =
    | Request(instance: string, now: int)
    | Elsewhere(instance: string, now: int)
    | Expire(now: int)

  /** The key's sorted set, every process's counter, and every request ever accepted. */
  datatype World = World(z: Option<ZSet>, serials: map<string, nat>, history: map<Member, int>)

  function Serial(w: World, instance: string): nat {
    if instance in w.serials then w.serials[instance] else 0
  }

  function NewMember(w: World, instance: string, now: int): Member {
    Member(instance, now, Serial(w, instance) + 1)
  }

  ghost function Answer(window: int, limit: int, w: World, instance: string, now: int): Reply {
    SlidingStep(w.z, window, limit, now, NewMember(w, instance, now)).1
  }

  ghost function Next(window: int, limit: int, w: World, op: Op): World {
    match op
    case Request(instance, now) =>
      var member := NewMember(w, instance, now);
      var (z, reply) := SlidingStep(w.z, window, limit, now, member);
      World(z, w.serials[instance := member.serial], if reply.allowed then w.history[member := now] else w.history)
    case Elsewhere(instance, now) =>
      w.(serials := w.serials[instance := Serial(w, instance) + 1])
    case Expire(now) =>
      w.(z := ExpireStep(w.z, now))
  }

  ghost function After(window: int, limit: int, ops: seq<Op>): World {
    if ops == [] then World(None, map[], map[])
    else Next(window, limit, After(window, limit, ops[..|ops| - 1]), ops[|ops| - 1])
  }

  function Time(op: Op): int {
    op.now
  }

  predicate Clocked(ops: seq<Op>) {
    && (forall i :: 0 <= i < |ops| ==> 0 <= ops[i].now)
    && InOrder(Time, ops)
  }

  // ---------- The reference: the whole history ----------

  /** The accepted requests with times in (t - window, t]. */
  function InWindow(history: map<Member, int>, window: int, t: int): map<Member, int> {
    map m | m in history && t - window < history[m] <= t :: history[m]
  }

  predicate Inv(window: int, w: World, last: int) {
    && (forall m :: m in w.history ==> 0 <= w.history[m] <= last && m.serial <= Serial(w, m.instance))
    && (w.z.None? ==> forall m :: m in w.history ==> w.history[m] <= last - window)
    && (w.z.Some? ==>
          && (forall m :: m in w.z.value.scores ==> m in w.history && w.z.value.scores[m] == w.history[m])
          && (forall m :: m in w.history && m !in w.z.value.scores ==> w.history[m] <= last - window)
          && (forall m :: m in w.history ==> w.history[m] + window <= w.z.value.expireAt)
          && (exists m :: m in w.history && w.history[m] + window == w.z.value.expireAt))
  }

  lemma TrimmedIsInWindow(window: int, w: World, last: int, now: int)
    requires window >= 1 && Inv(window, w, last) && last <= now
    ensures Scores(WithoutRange(w.z, 0, now - window)) == InWindow(w.history, window, now)
  {
  }

  lemma AcceptKeepsInv(window: int, w: World, last: int, instance: string, now: int)
    requires window >= 1 && Inv(window, w, last) && last <= now && 0 <= now
    ensures var member := NewMember(w, instance, now);
            var scores := InWindow(w.history, window, now)[member := now];
            Inv(window, World(Some(ZSet(scores, now + window)), w.serials[instance := member.serial], w.history[member := now]), now)
  {
    assert NewMember(w, instance, now) !in w.history;
  }

  lemma RejectKeepsInv(window: int, w: World, last: int, instance: string, now: int)
    requires window >= 1 && Inv(window, w, last) && last <= now && 0 <= now
    ensures var serials := w.serials[instance := NewMember(w, instance, now).serial];
            Inv(window, World(WithoutRange(w.z, 0, now - window), serials, w.history), now)
  {
    var z := WithoutRange(w.z, 0, now - window);
    TrimmedIsInWindow(window, w, last, now);
    assert forall m :: m in w.history && m !in Scores(z) ==> w.history[m] <= now - window;
    assert z.Some? ==> w.z.Some? && z.value.expireAt == w.z.value.expireAt;
    assert forall m :: m in Scores(z) ==> m in w.history && Scores(z)[m] == w.history[m];
    hide WithoutRange, InWindow;
  }

  lemma RequestKeepsInv(window: int, limit: int, w: World, last: int, instance: string, now: int)
    requires window >= 1 && Inv(window, w, last) && last <= now && 0 <= now
    ensures Inv(window, Next(window, limit, w, Request(instance, now)), now)
  {
    TrimmedIsInWindow(window, w, last, now);
    AcceptKeepsInv(window, w, last, instance, now);
    RejectKeepsInv(window, w, last, instance, now);
  }

  lemma StepKeepsInv(window: int, limit: int, w: World, last: int, op: Op)
    requires window >= 1 && Inv(window, w, last) && last <= op.now && 0 <= op.now
    ensures Inv(window, Next(window, limit, w, op), op.now)
  {
    if op.Request? {
      RequestKeepsInv(window, limit, w, last, op.instance, op.now);
    }
  }

  lemma {:induction false} Reachable(window: int, limit: int, ops: seq<Op>, last: int)
    requires window >= 1 && Clocked(ops)
    requires if ops == [] then last == 0 else last == ops[|ops| - 1].now
    ensures Inv(window, After(window, limit, ops), last)
  {
    if ops != [] {
      var before := ops[..|ops| - 1];
      var earlier := if before == [] then 0 else before[|before| - 1].now;
      Reachable(window, limit, before, earlier);
      StepKeepsInv(window, limit, After(window, limit, before), earlier, ops[|ops| - 1]);
    }
  }

  lemma MemberIsFresh(window: int, w: World, last: int, instance: string, now: int)
    requires Inv(window, w, last)
    ensures NewMember(w, instance, now) !in w.history
  {
  }

  /** The pruned set decides as the whole history: a request is accepted exactly when fewer
      than limit accepted requests lie in the window that ends with it. */
  lemma DecidesByHistory(window: int, limit: int, ops: seq<Op>, instance: string, now: int)
    requires window >= 1 && Clocked(ops + [Request(instance, now)])
    ensures var w := After(window, limit, ops);
            var inWindow := InWindow(w.history, window, now);
            Answer(window, limit, w, instance, now) ==
              if |inWindow| < limit then Reply(true, limit - |inWindow| - 1, now + window)
              else Reply(false, 0, if inWindow == map[] then now + window else Oldest(inWindow) + window)
    ensures NewMember(After(window, limit, ops), instance, now) !in After(window, limit, ops).history
  {
    hide Inv;
    var all := ops + [Request(instance, now)];
    assert all[|ops|].now == now;
    assert forall i :: 0 <= i < |ops| ==> ops[i] == all[i];
    var last := if ops == [] then 0 else ops[|ops| - 1].now;
    Reachable(window, limit, ops, last);
    TrimmedIsInWindow(window, After(window, limit, ops), last, now);
    MemberIsFresh(window, After(window, limit, ops), last, instance, now);
    hide After, WithoutRange, InWindow, NewMember;
  }

  /** The store drops the key at the right time: once its time has come the set is there if and
      only if an accepted request lies in the window. */
  lemma ExpiryIsExact(window: int, limit: int, ops: seq<Op>, t: int)
    requires window >= 1 && Clocked(ops + [Expire(t)])
    ensures After(window, limit, ops + [Expire(t)]).z.None? <==> InWindow(After(window, limit, ops).history, window, t) == map[]
  {
    InOrderParts(Time, ops, [Expire(t)]);
    assert (ops + [Expire(t)])[..|ops|] == ops && (ops + [Expire(t)])[|ops|].now == t;
    var last := if ops == [] then 0 else ops[|ops| - 1].now;
    Reachable(window, limit, ops, last);
    var w := After(window, limit, ops);
    if w.z.Some? {
      var m :| m in w.history && w.history[m] + window == w.z.value.expireAt;
      assert m in InWindow(w.history, window, t) <==> t < w.z.value.expireAt;
    }
  }

  lemma SubmapSize(a: map<Member, int>, b: map<Member, int>)
    requires forall m :: m in a ==> m in b
    ensures |a| <= |b|
    ensures (exists m :: m in b && m !in a) ==> |a| < |b|
  {
    var rest := b.Keys - a.Keys;
    assert b.Keys == a.Keys + rest;
    assert |b.Keys| == |a.Keys| + |rest|;
  }

  /** Adding a request at the latest time. */
  lemma AddLatest(history: map<Member, int>, window: int, member: Member, now: int, t: int)
    requires member !in history && forall m :: m in history ==> history[m] <= now
    ensures var after := InWindow(history[member := now], window, t);
            if t < now then after == InWindow(history, window, t) else |after| <= |InWindow(history, window, now)| + 1
  {
    var after := InWindow(history[member := now], window, t);
    if t >= now {
      SubmapSize(after, InWindow(history, window, now)[member := now]);
    }
  }

  /** No window of the whole history ever holds more than limit accepted requests. */
  lemma {:induction false} NeverOverLimit(window: int, limit: int, ops: seq<Op>, t: int)
    requires window >= 1 && limit >= 0 && Clocked(ops)
    ensures |InWindow(After(window, limit, ops).history, window, t)| <= limit
  {
    if ops != [] {
      var n := |ops| - 1;
      var before, op := ops[..n], ops[n];
      var w := After(window, limit, before);
      NeverOverLimit(window, limit, before, t);
      if op.Request? && Answer(window, limit, w, op.instance, op.now).allowed {
        assert before + [op] == ops;
        DecidesByHistory(window, limit, before, op.instance, op.now);
        Reachable(window, limit, before, if before == [] then 0 else before[n - 1].now);
        AddLatest(w.history, window, NewMember(w, op.instance, op.now), op.now, t);
      }
    }
  }

  // ---------- The same on lists of times ----------

  /** The times of the key's requests. */
  function Times(ops: seq<Op>): seq<int> {
    if ops == [] then []
    else
      var before, op := Times(ops[..|ops| - 1]), ops[|ops| - 1];
      if op.Request? then before + [op.now] else before
  }

  /** How many times lie in (t - window, t]. */
  function Count(times: seq<int>, window: int, t: int): nat {
    if times == [] then 0
    else
      var last := |times| - 1;
      Count(times[..last], window, t) + if t - window < times[last] <= t then 1 else 0
  }

  /** The sliding-window rule on the times of all requests: those that it grants. */
  function Granted(window: int, limit: int, times: seq<int>): seq<int> {
    if times == [] then []
    else
      var before, now := Granted(window, limit, times[..|times| - 1]), times[|times| - 1];
      if Count(before, window, now) < limit then before + [now] else before
  }

  lemma OneMoreInWindow(history: map<Member, int>, window: int, member: Member, now: int, t: int)
    requires member !in history
    ensures |InWindow(history[member := now], window, t)| ==
              |InWindow(history, window, t)| + if t - window < now <= t then 1 else 0
  {
    var before := InWindow(history, window, t);
    if t - window < now <= t {
      assert InWindow(history[member := now], window, t) == before[member := now];
    } else {
      assert InWindow(history[member := now], window, t) == before;
    }
  }

  lemma GrantedOneMore(window: int, limit: int, times: seq<int>, now: int, t: int)
    ensures var granted := Granted(window, limit, times);
            Count(Granted(window, limit, times + [now]), window, t) == Count(granted, window, t) +
              if Count(granted, window, now) < limit && t - window < now <= t then 1 else 0
  {
    assert (times + [now])[..|times|] == times;
    var granted := Granted(window, limit, times);
    assert (granted + [now])[..|granted|] == granted;
  }

  lemma RequestCounts(window: int, limit: int, ops: seq<Op>, instance: string, now: int, t: int)
    requires window >= 1 && Clocked(ops + [Request(instance, now)])
    ensures var history := After(window, limit, ops).history;
            |InWindow(After(window, limit, ops + [Request(instance, now)]).history, window, t)| == |InWindow(history, window, t)| +
              if |InWindow(history, window, now)| < limit && t - window < now <= t then 1 else 0
  {
    var w := After(window, limit, ops);
    assert (ops + [Request(instance, now)])[..|ops|] == ops;
    DecidesByHistory(window, limit, ops, instance, now);
    OneMoreInWindow(w.history, window, NewMember(w, instance, now), now, t);
    hide SlidingStep, InWindow;
  }

  /** The history holds as many requests in any window as the rule grants there. */
  lemma {:induction false} HistoryCounts(window: int, limit: int, ops: seq<Op>, t: int)
    requires window >= 1 && Clocked(ops)
    ensures |InWindow(After(window, limit, ops).history, window, t)| == Count(Granted(window, limit, Times(ops)), window, t)
  {
    if ops != [] {
      var n := |ops| - 1;
      var before, op := ops[..n], ops[n];
      assert before + [op] == ops;
      HistoryCounts(window, limit, before, t);
      if op.Request? {
        HistoryCounts(window, limit, before, op.now);
        RequestCounts(window, limit, before, op.instance, op.now, t);
        GrantedOneMore(window, limit, Times(before), op.now, t);
        hide After, Granted, Count, InWindow;
      } else {
        hide Granted, Count, InWindow;
      }
    }
  }

  /** So one key of the store, trimmed and expiring, is answered by the rule alone. */
  lemma DecidesByTheRule(window: int, limit: int, ops: seq<Op>, instance: string, now: int)
    requires window >= 1 && Clocked(ops + [Request(instance, now)])
    ensures var count := Count(Granted(window, limit, Times(ops)), window, now);
            var reply := Answer(window, limit, After(window, limit, ops), instance, now);
            reply.allowed == (count < limit) && reply.remaining == if count < limit then limit - count - 1 else 0
  {
    InOrderParts(Time, ops, [Request(instance, now)]);
    DecidesByHistory(window, limit, ops, instance, now);
    HistoryCounts(window, limit, ops, now);
  }

  // ---------- The reset time of a rejection ----------

  lemma OldestIsLeast(scores: map<Member, int>)
    requires scores != map[]
    ensures forall m :: m in scores ==> Oldest(scores) <= scores[m]
    ensures exists m :: m in scores && scores[m] == Oldest(scores)
  {
    OldestExists(scores);
  }

  /** A request is rejected after some operations, and the later requests come before the
      reset time of that rejection. */
  ghost predicate RejectedThenEarly(window: int, limit: int, ops: seq<Op>, instance: string, now: int, later: seq<Op>) {
    var reply := Answer(window, limit, After(window, limit, ops), instance, now);
    !reply.allowed && forall op :: op in later && op.Request? ==> op.now < reply.resetMs
  }

  /** While every request is rejected, the history stays as it was. */
  lemma {:induction false} HistoryFrozen(window: int, limit: int, ops: seq<Op>, instance: string, now: int, later: seq<Op>)
    requires window >= 1 && limit >= 1 && Clocked(ops + [Request(instance, now)] + later)
    requires RejectedThenEarly(window, limit, ops, instance, now, later)
    ensures After(window, limit, ops + [Request(instance, now)] + later).history == After(window, limit, ops).history
    decreases |later|, 0
  {
    var first := ops + [Request(instance, now)];
    var all := first + later;
    if later == [] {
      assert all[..|ops|] == ops && all[|ops|] == Request(instance, now);
    } else {
      var n := |later| - 1;
      assert all == first + later[..n] + [later[n]];
      assert all[..|all| - 1] == first + later[..n];
      InOrderParts(Time, first + later[..n], [later[n]]);
      HistoryFrozen(window, limit, ops, instance, now, later[..n]);
      if later[n].Request? {
        ResetIsTight(window, limit, ops, instance, now, later[..n], later[n].instance, later[n].now);
      }
    }
  }

  /** After a rejection with a reset time, and whatever happens on the key in between with
      requests before that time, a request is accepted if and only if it comes at or after
      the reset time. */
  lemma {:induction false} ResetIsTight(window: int, limit: int, ops: seq<Op>, instance: string, now: int, later: seq<Op>,
                                        who: string, t: int)
    requires window >= 1 && limit >= 1 && Clocked(ops + [Request(instance, now)] + later + [Request(who, t)])
    requires RejectedThenEarly(window, limit, ops, instance, now, later)
    ensures var reset := Answer(window, limit, After(window, limit, ops), instance, now).resetMs;
            var w := After(window, limit, ops + [Request(instance, now)] + later);
            Answer(window, limit, w, who, t).allowed <==> t >= reset
    decreases |later|, 1
  {
    var first := ops + [Request(instance, now)];
    InOrderParts(Time, first + later, [Request(who, t)]);
    InOrderParts(Time, first, later);
    InOrderParts(Time, ops, [Request(instance, now)]);
    assert (first + later)[|ops|].now == now && [Request(who, t)][0].now == t;
    HistoryFrozen(window, limit, ops, instance, now, later);
    DecidesByHistory(window, limit, first + later, who, t);
    ResetFromHistory(window, limit, ops, instance, now, t);
  }

  lemma ResetFromHistory(window: int, limit: int, ops: seq<Op>, instance: string, now: int, t: int)
    requires window >= 1 && limit >= 1 && Clocked(ops + [Request(instance, now)]) && now <= t
    requires !Answer(window, limit, After(window, limit, ops), instance, now).allowed
    ensures |InWindow(After(window, limit, ops).history, window, t)| < limit <==>
            t >= Answer(window, limit, After(window, limit, ops), instance, now).resetMs
  {
    InOrderParts(Time, ops, [Request(instance, now)]);
    DecidesByHistory(window, limit, ops, instance, now);
    NeverOverLimit(window, limit, ops, now);
    var last := if ops == [] then 0 else ops[|ops| - 1].now;
    Reachable(window, limit, ops, last);
    assert [Request(instance, now)][0].now == now;
    Reset(window, limit, After(window, limit, ops).history, now, t);
  }

  lemma Reset(window: int, limit: int, history: map<Member, int>, now: int, t: int)
    requires window >= 1 && limit >= 1 && now <= t
    requires forall m :: m in history ==> history[m] <= now
    requires |InWindow(history, window, now)| == limit
    ensures InWindow(history, window, now) != map[]
    ensures |InWindow(history, window, t)| < limit <==> t >= Oldest(InWindow(history, window, now)) + window
  {
    var a, b := InWindow(history, window, t), InWindow(history, window, now);
    SubmapSize(a, b);
    OldestIsLeast(b);
    if t >= Oldest(b) + window {
      var n :| n in b && b[n] == Oldest(b);
      assert n !in a;
    } else {
      SubmapSize(b, a);
    }
  }
}
