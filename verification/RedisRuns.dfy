/** Runs of any number of processes on one Redis store: every key is answered as on a store
    of its own. */
module RedisRuns {
  import opened Clock
  import opened Limiter
  import opened RedisLimiter
  import opened Wrappers
  import LB = LeakyBucket
  import SW = SlidingWindow
  import TB = TokenBucket

  /** The algorithm is part of every key's name, and a key belongs to one configured limiter. */
  datatype Settings = Settings(algorithm: Algorithm, p: TB.Params)

  /** A request at some process, and the store dropping a key whose time has come. */
  datatype Op =
    | Ask(instance: string, key: string, now: int)
    | Drop(key: string, now: int)

  /** The store and every process's counter. */
  datatype World = World(keys: Keys, serials: map<string, nat>)

  ghost predicate AllValid(settings: string -> Settings) {
    forall key :: settings(key).p.Valid()
  }

  function NewMember(w: World, instance: string, now: int): SW.Member {
    SW.Member(instance, now, (if instance in w.serials then w.serials[instance] else 0) + 1)
  }

  ghost function AskStep(settings: string -> Settings, w: World, instance: string, key: string, now: int):
    (Keys, Result<Reply, ScriptError>)
    requires AllValid(settings)
  {
    AllowStep(w.keys, key, settings(key).p, settings(key).algorithm, now, NewMember(w, instance, now))
  }

  ghost function Next(settings: string -> Settings, w: World, op: Op): World
    requires AllValid(settings)
  {
    match op
    case Ask(instance, key, now) =>
      World(AskStep(settings, w, instance, key, now).0,
            if settings(key).algorithm == SlidingWindowLog then w.serials[instance := NewMember(w, instance, now).serial] else w.serials)
    case Drop(key, now) =>
      World(DropStep(w.keys, key, now), w.serials)
  }

  ghost function After(settings: string -> Settings, ops: seq<Op>): World
    requires AllValid(settings)
  {
    if ops == [] then World(map[], map[])
    else Next(settings, After(settings, ops[..|ops| - 1]), ops[|ops| - 1])
  }

  ghost function Answer(settings: string -> Settings, ops: seq<Op>, instance: string, key: string, now: int): Result<Reply, ScriptError>
    requires AllValid(settings)
  {
    AskStep(settings, After(settings, ops), instance, key, now).1
  }

  function Time(op: Op): int {
    op.now
  }

  predicate Clocked(ops: seq<Op>) {
    (forall i :: 0 <= i < |ops| ==> 0 <= ops[i].now) && InOrder(Time, ops)
  }

  // ---------- What one key sees of a run ----------

  /** A request on another key matters to a sliding window only for the process's counter. */
  function SlidingOp(settings: string -> Settings, op: Op, key: string): Option<SW.Op> {
    match op
    case Ask(instance, k, now) =>
      if settings(k).algorithm != SlidingWindowLog then None
      else Some(if k == key then SW.Request(instance, now) else SW.Elsewhere(instance, now))
    case Drop(k, now) => if k == key then Some(SW.Expire(now)) else None
  }

  function SlidingOps(settings: string -> Settings, ops: seq<Op>, key: string): seq<SW.Op> {
    if ops == [] then []
    else
      var before, op := SlidingOps(settings, ops[..|ops| - 1], key), SlidingOp(settings, ops[|ops| - 1], key);
      if op.Some? then before + [op.value] else before
  }

  function LeakyOps(ops: seq<Op>, key: string): seq<LB.Op> {
    if ops == [] then []
    else
      var before, op := LeakyOps(ops[..|ops| - 1], key), ops[|ops| - 1];
      if op.key != key then before
      else before + [if op.Ask? then LB.Request(op.now) else LB.Expire(op.now)]
  }

  /** The times of the requests on a key. */
  function Asks(ops: seq<Op>, key: string): seq<int> {
    if ops == [] then []
    else
      var before, op := Asks(ops[..|ops| - 1], key), ops[|ops| - 1];
      if op.Ask? && op.key == key then before + [op.now] else before
  }

  /** The key holds the sorted set of its own run, and never a hash. */
  ghost predicate SlidingApart(w: World, own: SW.World, key: string) {
    HashIn(w.keys, key) == None && SetIn(w.keys, key) == own.z && w.serials == own.serials
  }

  ghost predicate LeakyApart(settings: string -> Settings, ops: seq<Op>, key: string)
    requires AllValid(settings)
  {
    var w, p := After(settings, ops), settings(key).p;
    SetIn(w.keys, key) == None && HashIn(w.keys, key) == LB.After(p, LeakyOps(ops, key))
  }

  lemma SlidingStepApart(settings: string -> Settings, w: World, own: SW.World, op: Op, key: string)
    requires AllValid(settings) && settings(key).algorithm == SlidingWindowLog && SlidingApart(w, own, key)
    ensures var p, its := settings(key).p, SlidingOp(settings, op, key);
            SlidingApart(Next(settings, w, op), if its.Some? then SW.Next(p.window, p.limit, own, its.value) else own, key)
  {
    hide SW.SlidingStep;
    if op.Ask? && op.key == key {
      assert NewMember(w, op.instance, op.now) == SW.NewMember(own, op.instance, op.now);
    }
  }

  lemma {:induction false} SlidingKeyIsApart(settings: string -> Settings, ops: seq<Op>, key: string)
    requires AllValid(settings) && settings(key).algorithm == SlidingWindowLog
    ensures SlidingApart(After(settings, ops),
                         SW.After(settings(key).p.window, settings(key).p.limit, SlidingOps(settings, ops, key)), key)
  {
    if ops != [] {
      hide Next, SW.Next;
      var n, p := |ops| - 1, settings(key).p;
      SlidingKeyIsApart(settings, ops[..n], key);
      var less, more := SlidingOps(settings, ops[..n], key), SlidingOps(settings, ops, key);
      assert more != less ==> more[..|more| - 1] == less;
      SlidingStepApart(settings, After(settings, ops[..n]), SW.After(p.window, p.limit, less), ops[n], key);
    }
  }

  lemma {:induction false} LeakyKeyIsApart(settings: string -> Settings, ops: seq<Op>, key: string)
    requires AllValid(settings) && settings(key).algorithm == LeakyBucketMeter
    ensures LeakyApart(settings, ops, key)
  {
    if ops != [] {
      var before, op := ops[..|ops| - 1], ops[|ops| - 1];
      LeakyKeyIsApart(settings, before, key);
      var less, more := LeakyOps(before, key), LeakyOps(ops, key);
      assert more != less ==> more[..|more| - 1] == less;
    }
  }

  /** Whatever happens on other keys, at other processes and by expiry, a key is answered as
      in its own run, and never with an error. */
  lemma AnswersApart(settings: string -> Settings, ops: seq<Op>, instance: string, key: string, now: int)
    requires AllValid(settings)
    ensures var p := settings(key).p;
            Answer(settings, ops, instance, key, now) ==
              match settings(key).algorithm
              case SlidingWindowLog =>
                Ok(SW.Answer(p.window, p.limit, SW.After(p.window, p.limit, SlidingOps(settings, ops, key)), instance, now))
              case LeakyBucketMeter => Ok(LB.Answer(p, LeakyOps(ops, key), now))
  {
    hide After, SW.After, LB.After, SW.SlidingStep, LB.LeakyStep;
    if settings(key).algorithm == SlidingWindowLog {
      SlidingKeyIsApart(settings, ops, key);
    } else {
      LeakyKeyIsApart(settings, ops, key);
    }
  }

  // ---------- Clocked runs ----------

  lemma {:induction false} ProjectionsAreClocked(settings: string -> Settings, ops: seq<Op>, key: string, last: int)
    requires Clocked(ops) && forall i :: 0 <= i < |ops| ==> ops[i].now <= last
    ensures SW.Clocked(SlidingOps(settings, ops, key)) && LB.Clocked(LeakyOps(ops, key))
    ensures forall op :: op in SlidingOps(settings, ops, key) ==> op.now <= last
    ensures forall op :: op in LeakyOps(ops, key) ==> op.now <= last
  {
    if ops != [] {
      var n := |ops| - 1;
      assert ops[..n] + [ops[n]] == ops;
      ProjectionsAreClocked(settings, ops[..n], key, ops[n].now);
    }
  }

  lemma {:induction false} ProjectionsAsk(settings: string -> Settings, ops: seq<Op>, key: string)
    ensures settings(key).algorithm == SlidingWindowLog ==> SW.Times(SlidingOps(settings, ops, key)) == Asks(ops, key)
    ensures LB.Times(LeakyOps(ops, key)) == Asks(ops, key)
  {
    if ops != [] {
      var before := ops[..|ops| - 1];
      ProjectionsAsk(settings, before, key);
      var sliding, leaky := SlidingOps(settings, ops, key), LeakyOps(ops, key);
      assert sliding != [] ==> sliding == sliding[..|sliding| - 1] + [sliding[|sliding| - 1]];
      assert leaky != [] ==> leaky == leaky[..|leaky| - 1] + [leaky[|leaky| - 1]];
    }
  }

  lemma OwnRuns(settings: string -> Settings, ops: seq<Op>, instance: string, key: string, now: int)
    requires Clocked(ops + [Ask(instance, key, now)])
    ensures SW.Clocked(SlidingOps(settings, ops, key) + [SW.Request(instance, now)])
    ensures LB.Clocked(LeakyOps(ops, key) + [LB.Request(now)])
  {
    InOrderParts(Time, ops, [Ask(instance, key, now)]);
    assert [Ask(instance, key, now)][0].now == now;
    assert (ops + [Ask(instance, key, now)])[|ops|].now == now;
    ProjectionsAreClocked(settings, ops, key, now);
  }

  /** What the rule answers to a request after the others on its key. */
  predicate AsTheRule(p: TB.Params, asks: seq<int>, now: int, reply: Reply) {
    var count := SW.Count(SW.Granted(p.window, p.limit, asks), p.window, now);
    reply.allowed == (count < p.limit) && reply.remaining == if count < p.limit then p.limit - count - 1 else 0
  }

  predicate AsATokenBucket(p: TB.Params, asks: seq<int>, now: int, reply: Reply)
    requires p.Valid()
  {
    var d := TB.Outcome(p, asks, now);
    reply.allowed == d.allowed && reply.remaining == d.remaining
  }

  /** On every clocked run the requests on a key are decided by their times alone, whatever
      happens on other keys, at other processes and by expiry: those of a sliding window by the
      rule, those of a leaky bucket as by a token bucket. */
  lemma EveryKeyOnItsOwn(settings: string -> Settings, ops: seq<Op>, instance: string, key: string, now: int)
    requires AllValid(settings) && Clocked(ops + [Ask(instance, key, now)])
    ensures var p, asks, r := settings(key).p, Asks(ops, key), Answer(settings, ops, instance, key, now);
            && r.Ok?
            && (settings(key).algorithm == SlidingWindowLog ==> AsTheRule(p, asks, now, r.value))
            && (settings(key).algorithm == LeakyBucketMeter ==> AsATokenBucket(p, asks, now, r.value))
  {
    var p := settings(key).p;
    OwnRuns(settings, ops, instance, key, now);
    ProjectionsAsk(settings, ops, key);
    AnswersApart(settings, ops, instance, key, now);
    if settings(key).algorithm == SlidingWindowLog {
      SW.DecidesByTheRule(p.window, p.limit, SlidingOps(settings, ops, key), instance, now);
    } else {
      LB.SameAsTokenBucket(p, LeakyOps(ops, key), now);
    }
  }
}
