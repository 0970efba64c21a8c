/** The leaky-bucket script on one key of the store, in exact arithmetic, and the proof
    that it is the token bucket seen from the other side. */
module LeakyBucket {
  import opened Clock
  import opened Limiter
  import opened Wrappers
  import TB = TokenBucket

  /** The two stored fields, with the time from which the store may drop the key. */
  datatype Hash = Hash(level: real, lastUpdate: int, expireAt: int)

  function Ceil(x: real): int {
    -((-x).Floor)
  }

  function Max(a: real, b: real): real {
    if a >= b then a else b
  }

  /** The level once the leak since the last update is taken off. */
  function Left(h: Option<Hash>, p: TB.Params, now: int): real
    requires p.Valid()
  {
    var level := if h.Some? then h.value.level else 0.0;
    var elapsed := if h.Some? then now - h.value.lastUpdate else 0;
    if elapsed > 0 then Max(level - elapsed as real * p.Rate(), 0.0) else level
  }

  function LeakyStep(h: Option<Hash>, p: TB.Params, now: int): (Hash, Reply)
    requires p.Valid()
  {
    var rate, left := p.Rate(), Left(h, p, now);
    if left + 1.0 <= p.limit as real then
      (Hash(left + 1.0, now, now + p.window),
       Reply(true, (p.limit as real - (left + 1.0)).Floor, now + Ceil((left + 1.0) / rate)))
    else
      (Hash(left, now, now + p.window),
       Reply(false, 0, now + Ceil((left + 1.0 - p.limit as real) / rate)))
  }

  function ExpireStep(h: Option<Hash>, now: int): Option<Hash> {
    if h.Some? && now >= h.value.expireAt then None else h
  }

  // ---------- Runs on one key ----------

  datatype Op =
    | Request(now: int)
    | Expire(now: int)

  function After(p: TB.Params, ops: seq<Op>): Option<Hash>
    requires p.Valid()
  {
    if ops == [] then None
    else
      var before := After(p, ops[..|ops| - 1]);
      match ops[|ops| - 1]
      case Request(now) => Some(LeakyStep(before, p, now).0)
      case Expire(now) => ExpireStep(before, now)
  }

  function Answer(p: TB.Params, ops: seq<Op>, now: int): Reply
    requires p.Valid()
  {
    LeakyStep(After(p, ops), p, now).1
  }

  /** The times of the requests. */
  function Times(ops: seq<Op>): seq<int> {
    if ops == [] then []
    else
      var before, op := Times(ops[..|ops| - 1]), ops[|ops| - 1];
      if op.Request? then before + [op.now] else before
  }

  function Time(op: Op): int {
    op.now
  }

  predicate Clocked(ops: seq<Op>) {
    InOrder(Time, ops)
  }

  lemma {:induction false} LatestBounded(ops: seq<Op>)
    requires Clocked(ops) && Times(ops) != []
    ensures TB.Latest(Times(ops)) <= ops[|ops| - 1].now
  {
    var n := |ops| - 1;
    var before := ops[..n];
    assert before + [ops[n]] == ops;
    InOrderParts(Time, before, [ops[n]]);
    if Times(before) != [] {
      LatestBounded(before);
    }
    if ops[n].Request? {
      assert Times(ops)[..|Times(before)|] == Times(before);
    }
  }

  // ---------- The same machine as the token bucket ----------

  /** tokens = capacity - level. */
  predicate Mirrors(p: TB.Params, h: Hash, b: TB.Bucket) {
    && h.level == p.limit as real - b.tokens
    && h.lastUpdate == b.lastRefill
    && h.expireAt == h.lastUpdate + p.window
  }

  lemma LeakMirrorsRefill(p: TB.Params, h: Hash, b: TB.Bucket, now: int)
    requires p.Valid() && Mirrors(p, h, b) && h.lastUpdate <= now && b.tokens <= p.limit as real
    ensures var refilled := TB.Refilled(b, p, now);
            Left(Some(h), p, now) == p.limit as real - refilled.tokens && refilled.lastRefill == now
  {
  }

  /** One request on mirrored states. */
  lemma StepMirrors(p: TB.Params, h: Option<Hash>, b: Option<TB.Bucket>, now: int)
    requires p.Valid()
    requires if h.Some?
             then b.Some? && Mirrors(p, h.value, b.value) && h.value.lastUpdate <= now && b.value.tokens <= p.limit as real
             else b.None?
    ensures Mirrors(p, LeakyStep(h, p, now).0, TB.AllowStep(b, p, now).0)
    ensures var r, d := LeakyStep(h, p, now).1, TB.AllowStep(b, p, now).1;
            r.allowed == d.allowed && r.remaining == d.remaining
  {
    var full := TB.Bucket(p.limit as real, now, now);
    if h.Some? {
      LeakMirrorsRefill(p, h.value, b.value, now);
    } else {
      assert TB.Refilled(full, p, now) == full;
    }
    var tokens := TB.Refilled(if b.Some? then b.value else full, p, now).tokens;
    assert Left(h, p, now) + 1.0 <= p.limit as real <==> tokens >= 1.0;
    assert p.limit as real - (Left(h, p, now) + 1.0) == tokens - 1.0;
  }

  /** The stored level mirrors the tokens of a bucket that saw the same requests; a key
      without a stored level has been idle for a whole window. */
  lemma {:induction false} StateMirrors(p: TB.Params, ops: seq<Op>)
    requires p.Valid() && Clocked(ops)
    ensures var h, times := After(p, ops), Times(ops);
            if h.Some? then times != [] && Mirrors(p, h.value, TB.After(p, times).value)
            else times != [] ==> ops[|ops| - 1].now - TB.Latest(times) >= p.window
  {
    if ops != [] {
      var n := |ops| - 1;
      var before, op := ops[..n], ops[n];
      assert before + [op] == ops;
      InOrderParts(Time, before, [op]);
      assert [op][0] == op;
      StateMirrors(p, before);
      var times := Times(before);
      if op.Request? {
        assert (times + [op.now])[..|times|] == times;
        RequestMirrors(p, before, op.now);
      } else if times != [] {
        TB.BucketHoldsLevel(p, times);
      }
    }
  }

  lemma RequestMirrors(p: TB.Params, ops: seq<Op>, now: int)
    requires p.Valid() && Clocked(ops) && (ops != [] ==> ops[|ops| - 1].now <= now)
    requires var h, times := After(p, ops), Times(ops);
             if h.Some? then times != [] && Mirrors(p, h.value, TB.After(p, times).value)
             else times != [] ==> ops[|ops| - 1].now - TB.Latest(times) >= p.window
    ensures Mirrors(p, LeakyStep(After(p, ops), p, now).0, TB.AllowStep(TB.After(p, Times(ops)), p, now).0)
    ensures var r, d := Answer(p, ops, now), TB.Outcome(p, Times(ops), now);
            r.allowed == d.allowed && r.remaining == d.remaining
  {
    var h, times := After(p, ops), Times(ops);
    if times == [] {
      StepMirrors(p, h, None, now);
    } else {
      TB.BucketHoldsLevel(p, times);
      LatestBounded(ops);
      if h.Some? {
        StepMirrors(p, h, TB.After(p, times), now);
      } else {
        TB.TakeFromFull(p, times, now);
        StepMirrors(p, h, None, now);
      }
    }
  }

  /** On every run of nondecreasing times, whenever the store drops the key, the leaky
      bucket gives the answers of the token bucket: by TokenBucket.AllowIsExact, those
      that the list of all accepted requests gives. */
  lemma SameAsTokenBucket(p: TB.Params, ops: seq<Op>, now: int)
    requires p.Valid() && Clocked(ops + [Request(now)])
    ensures var r, d := Answer(p, ops, now), TB.Outcome(p, Times(ops), now);
            r.allowed == d.allowed && r.remaining == d.remaining
  {
    InOrderParts(Time, ops, [Request(now)]);
    assert [Request(now)][0].now == now;
    StateMirrors(p, ops);
    RequestMirrors(p, ops, now);
  }

  /** The store drops the key at the right time: once its time has come the level is there if and
      only if the last request came less than a window ago. */
  lemma ExpiryIsExact(p: TB.Params, ops: seq<Op>, t: int)
    requires p.Valid() && Clocked(ops + [Expire(t)])
    ensures After(p, ops + [Expire(t)]).None? <==> Times(ops) == [] || t - TB.Latest(Times(ops)) >= p.window
  {
    InOrderParts(Time, ops, [Expire(t)]);
    assert (ops + [Expire(t)])[..|ops|] == ops && [Expire(t)][0].now == t;
    StateMirrors(p, ops);
    if Times(ops) != [] {
      TB.BucketHoldsLevel(p, Times(ops));
    }
  }

  // ---------- The reset times ----------

  lemma CeilIsLeast(p: TB.Params, x: real, n: int)
    requires p.Valid()
    ensures p.Rate() > 0.0
    ensures TB.Gain(p, n) >= x <==> n >= Ceil(x / p.Rate())
  {
    TB.RateFillsAWindow(p);
    var rate := p.Rate();
    var q := x / rate;
    assert q * rate == x;
    assert n as real * rate >= x <==> n as real >= q;
  }

  lemma LeakIsRefill(p: TB.Params, h: Hash, tokens: real, now: int)
    requires p.Valid() && h.lastUpdate <= now && h.level == p.limit as real - tokens && 0.0 <= tokens <= p.limit as real
    ensures Left(Some(h), p, now) == p.limit as real - TB.Min(p.limit as real, tokens + TB.Gain(p, now - h.lastUpdate))
  {
    assert TB.Gain(p, 0) == 0.0;
  }

  lemma LeakIsLevel(p: TB.Params, h: Hash, accepted: seq<int>, now: int)
    requires p.Valid() && h.lastUpdate <= now
    requires h.level == p.limit as real - TB.Level(p, accepted, h.lastUpdate)
    requires 0.0 <= TB.Level(p, accepted, h.lastUpdate) <= p.limit as real
    ensures Left(Some(h), p, now) == p.limit as real - TB.Level(p, accepted, now)
  {
    var tokens, later := TB.Level(p, accepted, h.lastUpdate), TB.Level(p, accepted, now);
    var refilled := TB.Min(p.limit as real, tokens + TB.Gain(p, now - h.lastUpdate));
    assert later == refilled by {
      TB.LevelRefills(p, accepted, h.lastUpdate, now);
    }
    assert Left(Some(h), p, now) == p.limit as real - refilled by {
      LeakIsRefill(p, h, tokens, now);
    }
  }

  /** The stored level in terms of the accepted requests. */
  lemma StoredLevel(p: TB.Params, ops: seq<Op>)
    requires p.Valid() && Clocked(ops) && After(p, ops).Some?
    ensures var h := After(p, ops).value;
            var tokens := TB.Level(p, TB.Accepted(p, Times(ops)), h.lastUpdate);
            && ops != [] && h.lastUpdate <= ops[|ops| - 1].now
            && h.level == p.limit as real - tokens
            && 0.0 <= tokens <= p.limit as real
  {
    StateMirrors(p, ops);
    TB.BucketHoldsLevel(p, Times(ops));
    LatestBounded(ops);
  }

  lemma DroppedIsFull(p: TB.Params, ops: seq<Op>, now: int)
    requires p.Valid() && Clocked(ops) && After(p, ops).None? && (ops != [] ==> ops[|ops| - 1].now <= now)
    ensures TB.Level(p, TB.Accepted(p, Times(ops)), now) == p.limit as real
  {
    StateMirrors(p, ops);
    if Times(ops) != [] {
      TB.IdleWindowFills(p, Times(ops), now);
    }
  }

  /** The level that the next decision is taken on, in terms of the accepted requests. */
  lemma LeftMirrorsLevel(p: TB.Params, ops: seq<Op>, now: int)
    requires p.Valid() && Clocked(ops + [Request(now)])
    ensures Left(After(p, ops), p, now) == p.limit as real - TB.Level(p, TB.Accepted(p, Times(ops)), now)
  {
    InOrderParts(Time, ops, [Request(now)]);
    assert [Request(now)][0].now == now;
    var h, accepted := After(p, ops), TB.Accepted(p, Times(ops));
    if h.Some? {
      StoredLevel(p, ops);
      LeakIsLevel(p, h.value, accepted, now);
    } else {
      DroppedIsFull(p, ops, now);
    }
  }

  lemma LeftAt(p: TB.Params, ops: seq<Op>, now: int)
    requires p.Valid() && Clocked(ops + [Request(now)])
    ensures var r, tokens := Answer(p, ops, now), TB.Level(p, TB.Accepted(p, Times(ops)), now);
            && (r.allowed <==> tokens >= 1.0)
            && p.Rate() > 0.0
            && (!r.allowed ==> r.resetMs == now + Ceil((1.0 - tokens) / p.Rate()))
            && (r.allowed ==> r.resetMs == now + Ceil((p.limit as real - (tokens - 1.0)) / p.Rate()))
  {
    TB.RateFillsAWindow(p);
    LeftMirrorsLevel(p, ops, now);
    var tokens := TB.Level(p, TB.Accepted(p, Times(ops)), now);
    assert p.limit as real - tokens + 1.0 - p.limit as real == 1.0 - tokens;
    assert p.limit as real - tokens + 1.0 == p.limit as real - (tokens - 1.0);
  }

  ghost predicate RejectedThenEarly(p: TB.Params, ops: seq<Op>, now: int, later: seq<Op>)
    requires p.Valid()
  {
    var reply := Answer(p, ops, now);
    !reply.allowed && forall op :: op in later && op.Request? ==> op.now < reply.resetMs
  }

  lemma AppendRequest(p: TB.Params, ops: seq<Op>, now: int)
    requires p.Valid() && Clocked(ops + [Request(now)])
    ensures TB.Accepted(p, Times(ops + [Request(now)])) ==
              TB.Accepted(p, Times(ops)) + if Answer(p, ops, now).allowed then [now] else []
  {
    var times := Times(ops);
    assert (ops + [Request(now)])[..|ops|] == ops;
    assert (times + [now])[..|times|] == times;
    InOrderParts(Time, ops, [Request(now)]);
    assert [Request(now)][0].now == now;
    if times != [] {
      LatestBounded(ops);
    }
    assert TB.Latest(times + [now]) == now;
    LeftAt(p, ops, now);
    TB.LevelDecides(p, TB.Accepted(p, times), now);
  }

  lemma {:induction false} AcceptedFrozen(p: TB.Params, ops: seq<Op>, now: int, later: seq<Op>)
    requires p.Valid() && Clocked(ops + [Request(now)] + later) && RejectedThenEarly(p, ops, now, later)
    ensures TB.Accepted(p, Times(ops + [Request(now)] + later)) == TB.Accepted(p, Times(ops))
    decreases |later|, 0
  {
    var first := ops + [Request(now)];
    InOrderParts(Time, first, later);
    if later == [] {
      assert first + later == first;
      AppendRequest(p, ops, now);
    } else {
      var n := |later| - 1;
      var before := first + later[..n];
      assert first + later == before + [later[n]];
      assert (first + later)[..|before|] == before;
      InOrderParts(Time, before, [later[n]]);
      AcceptedFrozen(p, ops, now, later[..n]);
      if later[n].Request? {
        ResetIsTight(p, ops, now, later[..n], later[n].now);
        AppendRequest(p, before, later[n].now);
      }
    }
  }

  /** After a rejection with a reset time, whatever requests come before that time and
      whenever the store drops the key, a request is accepted if and only if it comes at
      or after the reset time: the drains in between compose to one. */
  lemma {:induction false} ResetIsTight(p: TB.Params, ops: seq<Op>, now: int, later: seq<Op>, t: int)
    requires p.Valid() && Clocked(ops + [Request(now)] + later + [Request(t)]) && RejectedThenEarly(p, ops, now, later)
    ensures Answer(p, ops + [Request(now)] + later, t).allowed <==> t >= Answer(p, ops, now).resetMs
    decreases |later|, 1
  {
    var first := ops + [Request(now)];
    InOrderParts(Time, first + later, [Request(t)]);
    InOrderParts(Time, first, later);
    assert (first + later)[|ops|].now == now && [Request(t)][0].now == t;
    AcceptedFrozen(p, ops, now, later);
    LeftAt(p, ops, now);
    LeftAt(p, first + later, t);
    var accepted := TB.Accepted(p, Times(ops));
    TB.LevelRefills(p, accepted, now, t);
    CeilIsLeast(p, 1.0 - TB.Level(p, accepted, now), t - now);
  }

  /** The reset time of an acceptance is the first at which, if nothing else arrives, the
      bucket is empty again. */
  lemma AcceptedResetIsDrained(p: TB.Params, ops: seq<Op>, now: int, t: int)
    requires p.Valid() && Clocked(ops + [Request(now)]) && Answer(p, ops, now).allowed && now <= t
    ensures TB.Level(p, TB.Accepted(p, Times(ops + [Request(now)])), t) == p.limit as real <==>
            t >= Answer(p, ops, now).resetMs
  {
    LeftAt(p, ops, now);
    AppendRequest(p, ops, now);
    var accepted := TB.Accepted(p, Times(ops));
    TB.LevelAfterAccept(p, accepted, now);
    TB.LevelRefills(p, accepted + [now], now, t);
    CeilIsLeast(p, p.limit as real - (TB.Level(p, accepted, now) - 1.0), t - now);
  }
}
