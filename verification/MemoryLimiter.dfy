/** The in-memory limiter: one token bucket per key in a shared table, from which idle
    buckets are evicted. */
module MemoryLimiter {
  import opened Clock
  import opened Wrappers
  import opened TokenBucket

  // Five minutes, in nanoseconds.
  const EVICTION_TTL: int := 300_000_000_000

  function Found(table: map<string, Bucket>, key: string): Option<Bucket> {
    if key in table then Some(table[key]) else None
  }

  function AllowIn(table: map<string, Bucket>, key: string, p: Params, now: int): (map<string, Bucket>, Decision)
    requires p.Valid()
  {
    var (b, d) := AllowStep(Found(table, key), p, now);
    (table[key := b], d)
  }

  predicate Idle(b: Bucket, now: int) {
    now - b.lastAccess > EVICTION_TTL
  }

  function EvictIn(table: map<string, Bucket>, now: int): map<string, Bucket> {
    map k | k in table && !Idle(table[k], now) :: table[k]
  }

  lemma StoredIsFull(p: Params, now: int)
    requires p.Valid()
    ensures AllowStep(Some(Bucket(p.limit as real, now, now)), p, now) == AllowStep(None, p, now)
  {
  }

  /** The bucket object that the table's entry for a key points to. */
  class BucketCell {
    var tokens: real
    var maxTokens: real
    var refillRate: real
    var lastRefill: int
    var lastAccess: int

    constructor (p: Params, now: int)
      requires p.Valid()
      ensures Value() == Bucket(p.limit as real, now, now)
    {
      tokens, maxTokens, refillRate := p.limit as real, p.limit as real, p.Rate();
      lastRefill, lastAccess := now, now;
    }

    function Value(): Bucket
      reads this
    {
      Bucket(tokens, lastRefill, lastAccess)
    }

    /** Refills the bucket and takes one token if there is one. */
    method Take(p: Params, now: int) returns (d: Decision)
      requires p.Valid()
      modifies this
      ensures (Value(), d) == AllowStep(Some(old(Value())), p, now)
    {
      maxTokens := p.limit as real;
      refillRate := p.Rate();
      var elapsed := now - lastRefill;
      if elapsed > 0 {
        tokens := tokens + elapsed as real * refillRate;
        if tokens > maxTokens {
          tokens := maxTokens;
        }
        lastRefill := now;
      }
      lastAccess := now;
      assert Value() == Refilled(old(Value()), p, now);
      var resetAt := now + p.window;
      if tokens >= 1.0 {
        tokens := tokens - 1.0;
        return Decision(true, tokens.Floor, resetAt);
      }
      return Decision(false, 0, resetAt);
    }
  }

  class MemoryLimiter {
    var buckets: map<string, BucketCell>

    /** No two keys share a bucket. */
    ghost predicate Valid()
      reads this
    {
      forall j, k :: j in buckets && k in buckets && j != k ==> buckets[j] != buckets[k]
    }

    function Contents(): map<string, Bucket>
      reads this, buckets.Values
    {
      map k | k in buckets :: buckets[k].Value()
    }

    constructor ()
      ensures Valid() && Contents() == map[]
    {
      buckets := map[];
    }

    /** The key's bucket, which is put in the table full if there is none. */
    method LoadOrStore(key: string, p: Params, now: int) returns (b: BucketCell)
      requires Valid() && p.Valid()
      modifies this
      ensures Valid() && key in buckets && b == buckets[key]
      ensures key in old(buckets) ==> buckets == old(buckets)
      ensures key !in old(buckets) ==>
                buckets == old(buckets)[key := b] && fresh(b) && b.Value() == Bucket(p.limit as real, now, now)
    {
      if key !in buckets {
        var full := new BucketCell(p, now);
        buckets := buckets[key := full];
      }
      b := buckets[key];
    }

    method Allow(key: string, p: Params, now: int) returns (d: Decision)
      requires Valid() && p.Valid()
      modifies this, if key in buckets then {buckets[key]} else {}
      ensures Valid() && fresh(buckets.Values - old(buckets.Values))
      ensures (Contents(), d) == AllowIn(old(Contents()), key, p, now)
    {
      var b := LoadOrStore(key, p, now);
      d := b.Take(p, now);
      assert Contents() == old(Contents())[key := b.Value()];
      StoredIsFull(p, now);
    }

    /** Visits the table in any order. */
    method EvictStale(now: int)
      requires Valid()
      modifies this
      ensures Valid() && buckets.Values <= old(buckets.Values)
      ensures Contents() == EvictIn(old(Contents()), now)
    {
      var unvisited := buckets.Keys;
      while unvisited != {}
        invariant Valid() && buckets.Values <= old(buckets.Values)
        invariant unvisited <= old(buckets).Keys
        invariant forall k :: k in buckets <==>
          k in old(buckets) && (k in unvisited || !Idle(old(buckets)[k].Value(), now))
        invariant forall k :: k in buckets ==> buckets[k] == old(buckets)[k]
        decreases unvisited
      {
        var key :| key in unvisited;
        unvisited := unvisited - {key};
        if now - buckets[key].lastAccess > EVICTION_TTL {
          buckets := buckets - {key};
        }
      }
    }
  }

  // ---------- Runs over many keys, with evictions in between ----------

  datatype Op =
    | Call(key: string, now: int)
    | Evict(now: int)

  function Time(op: Op): int {
    op.now
  }

  predicate Clocked(ops: seq<Op>) {
    InOrder(Time, ops)
  }

  ghost predicate AllValid(params: string -> Params) {
    forall k :: params(k).Valid()
  }

  ghost function Table(params: string -> Params, ops: seq<Op>): map<string, Bucket>
    requires AllValid(params)
  {
    if ops == [] then map[]
    else
      var before := Table(params, ops[..|ops| - 1]);
      match ops[|ops| - 1]
      case Call(key, now) => AllowIn(before, key, params(key), now).0
      case Evict(now) => EvictIn(before, now)
  }

  /** The times of the calls on one key. */
  function Calls(ops: seq<Op>, key: string): seq<int> {
    if ops == [] then []
    else
      var before, op := Calls(ops[..|ops| - 1], key), ops[|ops| - 1];
      if op.Call? && op.key == key then before + [op.now] else before
  }

  lemma {:induction false} CallsAreClocked(ops: seq<Op>, key: string)
    requires Clocked(ops)
    ensures forall t :: t in Calls(ops, key) ==> ops != [] && t <= ops[|ops| - 1].now
    ensures Calls(ops, key) != [] ==> Latest(Calls(ops, key)) == Calls(ops, key)[|Calls(ops, key)| - 1]
  {
    if ops != [] {
      var n := |ops| - 1;
      var before := ops[..n];
      CallsAreClocked(before, key);
      assert n > 0 ==> before[n - 1].now <= ops[n].now;
      if ops[n].Call? && ops[n].key == key {
        assert Calls(ops, key)[..|Calls(before, key)|] == Calls(before, key);
        assert Calls(before, key) != [] ==> Latest(Calls(before, key)) in Calls(before, key);
      }
    }
  }

  // ---------- What the table answers, for every window ----------

  /** An eviction that drops the key: it comes more than the TTL after the call before it. */
  predicate Drops(ops: seq<Op>, key: string, i: nat)
    requires i < |ops|
  {
    var calls := Calls(ops[..i], key);
    ops[i].Evict? && calls != [] && ops[i].now - calls[|calls| - 1] > 300_000_000_000
  }

  /** The times of the calls on a key since the last eviction that dropped it. */
  function Since(ops: seq<Op>, key: string): seq<int> {
    if ops == [] then []
    else
      var n := |ops| - 1;
      var before := Since(ops[..n], key);
      if Drops(ops, key, n) then []
      else if ops[n].Call? && ops[n].key == key then before + [ops[n].now]
      else before
  }

  /** They are the calls after the last such eviction. */
  lemma {:induction false} SinceIsTheRest(ops: seq<Op>, key: string, j: nat)
    requires j <= |ops| && (j == 0 || Drops(ops, key, j - 1))
    requires forall i :: j <= i < |ops| ==> !Drops(ops, key, i)
    ensures Since(ops, key) == Calls(ops[j..], key)
  {
    if j < |ops| {
      var n := |ops| - 1;
      var before := ops[..n];
      forall i | 0 <= i < n
        ensures Drops(before, key, i) <==> Drops(ops, key, i)
      {
        assert before[..i] == ops[..i];
      }
      SinceIsTheRest(before, key, j);
      assert ops[j..][..n - j] == before[j..];
    } else {
      assert ops[j..] == [];
    }
  }

  /** The last call since the eviction is the key's last call. */
  lemma {:induction false} SinceEndsAlike(ops: seq<Op>, key: string)
    ensures var since, calls := Since(ops, key), Calls(ops, key);
            since != [] ==> calls != [] && since[|since| - 1] == calls[|calls| - 1]
  {
    if ops != [] {
      SinceEndsAlike(ops[..|ops| - 1], key);
    }
  }

  /** Whatever the window, and whatever happens on other keys, the table holds for a key the
      bucket that its calls since the last eviction would have left, and none without such calls. */
  lemma {:induction false} TableIsSince(params: string -> Params, ops: seq<Op>, key: string)
    requires AllValid(params)
    ensures Found(Table(params, ops), key) == After(params(key), Since(ops, key))
  {
    if ops != [] {
      var n := |ops| - 1;
      var before, op := ops[..n], ops[n];
      TableIsSince(params, before, key);
      SinceEndsAlike(before, key);
      var since := Since(before, key);
      if op.Evict? {
        if since != [] {
          BucketHoldsLevel(params(key), since);
        }
      } else if op.key == key {
        assert (since + [op.now])[..|since|] == since;
      }
    }
  }

  /** Every call is decided as on a limiter that serves this key alone and has seen the calls
      since the last eviction that dropped it. */
  lemma DecidedSinceEviction(params: string -> Params, ops: seq<Op>, key: string, now: int)
    requires AllValid(params)
    ensures AllowIn(Table(params, ops), key, params(key), now).1 == Outcome(params(key), Since(ops, key), now)
  {
    TableIsSince(params, ops, key);
  }

  // ---------- Short windows ----------

  /** The table's bucket for a key is the one that the key's own calls would have left, and
      a key without a bucket has been idle for longer than the TTL. */
  ghost predicate Agrees(p: Params, found: Option<Bucket>, calls: seq<int>, last: int)
    requires p.Valid()
  {
    if found.Some? then calls != [] && After(p, calls) == found
    else calls != [] ==> last - Latest(calls) > EVICTION_TTL
  }

  lemma CallAgrees(p: Params, found: Option<Bucket>, calls: seq<int>, last: int, now: int)
    requires p.Valid() && p.window <= EVICTION_TTL + 1 && last <= now && Agrees(p, found, calls, last)
    ensures AllowStep(found, p, now) == AllowStep(After(p, calls), p, now)
    ensures Agrees(p, Some(AllowStep(found, p, now).0), calls + [now], now)
  {
    assert (calls + [now])[..|calls|] == calls;
    if calls != [] && found.None? {
      TakeFromFull(p, calls, now);
    }
  }

  lemma EvictAgrees(p: Params, table: map<string, Bucket>, key: string, calls: seq<int>, last: int, now: int)
    requires p.Valid() && last <= now && Agrees(p, Found(table, key), calls, last)
    requires calls != [] ==> Latest(calls) == calls[|calls| - 1]
    ensures Agrees(p, Found(EvictIn(table, now), key), calls, now)
  {
    if key in table {
      BucketHoldsLevel(p, calls);
    }
  }

  lemma {:induction false} TableHolds(params: string -> Params, ops: seq<Op>, key: string, last: int)
    requires AllValid(params) && params(key).window <= EVICTION_TTL + 1 && Clocked(ops)
    requires ops != [] ==> last == ops[|ops| - 1].now
    ensures Agrees(params(key), Found(Table(params, ops), key), Calls(ops, key), last)
  {
    if ops != [] {
      var n := |ops| - 1;
      var before, op := ops[..n], ops[n];
      var earlier := if n == 0 then op.now else before[n - 1].now;
      TableHolds(params, before, key, earlier);
      CallsAreClocked(before, key);
      if op.Evict? {
        EvictAgrees(params(key), Table(params, before), key, Calls(before, key), earlier, op.now);
      } else if op.key == key {
        CallAgrees(params(key), Found(Table(params, before), key), Calls(before, key), earlier, op.now);
      }
    }
  }

  /** Every call is decided as on a limiter that never evicts and serves this key alone:
      by AllowIsExact, as the list of the key's accepted requests decides. */
  lemma EveryKeyOnItsOwn(params: string -> Params, ops: seq<Op>, key: string, now: int)
    requires AllValid(params) && params(key).window <= EVICTION_TTL + 1
    requires Clocked(ops + [Call(key, now)])
    ensures AllowIn(Table(params, ops), key, params(key), now).1 == Outcome(params(key), Calls(ops, key), now)
  {
    var all := ops + [Call(key, now)];
    assert forall i :: 0 <= i < |ops| ==> ops[i] == all[i];
    assert all[|ops|].now == now;
    var last := if ops == [] then now else ops[|ops| - 1].now;
    TableHolds(params, ops, key, last);
    CallAgrees(params(key), Found(Table(params, ops), key), Calls(ops, key), last, now);
  }

  // ---------- Exactly when eviction cannot be noticed ----------

  function Always(p: Params): string -> Params {
    _ => p
  }

  ghost predicate EvictionUnnoticed(p: Params)
    requires p.Valid()
  {
    forall ops: seq<Op>, key: string, now: int :: Clocked(ops + [Call(key, now)]) ==>
      AllowIn(Table(Always(p), ops), key, p, now).1 == Outcome(p, Calls(ops, key), now)
  }

  function Burst(key: string, n: nat): seq<Op> {
    seq(n, _ => Call(key, 0))
  }

  lemma AppendCall(p: Params, ops: seq<Op>, key: string, now: int)
    requires p.Valid()
    ensures var ops' := ops + [Call(key, now)];
            && Table(Always(p), ops') == AllowIn(Table(Always(p), ops), key, p, now).0
            && Calls(ops', key) == Calls(ops, key) + [now]
            && After(p, Calls(ops', key)) == Some(AllowStep(After(p, Calls(ops, key)), p, now).0)
  {
    assert (ops + [Call(key, now)])[..|ops|] == ops;
    assert (Calls(ops, key) + [now])[..|Calls(ops, key)|] == Calls(ops, key);
  }

  lemma OneTaken(p: Params, found: Option<Bucket>, n: nat)
    requires p.Valid() && n < p.limit
    requires found == (if n == 0 then None else Some(Bucket((p.limit - n) as real, 0, 0)))
    ensures AllowStep(found, p, 0).0 == Bucket((p.limit - (n + 1)) as real, 0, 0)
  {
  }

  /** The key's bucket with and without eviction, after some operations. */
  ghost predicate BothHold(p: Params, ops: seq<Op>, key: string, b: Bucket)
    requires p.Valid()
  {
    Table(Always(p), ops) == map[key := b] && Calls(ops, key) != [] && After(p, Calls(ops, key)) == Some(b)
  }

  lemma BothAfterCall(p: Params, ops: seq<Op>, key: string, b: Bucket)
    requires p.Valid() && (ops == [] || BothHold(p, ops, key, b))
    ensures BothHold(p, ops + [Call(key, 0)], key, AllowStep(if ops == [] then None else Some(b), p, 0).0)
  {
    AppendCall(p, ops, key, 0);
  }

  lemma {:induction false} BurstDrains(p: Params, key: string, n: nat)
    requires p.Valid() && 1 <= n <= p.limit
    ensures BothHold(p, Burst(key, n), key, Bucket((p.limit - n) as real, 0, 0))
  {
    var before, left := Burst(key, n - 1), Bucket((p.limit - (n - 1)) as real, 0, 0);
    assert Burst(key, n) == before + [Call(key, 0)];
    if n > 1 {
      BurstDrains(p, key, n - 1);
    }
    BothAfterCall(p, before, key, left);
    OneTaken(p, if n == 1 then None else Some(left), n - 1);
  }

  lemma LongWindowIsNoticed(p: Params)
    requires p.Valid() && p.window > EVICTION_TTL + 1
    ensures !EvictionUnnoticed(p)
  {
    var key, now := "k", EVICTION_TTL + 1;
    var burst := Burst(key, p.limit);
    var ops := burst + [Evict(now)];
    assert ops[..p.limit] == burst;
    assert Clocked(ops + [Call(key, now)]);
    BurstDrains(p, key, p.limit);
    assert Table(Always(p), ops) == map[];
    assert Calls(ops, key) == Calls(burst, key);
    PartlyRefilled(p, now);
    assert AllowIn(Table(Always(p), ops), key, p, now).1.remaining == p.limit - 1;
  }

  lemma PartlyRefilled(p: Params, now: int)
    requires p.Valid() && 0 < now < p.window
    ensures var d := AllowStep(Some(Bucket(0.0, 0, 0)), p, now).1;
            d.allowed ==> d.remaining < p.limit - 1
  {
    GainAdds(p, now, p.window - now);
    RateFillsAWindow(p);
    GainMonotone(p, 1, p.window - now);
  }

  /** Eviction goes unnoticed exactly for windows that an idle time above the TTL always
      covers; the configuration accepts longer ones. */
  lemma EvictionUnnoticedIff(p: Params)
    requires p.Valid()
    ensures EvictionUnnoticed(p) <==> p.window <= EVICTION_TTL + 1
  {
    if p.window <= EVICTION_TTL + 1 {
      forall ops: seq<Op>, key: string, now: int | Clocked(ops + [Call(key, now)])
        ensures AllowIn(Table(Always(p), ops), key, p, now).1 == Outcome(p, Calls(ops, key), now)
      {
        EveryKeyOnItsOwn(Always(p), ops, key, now);
      }
    } else {
      LongWindowIsNoticed(p);
    }
  }
}
