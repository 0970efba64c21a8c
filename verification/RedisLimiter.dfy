/** The Redis-backed limiter: the store, the two scripts as sequences of its commands, each
    script one atomic step, and the process that numbers its sorted-set members. */
module RedisLimiter {
  import opened Limiter
  import opened Wrappers
  import LB = LeakyBucket
  import SW = SlidingWindow
  import TB = TokenBucket

  datatype Fields = Fields(level: real, lastUpdate: int)

  // ---------- The store as a value ----------

  /** What a key holds, with the time from which the store may drop it. */
  datatype Entry = SetEntry(zset: SW.ZSet) | HashEntry(hash: LB.Hash)

  type Keys = map<string, Entry>

  function SetIn(keys: Keys, key: string): Option<SW.ZSet> {
    if key in keys && keys[key].SetEntry? then Some(keys[key].zset) else None
  }

  function HashIn(keys: Keys, key: string): Option<LB.Hash> {
    if key in keys && keys[key].HashEntry? then Some(keys[key].hash) else None
  }

  function Put(keys: Keys, key: string, entry: Option<Entry>): Keys {
    if entry.Some? then keys[key := entry.value] else keys - {key}
  }

  /** One request, as one step on the whole store. */
  ghost function AllowStep(keys: Keys, key: string, p: TB.Params, algorithm: Algorithm, now: int, member: SW.Member):
    (Keys, Result<Reply, ScriptError>)
    requires p.Valid()
  {
    match algorithm
    case SlidingWindowLog =>
      if HashIn(keys, key).Some? then (keys, Err(WrongType))
      else
        var (z, reply) := SW.SlidingStep(SetIn(keys, key), p.window, p.limit, now, member);
        (Put(keys, key, if z.Some? then Some(SetEntry(z.value)) else None), Ok(reply))
    case LeakyBucketMeter =>
      if SetIn(keys, key).Some? then (keys, Err(WrongType))
      else
        var (h, reply) := LB.LeakyStep(HashIn(keys, key), p, now);
        (Put(keys, key, Some(HashEntry(h))), Ok(reply))
  }

  function ExpiresAt(entry: Entry): int {
    match entry
    case SetEntry(z) => z.expireAt
    case HashEntry(h) => h.expireAt
  }

  function DropStep(keys: Keys, key: string, now: int): Keys {
    if key in keys && now >= ExpiresAt(keys[key]) then keys - {key} else keys
  }

  class Store {
    var zsets: map<string, map<SW.Member, int>>
    var hashes: map<string, Fields>
    var expiry: map<string, int>

    /** Every key holds one kind of value, and expires. */
    ghost predicate Valid()
      reads this
    {
      && (forall k :: k in zsets ==> k !in hashes)
      && (forall k :: k in expiry <==> k in zsets || k in hashes)
    }

    function ZSetAt(key: string): Option<SW.ZSet>
      reads this
    {
      if key in zsets && key in expiry then Some(SW.ZSet(zsets[key], expiry[key])) else None
    }

    function HashAt(key: string): Option<LB.Hash>
      reads this
    {
      if key in hashes && key in expiry then Some(LB.Hash(hashes[key].level, hashes[key].lastUpdate, expiry[key])) else None
    }

    ghost function EntryAt(key: string): Option<Entry>
      reads this
    {
      if ZSetAt(key).Some? then Some(SetEntry(ZSetAt(key).value))
      else if HashAt(key).Some? then Some(HashEntry(HashAt(key).value))
      else None
    }

    /** The store as a value. */
    ghost function Contents(): Keys
      reads this
    {
      map k | k in expiry && EntryAt(k).Some? :: EntryAt(k).value
    }

    twostate lemma ContentsAfter(key: string)
      requires old(Valid()) && Valid() && OnlyAt(key)
      ensures Contents() == Put(old(Contents()), key, EntryAt(key))
    {
      assert forall k :: k in Contents() <==> EntryAt(k).Some?;
      assert forall k :: k in old(Contents()) <==> old(EntryAt(k)).Some?;
      assert forall k :: k != key ==> EntryAt(k) == old(EntryAt(k));
    }

    lemma ContentsAt(key: string)
      requires Valid()
      ensures SetIn(Contents(), key) == ZSetAt(key) && HashIn(Contents(), key) == HashAt(key)
    {
    }

    twostate predicate OnlyAt(key: string)
      reads this
    {
      forall k :: k != key ==> ZSetAt(k) == old(ZSetAt(k)) && HashAt(k) == old(HashAt(k))
    }

    constructor ()
      ensures Valid() && forall k :: ZSetAt(k) == None && HashAt(k) == None
    {
      zsets, hashes, expiry := map[], map[], map[];
    }

    /** The store drops a key whose time has come, sooner or later. */
    method Expire(key: string, now: int)
      requires Valid()
      modifies this
      ensures Valid() && OnlyAt(key)
      ensures ZSetAt(key) == SW.ExpireStep(old(ZSetAt(key)), now)
      ensures HashAt(key) == LB.ExpireStep(old(HashAt(key)), now)
      ensures Contents() == DropStep(old(Contents()), key, now)
    {
      ContentsAt(key);
      if key in expiry && now >= expiry[key] {
        zsets := zsets - {key};
        hashes := hashes - {key};
        expiry := expiry - {key};
      }
      ContentsAfter(key);
    }

    /** The members of a key, none when it is absent. */
    function Scores(key: string): map<SW.Member, int>
      reads this
    {
      SW.Scores(ZSetAt(key))
    }

    /** Removes the members with scores from lo to hi, and the key when none is left. */
    method ZRemRangeByScore(key: string, lo: int, hi: int)
      requires Valid() && key !in hashes
      modifies this
      ensures Valid() && OnlyAt(key) && key !in hashes
      ensures ZSetAt(key) == SW.WithoutRange(old(ZSetAt(key)), lo, hi)
    {
      if key in zsets {
        var scores := zsets[key];
        var left := map m | m in scores && !(lo <= scores[m] <= hi) :: scores[m];
        if left == map[] {
          zsets := zsets - {key};
          expiry := expiry - {key};
        } else {
          zsets := zsets[key := left];
        }
      }
    }

    /** Adds a member and sets the key to expire. */
    method ZAddAndExpire(key: string, score: int, member: SW.Member, expireAt: int)
      requires Valid() && key !in hashes
      modifies this
      ensures Valid() && OnlyAt(key) && key !in hashes
      ensures ZSetAt(key) == Some(SW.ZSet(old(Scores(key))[member := score], expireAt))
    {
      zsets := zsets[key := Scores(key)[member := score]];
      expiry := expiry[key := expireAt];
    }

    /** The least score, of a key with members. */
    method OldestScore(key: string) returns (oldest: int)
      requires Scores(key) != map[]
      ensures oldest == SW.Oldest(Scores(key))
    {
      var scores := Scores(key);
      var m :| m in scores;
      oldest := scores[m];
      var unseen := scores.Keys - {m};
      while unseen != {}
        invariant unseen <= scores.Keys
        invariant exists n :: n in scores && scores[n] == oldest
        invariant forall n :: n in scores && n !in unseen ==> oldest <= scores[n]
        decreases unseen
      {
        var n :| n in unseen;
        unseen := unseen - {n};
        if scores[n] < oldest {
          oldest := scores[n];
        }
      }
      SW.OldestIsLeast(scores);
    }

    /** The reset time of a rejection. */
    method RejectedUntil(key: string, window: int, now: int) returns (reset: int)
      ensures reset == if Scores(key) == map[] then now + window else SW.Oldest(Scores(key)) + window
    {
      reset := now + window;
      if Scores(key) != map[] {
        var oldest := OldestScore(key);
        reset := oldest + window;
      }
    }

    /** The script after trimming. */
    method CountAndAdd(key: string, window: int, limit: int, now: int, member: SW.Member) returns (r: Reply)
      requires Valid() && key !in hashes
      modifies this
      ensures Valid() && OnlyAt(key) && key !in hashes
      ensures r == SW.CountStep(old(ZSetAt(key)), window, limit, now, member).1
      ensures ZSetAt(key) == SW.CountStep(old(ZSetAt(key)), window, limit, now, member).0
    {
      var count := |Scores(key)|;
      if count < limit {
        ZAddAndExpire(key, now, member, now + window);
        return Reply(true, limit - count - 1, now + window);
      }
      var reset := RejectedUntil(key, window, now);
      return Reply(false, 0, reset);
    }

    method SlidingWindowScript(key: string, window: int, limit: int, now: int, member: SW.Member)
      returns (r: Result<Reply, ScriptError>)
      requires Valid()
      modifies this
      ensures Valid() && OnlyAt(key) && HashAt(key) == old(HashAt(key))
      ensures if old(key in hashes) then r == Err(WrongType) && ZSetAt(key) == old(ZSetAt(key))
              else r.Ok? && (ZSetAt(key), r.value) == SW.SlidingStep(old(ZSetAt(key)), window, limit, now, member)
    {
      if key in hashes {
        return Err(WrongType);
      }
      ZRemRangeByScore(key, 0, now - window);
      var reply := CountAndAdd(key, window, limit, now, member);
      return Ok(reply);
    }

    method HSetAndExpire(key: string, fields: Fields, expireAt: int)
      requires Valid() && key !in zsets
      modifies this
      ensures Valid() && OnlyAt(key)
      ensures HashAt(key) == Some(LB.Hash(fields.level, fields.lastUpdate, expireAt))
    {
      hashes := hashes[key := fields];
      expiry := expiry[key := expireAt];
    }

    method LeakyBucketScript(key: string, p: TB.Params, now: int) returns (r: Result<Reply, ScriptError>)
      requires Valid() && p.Valid()
      modifies this
      ensures Valid() && OnlyAt(key)
      ensures ZSetAt(key) == old(ZSetAt(key))
      ensures if old(key in zsets) then r == Err(WrongType) && HashAt(key) == old(HashAt(key))
              else r.Ok? && (HashAt(key), r.value) ==
                     var (h, reply) := LB.LeakyStep(old(HashAt(key)), p, now); (Some(h), reply)
    {
      if key in zsets {
        return Err(WrongType);
      }
      var capacity := p.limit as real;
      var leakRate := p.Rate();
      ghost var before := HashAt(key);
      var level, lastUpdate := 0.0, now;
      if key in hashes {
        level, lastUpdate := hashes[key].level, hashes[key].lastUpdate;
      }
      var elapsed := now - lastUpdate;
      if elapsed > 0 {
        var leaked := elapsed as real * leakRate;
        level := LB.Max(level - leaked, 0.0);
      }
      assert level == LB.Left(before, p, now);
      if level + 1.0 <= capacity {
        level := level + 1.0;
        HSetAndExpire(key, Fields(level, now), now + p.window);
        return Ok(Reply(true, (capacity - level).Floor, now + LB.Ceil(level / leakRate)));
      } else {
        HSetAndExpire(key, Fields(level, now), now + p.window);
        var overflow := level + 1.0 - capacity;
        return Ok(Reply(false, 0, now + LB.Ceil(overflow / leakRate)));
      }
    }
  }

  /** One gateway process. Its counter is shared by all its keys. */
  class RedisLimiter {
    const store: Store
    const instance: string
    var memberCounter: nat

    constructor (store: Store, instance: string)
      ensures this.store == store && this.instance == instance && memberCounter == 0
    {
      this.store, this.instance, memberCounter := store, instance, 0;
    }

    method Allow(key: string, p: TB.Params, algorithm: Algorithm, now: int) returns (r: Result<Reply, ScriptError>)
      requires store.Valid() && p.Valid()
      modifies this, store
      ensures store.Valid() && store.OnlyAt(key)
      ensures memberCounter == old(memberCounter) + if algorithm == SlidingWindowLog then 1 else 0
      ensures (store.Contents(), r) ==
                AllowStep(old(store.Contents()), key, p, algorithm, now, SW.Member(instance, now, memberCounter))
      ensures r.Err? <==> if algorithm == SlidingWindowLog then old(key in store.hashes) else old(key in store.zsets)
      ensures r.Err? ==> store.Contents() == old(store.Contents())
    {
      ghost var before := store.Contents();
      store.ContentsAt(key);
      assert before == Put(before, key, store.EntryAt(key));
      match algorithm
      case LeakyBucketMeter =>
        r := store.LeakyBucketScript(key, p, now);
        store.ContentsAfter(key);
      case SlidingWindowLog =>
        memberCounter := memberCounter + 1;
        r := store.SlidingWindowScript(key, p.window, p.limit, now, SW.Member(instance, now, memberCounter));
        store.ContentsAfter(key);
    }
  }
}
