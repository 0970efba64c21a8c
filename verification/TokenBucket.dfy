/** One key of the in-memory limiter, in exact arithmetic: the step of Allow, and the
    proof that it decides as the list of all requests accepted so far would. */
module TokenBucket {
  import opened Wrappers

  /** What a caller passes for its key. Times and the window share one unit, so that the
      refill rate is in tokens per unit. The validator demands both to be positive. */
  datatype Params = Params(limit: int, window: int) {
    predicate Valid() {
      limit >= 1 && window >= 1
    }

    function Rate(): real
      requires Valid()
    {
      limit as real / window as real
    }
  }

  datatype Bucket = Bucket(tokens: real, lastRefill: int, lastAccess: int)

  datatype Decision = Decision(allowed: bool, remaining: int, resetAt: int)

  function Min(a: real, b: real): real {
    if a <= b then a else b
  }

  function Gain(p: Params, elapsed: int): real
    requires p.Valid()
  {
    elapsed as real * p.Rate()
  }

  function Refilled(b: Bucket, p: Params, now: int): Bucket
    requires p.Valid()
  {
    var elapsed := now - b.lastRefill;
    if elapsed > 0 then Bucket(Min(b.tokens + Gain(p, elapsed), p.limit as real), now, now)
    else b.(lastAccess := now)
  }

  /** Takes one token from a bucket, if there is one. */
  function Taken(b: Bucket, resetAt: int): (Bucket, Decision) {
    if b.tokens >= 1.0 then (b.(tokens := b.tokens - 1.0), Decision(true, (b.tokens - 1.0).Floor, resetAt))
    else (b, Decision(false, 0, resetAt))
  }

  /** The step of Allow on the bucket found in the table, if any. */
  function AllowStep(found: Option<Bucket>, p: Params, now: int): (Bucket, Decision)
    requires p.Valid()
  {
    var b := if found.Some? then found.value else Bucket(p.limit as real, now, now);
    Taken(Refilled(b, p, now), now + p.window)
  }

  // ---------- The reference: decide from every request accepted so far ----------

  /** The requests from the i-th accepted one on, and one more at t, fit in a full bucket
      plus what has flowed in since the i-th. */
  predicate Fits(p: Params, accepted: seq<int>, i: nat, t: int)
    requires p.Valid() && i < |accepted|
  {
    (|accepted| - i + 1) as real <= p.limit as real + Gain(p, t - accepted[i])
  }

  predicate Admissible(p: Params, accepted: seq<int>, t: int)
    requires p.Valid()
  {
    forall i :: 0 <= i < |accepted| ==> Fits(p, accepted, i, t)
  }

  /** The latest time called with: a clock that goes back adds no tokens. */
  function Latest(calls: seq<int>): int
    requires calls != []
  {
    var n := |calls| - 1;
    if n == 0 || calls[n] > Latest(calls[..n]) then calls[n] else Latest(calls[..n])
  }

  /** The times of the requests that the reference accepts. */
  function Accepted(p: Params, calls: seq<int>): seq<int>
    requires p.Valid()
  {
    if calls == [] then []
    else
      var before := Accepted(p, calls[..|calls| - 1]);
      if Admissible(p, before, Latest(calls)) then before + [Latest(calls)] else before
  }

  /** The bucket of a key never evicted after a list of calls on it. */
  function After(p: Params, calls: seq<int>): Option<Bucket>
    requires p.Valid()
  {
    if calls == [] then None
    else Some(AllowStep(After(p, calls[..|calls| - 1]), p, calls[|calls| - 1]).0)
  }

  function Outcome(p: Params, calls: seq<int>, now: int): Decision
    requires p.Valid()
  {
    AllowStep(After(p, calls), p, now).1
  }

  // ---------- The tokens at hand, as a function of the accepted requests ----------

  function Level(p: Params, accepted: seq<int>, t: int): real
    requires p.Valid()
  {
    if accepted == [] then p.limit as real
    else
      var n := |accepted| - 1;
      Min(p.limit as real, Level(p, accepted[..n], accepted[n]) - 1.0 + Gain(p, t - accepted[n]))
  }

  lemma RateFillsAWindow(p: Params)
    requires p.Valid()
    ensures p.Rate() > 0.0 && Gain(p, p.window) == p.limit as real
  {
    assert p.Rate() * p.window as real == p.limit as real;
  }

  lemma GainAdds(p: Params, a: int, b: int)
    requires p.Valid()
    ensures Gain(p, a + b) == Gain(p, a) + Gain(p, b)
  {
    assert (a + b) as real == a as real + b as real;
  }

  lemma GainMonotone(p: Params, a: int, b: int)
    requires p.Valid() && a <= b
    ensures Gain(p, a) <= Gain(p, b)
  {
    RateFillsAWindow(p);
    GainAdds(p, a, b - a);
  }

  /** Refilling in two steps is refilling in one. */
  lemma LevelRefills(p: Params, accepted: seq<int>, s: int, t: int)
    requires p.Valid() && s <= t
    ensures Level(p, accepted, t) == Min(p.limit as real, Level(p, accepted, s) + Gain(p, t - s))
  {
    GainMonotone(p, 0, t - s);
    if accepted != [] {
      var a := accepted[|accepted| - 1];
      GainAdds(p, s - a, t - s);
      assert s - a + (t - s) == t - a;
    }
  }

  /** The level is at least x exactly when every accepted request leaves room for x. */
  lemma {:induction false} LevelIsLeastRoom(p: Params, accepted: seq<int>, t: int, x: real)
    requires p.Valid()
    ensures Level(p, accepted, t) >= x <==>
            && p.limit as real >= x
            && forall i :: 0 <= i < |accepted| ==> Room(p, accepted, i, t) >= x
  {
    if accepted != [] {
      var n := |accepted| - 1;
      var before, a := accepted[..n], accepted[n];
      var y := x + 1.0 - Gain(p, t - a);
      LevelIsLeastRoom(p, before, a, y);
      forall i | 0 <= i < n
        ensures Room(p, accepted, i, t) >= x <==> Room(p, before, i, a) >= y
      {
        GainAdds(p, a - accepted[i], t - a);
        assert a - accepted[i] + (t - a) == t - accepted[i];
      }
      assert Room(p, accepted, n, t) >= x <==> p.limit as real >= y;
    }
  }

  /** What a full bucket at the i-th accepted request would hold at t. */
  function Room(p: Params, accepted: seq<int>, i: nat, t: int): real
    requires p.Valid() && i < |accepted|
  {
    p.limit as real - (|accepted| - i) as real + Gain(p, t - accepted[i])
  }

  lemma LevelDecides(p: Params, accepted: seq<int>, t: int)
    requires p.Valid()
    ensures Level(p, accepted, t) >= 1.0 <==> Admissible(p, accepted, t)
  {
    LevelIsLeastRoom(p, accepted, t, 1.0);
    forall i | 0 <= i < |accepted|
      ensures Room(p, accepted, i, t) >= 1.0 <==> Fits(p, accepted, i, t)
    {
    }
  }

  lemma LevelAfterAccept(p: Params, accepted: seq<int>, t: int)
    requires p.Valid() && Level(p, accepted, t) >= 1.0
    ensures Level(p, accepted + [t], t) == Level(p, accepted, t) - 1.0
  {
    assert (accepted + [t])[..|accepted|] == accepted;
    assert Gain(p, 0) == 0.0;
    assert Level(p, accepted, t) <= p.limit as real;
  }

  predicate Holds(p: Params, b: Bucket, accepted: seq<int>)
    requires p.Valid()
  {
    b.tokens == Level(p, accepted, b.lastRefill) && 0.0 <= b.tokens <= p.limit as real
  }

  lemma LevelAfterRefill(p: Params, b: Bucket, accepted: seq<int>, now: int)
    requires p.Valid() && Holds(p, b, accepted) && now > b.lastRefill
    ensures Min(b.tokens + Gain(p, now - b.lastRefill), p.limit as real) == Level(p, accepted, now)
    ensures 0.0 <= Level(p, accepted, now) <= p.limit as real
  {
    LevelRefills(p, accepted, b.lastRefill, now);
    GainMonotone(p, 0, now - b.lastRefill);
  }

  /** One call keeps the bucket at the level of the accepted requests, and decides by it. */
  lemma StepDecides(p: Params, found: Option<Bucket>, accepted: seq<int>, now: int)
    requires p.Valid()
    requires if found.Some? then Holds(p, found.value, accepted) else accepted == []
    ensures var (b, d) := AllowStep(found, p, now);
            var t := if found.Some? && now <= found.value.lastRefill then found.value.lastRefill else now;
            && b.lastRefill == t && b.lastAccess == now
            && Holds(p, b, if Admissible(p, accepted, t) then accepted + [t] else accepted)
            && d == (if Admissible(p, accepted, t)
                     then Decision(true, (Level(p, accepted, t) - 1.0).Floor, now + p.window)
                     else Decision(false, 0, now + p.window))
  {
    var t := if found.Some? && now <= found.value.lastRefill then found.value.lastRefill else now;
    if found.Some? && now > found.value.lastRefill {
      LevelAfterRefill(p, found.value, accepted, now);
    }
    LevelDecides(p, accepted, t);
    if Level(p, accepted, t) >= 1.0 {
      LevelAfterAccept(p, accepted, t);
    }
  }

  /** The bucket holds the level of the accepted requests, whatever the calls were. */
  lemma {:induction false} BucketHoldsLevel(p: Params, calls: seq<int>)
    requires p.Valid() && calls != []
    ensures var b := After(p, calls).value;
            && b.lastRefill == Latest(calls)
            && b.lastAccess == calls[|calls| - 1]
            && Holds(p, b, Accepted(p, calls))
  {
    var before, now := calls[..|calls| - 1], calls[|calls| - 1];
    if before != [] {
      BucketHoldsLevel(p, before);
    }
    StepDecides(p, After(p, before), Accepted(p, before), now);
  }

  /** Exact characterisation: a request is accepted if and only if, for every earlier
      accepted request, the accepted requests from that one on together with this one fit
      the limit plus the refill since. */
  lemma AllowIsExact(p: Params, calls: seq<int>, now: int)
    requires p.Valid()
    ensures var t, accepted := Latest(calls + [now]), Accepted(p, calls);
            Outcome(p, calls, now) ==
              if Admissible(p, accepted, t)
              then Decision(true, (Level(p, accepted, t) - 1.0).Floor, now + p.window)
              else Decision(false, 0, now + p.window)
  {
    assert (calls + [now])[..|calls|] == calls;
    if calls != [] {
      BucketHoldsLevel(p, calls);
    }
    StepDecides(p, After(p, calls), Accepted(p, calls), now);
  }

  // ---------- Rejected calls leave no trace ----------

  /** Two lists of calls with the same accepted requests. They may differ in the latest time
      as long as there is no token at the later one. */
  predicate Alike(p: Params, more: seq<int>, less: seq<int>)
    requires p.Valid()
  {
    && more != [] && less != []
    && Accepted(p, more) == Accepted(p, less)
    && Latest(less) <= Latest(more)
    && (Latest(less) == Latest(more) || !Admissible(p, Accepted(p, more), Latest(more)))
  }

  lemma AdmissibleLater(p: Params, accepted: seq<int>, s: int, t: int)
    requires p.Valid() && s <= t && Admissible(p, accepted, s)
    ensures Admissible(p, accepted, t)
  {
    forall i | 0 <= i < |accepted|
      ensures Fits(p, accepted, i, t)
    {
      assert Fits(p, accepted, i, s);
      GainMonotone(p, s - accepted[i], t - accepted[i]);
    }
  }

  lemma AlikeStep(p: Params, more: seq<int>, less: seq<int>, now: int)
    requires p.Valid() && Alike(p, more, less)
    ensures Outcome(p, more, now) == Outcome(p, less, now)
    ensures Alike(p, more + [now], less + [now])
  {
    var accepted := Accepted(p, more);
    var s, t := Latest(less + [now]), Latest(more + [now]);
    assert (more + [now])[..|more|] == more && (less + [now])[..|less|] == less;
    AllowIsExact(p, more, now);
    AllowIsExact(p, less, now);
    if s != t {
      assert t == Latest(more) && s < t;
      if Admissible(p, accepted, s) {
        AdmissibleLater(p, accepted, s, t);
      }
    }
  }

  /** A rejected call leaves the accepted requests as they were and finds no token. */
  lemma RejectedIsAlike(p: Params, more: seq<int>, less: seq<int>, r: int)
    requires p.Valid() && !Outcome(p, more, r).allowed && Alike(p, more, less)
    ensures Alike(p, more + [r], less)
  {
    assert (more + [r])[..|more|] == more;
    AllowIsExact(p, more, r);
  }

  lemma {:induction false} AlikeThroughout(p: Params, more: seq<int>, less: seq<int>, later: seq<int>)
    requires p.Valid() && Alike(p, more, less)
    ensures Alike(p, more + later, less + later)
  {
    if later == [] {
      assert more + later == more && less + later == less;
    } else {
      var before, now := later[..|later| - 1], later[|later| - 1];
      AlikeThroughout(p, more, less, before);
      AlikeStep(p, more + before, less + before, now);
      assert more + later == more + before + [now] && less + later == less + before + [now];
    }
  }

  /** Leaving a rejected call out changes no later outcome, whichever way the clock goes. */
  lemma RejectedLeavesNoTrace(p: Params, before: seq<int>, r: int, later: seq<int>, now: int)
    requires p.Valid() && !Outcome(p, before, r).allowed
    ensures Outcome(p, before + [r] + later, now) == Outcome(p, before + later, now)
  {
    RejectedIsAlike(p, before, before, r);
    AlikeThroughout(p, before + [r], before, later);
    AlikeStep(p, before + [r] + later, before + later, now);
  }

  /** The calls that were answered with a token. */
  function Granted(p: Params, calls: seq<int>): seq<int>
    requires p.Valid()
  {
    if calls == [] then []
    else
      var before, now := calls[..|calls| - 1], calls[|calls| - 1];
      if Outcome(p, before, now).allowed then Granted(p, before) + [now] else Granted(p, before)
  }

  lemma {:induction false} GrantedIsAlike(p: Params, calls: seq<int>)
    requires p.Valid() && calls != []
    ensures Alike(p, calls, Granted(p, calls))
  {
    var before, now := calls[..|calls| - 1], calls[|calls| - 1];
    assert calls == before + [now];
    if before == [] {
      assert Outcome(p, before, now).allowed && Granted(p, calls) == [now] == calls;
    } else {
      GrantedIsAlike(p, before);
      if Outcome(p, before, now).allowed {
        AlikeStep(p, before, Granted(p, before), now);
      } else {
        RejectedIsAlike(p, before, Granted(p, before), now);
      }
    }
  }

  /** The granted calls alone decide what comes next. */
  lemma OnlyGrantedCallsCount(p: Params, calls: seq<int>, now: int)
    requires p.Valid()
    ensures Outcome(p, calls, now) == Outcome(p, Granted(p, calls), now)
  {
    if calls != [] {
      GrantedIsAlike(p, calls);
      AlikeStep(p, calls, Granted(p, calls), now);
    }
  }

  lemma {:induction false} AcceptedUpTo(p: Params, calls: seq<int>)
    requires p.Valid() && calls != []
    ensures forall a :: a in Accepted(p, calls) ==> a <= Latest(calls)
  {
    var before := calls[..|calls| - 1];
    if before != [] {
      AcceptedUpTo(p, before);
    } else {
      assert Accepted(p, before) == [];
    }
  }

  /** The accepted times come in order, and each was admissible after those before it. */
  lemma {:induction false} AcceptedInOrder(p: Params, calls: seq<int>, i: nat, j: nat)
    requires p.Valid() && i <= j < |Accepted(p, calls)|
    ensures Accepted(p, calls)[i] <= Accepted(p, calls)[j]
    ensures Admissible(p, Accepted(p, calls)[..j], Accepted(p, calls)[j])
  {
    var before := calls[..|calls| - 1];
    var acc, acc' := Accepted(p, before), Accepted(p, calls);
    if j < |acc| {
      AcceptedInOrder(p, before, i, j);
      assert acc'[..j] == acc[..j];
    } else {
      AcceptedUpTo(p, calls);
      assert acc'[..j] == acc && acc'[i] in acc';
    }
  }

  /** Burst bound: between the i-th and the j-th accepted request, both included, no more
      are accepted than the limit plus the refill in between; so a window holds at most
      twice the limit. */
  lemma BurstBound(p: Params, calls: seq<int>, i: nat, j: nat)
    requires p.Valid() && i <= j < |Accepted(p, calls)|
    ensures var a := Accepted(p, calls);
            && (j - i + 1) as real <= p.limit as real + Gain(p, a[j] - a[i])
            && (a[j] - a[i] <= p.window ==> j - i + 1 <= 2 * p.limit)
  {
    var a := Accepted(p, calls);
    AcceptedInOrder(p, calls, i, j);
    assert Gain(p, 0) == 0.0;
    if i < j {
      assert Fits(p, a[..j], i, a[j]);
    }
    if a[j] - a[i] <= p.window {
      GainMonotone(p, a[j] - a[i], p.window);
      RateFillsAWindow(p);
    }
  }

  /** A window without a call fills the bucket. */
  lemma IdleWindowFills(p: Params, calls: seq<int>, t: int)
    requires p.Valid() && calls != [] && t - Latest(calls) >= p.window
    ensures Level(p, Accepted(p, calls), t) == p.limit as real
  {
    BucketHoldsLevel(p, calls);
    LevelRefills(p, Accepted(p, calls), Latest(calls), t);
    RateFillsAWindow(p);
    GainMonotone(p, p.window, t - Latest(calls));
  }

  /** After an idle window a bucket serves as a new one does. */
  lemma TakeFromFull(p: Params, calls: seq<int>, now: int)
    requires p.Valid() && calls != [] && now - Latest(calls) >= p.window
    ensures AllowStep(After(p, calls), p, now) == AllowStep(None, p, now)
  {
    BucketHoldsLevel(p, calls);
    IdleWindowFills(p, calls, now);
    LevelRefills(p, Accepted(p, calls), Latest(calls), now);
  }
}
