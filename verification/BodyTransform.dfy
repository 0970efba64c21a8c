/** The rewriting of a JSON body: fields are stripped, keys renamed and fields injected, in that
    order. The rename and inject loops range over maps, so they visit the keys in any order. */
module BodyTransform {
  import opened Orders
  import opened Wrappers

  /** V is a JSON value. */
  datatype BodyTransform<V> = BodyTransform(injectFields: map<string, V>, stripFields: seq<string>, renameKeys: map<string, string>)

  /** How a body decodes into a string-keyed map. JSON null decodes without an error into a
      map that can be read but not written. */
  datatype Parsed<V> = NotAnObject | Null | Object(fields: map<string, V>)

  datatype Reply = Body(bytes: string) | MarshalError | WriteToNilMap

  // ---- The three steps ----

  function RenameStep<V>(data: map<string, V>, from: string, to: string): map<string, V> {
    if from in data then data[to := data[from]] - {from} else data
  }

  /** The renames made in a given order of the keys. */
  ghost function RenameAll<V>(data: map<string, V>, renames: map<string, string>, order: seq<string>): map<string, V>
    requires forall k :: k in order ==> k in renames
  {
    if order == [] then data
    else
      var last := |order| - 1;
      RenameStep(RenameAll(data, renames, order[..last]), order[last], renames[order[last]])
  }

  ghost function Elements(fields: seq<string>): set<string> {
    set f | f in fields
  }

  ghost function Stripped<V>(data: map<string, V>, fields: seq<string>): map<string, V> {
    data - Elements(fields)
  }

  ghost function Injected<V>(data: map<string, V>, fields: map<string, V>, resolve: V -> V): map<string, V> {
    data + map k | k in fields :: resolve(fields[k])
  }

  // ---- What the renames mean ----

  /** The value at `from` moves to `to`. Renaming a key to itself moves nothing: the code
      deletes the key. */
  ghost predicate Moves<V>(data: map<string, V>, renames: map<string, string>, from: string, to: string) {
    from in data && from in renames && renames[from] == to && from != to
  }

  ghost predicate MovedOnto<V>(data: map<string, V>, renames: map<string, string>, k: string) {
    exists from :: Moves(data, renames, from, k)
  }

  /** What all renames made at once leave at one key: the value that moved there; otherwise, unless
      the key itself was renamed, what was there before. */
  ghost predicate RenamedAt<V>(data: map<string, V>, renames: map<string, string>, after: map<string, V>, k: string) {
    if MovedOnto(data, renames, k) then
      k in after && forall from :: Moves(data, renames, from, k) ==> after[k] == data[from]
    else
      (k in after <==> k in data && k !in renames) && (k in after ==> after[k] == data[k])
  }

  ghost predicate Renamed<V>(data: map<string, V>, renames: map<string, string>, after: map<string, V>) {
    forall k :: RenamedAt(data, renames, after, k)
  }

  /** No two keys share a new name, and no new name is another key to rename. */
  predicate Independent(renames: map<string, string>) {
    forall a, b :: a in renames && b in renames && a != b ==> renames[a] != renames[b] && renames[a] != b
  }

  ghost function Only(renames: map<string, string>, order: seq<string>): map<string, string> {
    map k | k in renames && k in order :: renames[k]
  }

  lemma OnlyOneMore(renames: map<string, string>, order: seq<string>, from: string)
    requires from in renames && from !in order
    ensures Only(renames, order + [from]) == Only(renames, order)[from := renames[from]]
  {
  }

  lemma RenamedIsUnique<V>(data: map<string, V>, renames: map<string, string>, a: map<string, V>, b: map<string, V>)
    requires Renamed(data, renames, a) && Renamed(data, renames, b)
    ensures a == b
  {
    forall k ensures k in a <==> k in b {
      assert RenamedAt(data, renames, a, k) && RenamedAt(data, renames, b, k);
    }
    forall k | k in a ensures a[k] == b[k] {
      assert RenamedAt(data, renames, a, k) && RenamedAt(data, renames, b, k);
      if MovedOnto(data, renames, k) {
        var from :| Moves(data, renames, from, k);
      }
    }
  }

  // ---- The whole rewriting ----

  ghost function Rewritten<V>(fields: map<string, V>, cfg: BodyTransform<V>, order: seq<string>, resolve: V -> V): map<string, V>
    requires forall k :: k in order ==> k in cfg.renameKeys
  {
    Injected(RenameAll(Stripped(fields, cfg.stripFields), cfg.renameKeys, order), cfg.injectFields, resolve)
  }

  /** The key that n renames, made in turn, lead to from k. */
  function Follow(renames: map<string, string>, k: string, n: nat): string {
    if n == 0 then k
    else
      var at := Follow(renames, k, n - 1);
      if at in renames then renames[at] else at
  }

  /** A key that may hold a value when its own renaming comes up: it is not stripped. */
  predicate Live(renames: map<string, string>, strip: seq<string>, a: string) {
    a in renames && a !in strip
  }

  /** A live key's new name is another key to rename: the value may end up anywhere from there
      on, depending on the order. */
  predicate Chained(renames: map<string, string>, strip: seq<string>, a: string) {
    Live(renames, strip, a) && renames[a] != a && renames[a] in renames
  }

  ghost predicate Downstream(renames: map<string, string>, strip: seq<string>, k: string) {
    exists a, n: nat :: Chained(renames, strip, a) && Follow(renames, renames[a], n) == k
  }

  /** Every key from such a new name on is injected. */
  ghost predicate ChainsInjected(renames: map<string, string>, strip: seq<string>, inject: set<string>) {
    forall a, n :: Chained(renames, strip, a) && 0 <= n < |renames| ==> Follow(renames, renames[a], n) in inject
  }

  /** Every new name that live keys share is injected. */
  ghost predicate SharedInjected(renames: map<string, string>, strip: seq<string>, inject: set<string>) {
    forall a, b :: Live(renames, strip, a) && Live(renames, strip, b) && a != b && renames[a] == renames[b] ==> renames[a] in inject
  }

  /** Whatever may depend on the order of the renames is injected over. */
  ghost predicate Settled<V>(cfg: BodyTransform<V>) {
    && ChainsInjected(cfg.renameKeys, cfg.stripFields, cfg.injectFields.Keys)
    && SharedInjected(cfg.renameKeys, cfg.stripFields, cfg.injectFields.Keys)
  }

  lemma DownstreamIsClosed(renames: map<string, string>, strip: seq<string>, k: string)
    requires Downstream(renames, strip, k) && k in renames
    ensures Downstream(renames, strip, renames[k])
  {
    var a, n: nat :| Chained(renames, strip, a) && Follow(renames, renames[a], n) == k;
    assert Follow(renames, renames[a], n + 1) == renames[k];
  }

  lemma NextIsDownstream(renames: map<string, string>, strip: seq<string>, a: string)
    requires Chained(renames, strip, a)
    ensures Downstream(renames, strip, renames[a])
  {
    assert Follow(renames, renames[a], 0) == renames[a];
  }

  /** Where two places of the walk meet, it goes on alike. */
  lemma {:induction false} FollowAlong(renames: map<string, string>, k: string, i: nat, j: nat, m: nat)
    ensures Follow(renames, k, i) == Follow(renames, k, j) ==> Follow(renames, k, i + m) == Follow(renames, k, j + m)
  {
    if m > 0 {
      FollowAlong(renames, k, i, j, m - 1);
    }
  }

  /** The first n keys from k on. */
  ghost function Chain(renames: map<string, string>, k: string, n: nat): (chain: seq<string>)
    ensures |chain| == n && forall i :: 0 <= i < n ==> chain[i] == Follow(renames, k, i)
  {
    seq(n, i requires 0 <= i => Follow(renames, k, i))
  }

  /** A key is renamed to another. */
  predicate Onward(renames: map<string, string>, k: string) {
    k in renames && renames[k] != k
  }

  /** Up to the first key outside a set the keys are distinct, and each is renamed to another. */
  lemma ChainIsDistinct(renames: map<string, string>, inject: set<string>, a: string, n: nat)
    requires a in renames && Follow(renames, renames[a], n) !in inject
    requires forall m: nat :: m < n ==> Follow(renames, renames[a], m) in inject
    ensures forall i, j :: 0 <= i < j <= n ==> Follow(renames, renames[a], i) != Follow(renames, renames[a], j)
    ensures forall i: nat :: i < n ==> Follow(renames, renames[a], i) != a && Onward(renames, Follow(renames, renames[a], i))
  {
    var b := renames[a];
    forall i, j | 0 <= i < j <= n
      ensures Follow(renames, b, i) != Follow(renames, b, j)
    {
      FollowAlong(renames, b, i, j, n - j);
    }
    forall i: nat | i < n
      ensures Follow(renames, b, i) != a && Onward(renames, Follow(renames, b, i))
    {
      FollowAlong(renames, b, i + 1, 0, n - i - 1);
      FollowAlong(renames, b, i + 1, i, n - i - 1);
    }
  }

  /** The first key outside, if there is one. */
  lemma {:induction false} FirstOutside(renames: map<string, string>, inject: set<string>, k: string, n: nat) returns (m: nat)
    requires Follow(renames, k, n) !in inject
    ensures Follow(renames, k, m) !in inject && forall i: nat :: i < m ==> Follow(renames, k, i) in inject
  {
    if i: nat :| i < n && Follow(renames, k, i) !in inject {
      m := FirstOutside(renames, inject, k, i);
    } else {
      m := n;
    }
  }

  /** The condition looks at as many keys as there are renames, and that is far enough. */
  lemma DownstreamIsInjected<V>(cfg: BodyTransform<V>, k: string)
    requires Settled(cfg) && Downstream(cfg.renameKeys, cfg.stripFields, k)
    ensures k in cfg.injectFields
  {
    var renames, inject := cfg.renameKeys, cfg.injectFields.Keys;
    var a, n: nat :| Chained(renames, cfg.stripFields, a) && Follow(renames, renames[a], n) == k;
    if k !in inject {
      var m := FirstOutside(renames, inject, renames[a], n);
      ChainIsDistinct(renames, inject, a, m);
      hide Follow;
      var chain := Chain(renames, renames[a], m);
      assert Distinct(chain) && a !in chain;
      assert Distinct([a] + chain);
      DistinctFit([a] + chain, renames.Keys);
      assert false;
    }
  }

  /** Two objects agree at a key. */
  ghost predicate SameAt<V>(x: map<string, V>, y: map<string, V>, k: string) {
    (k in x <==> k in y) && (k in x ==> x[k] == y[k])
  }

  /** With the renames in done made: a key still to rename holds what it held at first, unless it
      is downstream; and a key that is not injected has been renamed as if all at once. */
  ghost predicate OnTrack<V>(data: map<string, V>, cfg: BodyTransform<V>, done: map<string, string>, after: map<string, V>) {
    && (forall k :: k in cfg.renameKeys && k !in done && !Downstream(cfg.renameKeys, cfg.stripFields, k) ==> SameAt(after, data, k))
    && (forall k :: k !in cfg.injectFields ==> RenamedAt(data, done, after, k))
  }

  lemma NotMovedOnto<V>(data: map<string, V>, cfg: BodyTransform<V>, done: map<string, string>, k: string)
    requires Settled(cfg) && (forall f :: f in cfg.stripFields ==> f !in data)
    requires forall a :: a in done ==> a in cfg.renameKeys && done[a] == cfg.renameKeys[a]
    requires k in cfg.renameKeys && k !in cfg.injectFields
    ensures !MovedOnto(data, done, k)
  {
    hide ChainsInjected;
    if MovedOnto(data, done, k) {
      var a :| Moves(data, done, a, k);
      NextIsDownstream(cfg.renameKeys, cfg.stripFields, a);
      DownstreamIsInjected(cfg, k);
      assert false;
    }
  }

  lemma StaysOnTrackAt<V>(data: map<string, V>, cfg: BodyTransform<V>, done: map<string, string>, after: map<string, V>, from: string, k: string)
    requires Settled(cfg) && (forall f :: f in cfg.stripFields ==> f !in data)
    requires forall a :: a in done ==> a in cfg.renameKeys && done[a] == cfg.renameKeys[a]
    requires from in cfg.renameKeys && from !in done && OnTrack(data, cfg, done, after) && k !in cfg.injectFields
    ensures var to := cfg.renameKeys[from];
            RenamedAt(data, done[from := to], RenameStep(after, from, to), k)
  {
    hide ChainsInjected, Downstream;
    var renames, strip := cfg.renameKeys, cfg.stripFields;
    var to := renames[from];
    var more := done[from := to];
    assert RenamedAt(data, done, after, k);
    assert forall a :: a != from ==> (Moves(data, more, a, k) <==> Moves(data, done, a, k));
    if k == from {
      NotMovedOnto(data, cfg, more, k);
      NotMovedOnto(data, cfg, done, k);
    } else if k == to {
      if Downstream(renames, strip, from) {
        DownstreamIsClosed(renames, strip, from);
        DownstreamIsInjected(cfg, to);
        assert false;
      }
      assert SameAt(after, data, from);
      if from in data {
        assert Moves(data, more, from, k);
        forall a | Moves(data, more, a, k) ensures a == from {
          assert Live(renames, strip, a) && Live(renames, strip, from);
        }
      }
    }
  }

  lemma StaysOnTrack<V>(data: map<string, V>, cfg: BodyTransform<V>, done: map<string, string>, after: map<string, V>, from: string)
    requires Settled(cfg) && (forall f :: f in cfg.stripFields ==> f !in data)
    requires forall a :: a in done ==> a in cfg.renameKeys && done[a] == cfg.renameKeys[a]
    requires from in cfg.renameKeys && from !in done && OnTrack(data, cfg, done, after)
    ensures var to := cfg.renameKeys[from];
            OnTrack(data, cfg, done[from := to], RenameStep(after, from, to))
  {
    hide ChainsInjected, SharedInjected, Downstream;
    var renames, strip := cfg.renameKeys, cfg.stripFields;
    var to := renames[from];
    forall k | k !in cfg.injectFields
      ensures RenamedAt(data, done[from := to], RenameStep(after, from, to), k)
    {
      StaysOnTrackAt(data, cfg, done, after, from, k);
    }
    forall k | k in renames && k != from && k !in done && !Downstream(renames, strip, k)
      ensures SameAt(RenameStep(after, from, to), data, k)
    {
      assert SameAt(after, data, k);
      if k == to && from in after {
        if Downstream(renames, strip, from) {
          DownstreamIsClosed(renames, strip, from);
        } else {
          assert SameAt(after, data, from);
          NextIsDownstream(renames, strip, from);
        }
        assert false;
      }
    }
  }

  /** Whatever the order of the renames, each key that is not injected comes out as if all had
      been made at once. */
  lemma {:induction false} RenamesOnTrack<V>(data: map<string, V>, cfg: BodyTransform<V>, order: seq<string>)
    requires Settled(cfg) && (forall f :: f in cfg.stripFields ==> f !in data)
    requires Distinct(order) && forall k :: k in order ==> k in cfg.renameKeys
    ensures OnTrack(data, cfg, Only(cfg.renameKeys, order), RenameAll(data, cfg.renameKeys, order))
  {
    hide Settled;
    var renames := cfg.renameKeys;
    if order == [] {
      assert forall from, k :: !Moves(data, Only(renames, order), from, k);
    } else {
      var rest, from := order[..|order| - 1], order[|order| - 1];
      assert order == rest + [from];
      RenamesOnTrack(data, cfg, rest);
      OnlyOneMore(renames, rest, from);
      StaysOnTrack(data, cfg, Only(renames, rest), RenameAll(data, renames, rest), from);
    }
  }

  lemma SettledOrder<V>(fields: map<string, V>, cfg: BodyTransform<V>, order: seq<string>)
    requires Settled(cfg) && IsOrder(order, cfg.renameKeys.Keys)
    ensures var data := Stripped(fields, cfg.stripFields);
            forall k :: k !in cfg.injectFields ==> RenamedAt(data, cfg.renameKeys, RenameAll(data, cfg.renameKeys, order), k)
  {
    hide Settled;
    RenamesOnTrack(Stripped(fields, cfg.stripFields), cfg, order);
    assert Only(cfg.renameKeys, order) == cfg.renameKeys;
  }

  lemma InjectedAlike<V>(x: map<string, V>, y: map<string, V>, fields: map<string, V>, resolve: V -> V)
    requires forall k :: k !in fields ==> SameAt(x, y, k)
    ensures Injected(x, fields, resolve) == Injected(y, fields, resolve)
  {
    assert forall k :: k in Injected(x, fields, resolve) <==> k in Injected(y, fields, resolve);
  }

  /** No order of the renames shows in a settled rewriting. */
  lemma SettledIsRewrittenAlike<V>(fields: map<string, V>, cfg: BodyTransform<V>, one: seq<string>, other: seq<string>, resolve: V -> V)
    requires Settled(cfg) && IsOrder(one, cfg.renameKeys.Keys) && IsOrder(other, cfg.renameKeys.Keys)
    ensures Rewritten(fields, cfg, one, resolve) == Rewritten(fields, cfg, other, resolve)
  {
    hide Settled;
    var data := Stripped(fields, cfg.stripFields);
    var x, y := RenameAll(data, cfg.renameKeys, one), RenameAll(data, cfg.renameKeys, other);
    SettledOrder(fields, cfg, one);
    SettledOrder(fields, cfg, other);
    forall k | k !in cfg.injectFields
      ensures SameAt(x, y, k)
    {
      assert RenamedAt(data, cfg.renameKeys, x, k) && RenamedAt(data, cfg.renameKeys, y, k);
      if MovedOnto(data, cfg.renameKeys, k) {
        var from :| Moves(data, cfg.renameKeys, from, k);
      }
    }
    InjectedAlike(x, y, cfg.injectFields, resolve);
  }

  // ---- The other configurations ----

  lemma {:induction false} AbsentKeysAreIdle<V>(data: map<string, V>, renames: map<string, string>, order: seq<string>)
    requires forall k :: k in order ==> k in renames && k !in data
    ensures RenameAll(data, renames, order) == data
  {
    if order != [] {
      AbsentKeysAreIdle(data, renames, order[..|order| - 1]);
    }
  }

  /** Two keys made last, after renames that find nothing to do. */
  lemma TwoLast<V>(data: map<string, V>, renames: map<string, string>, rest: seq<string>, a: string, b: string)
    requires a in renames && b in renames
    requires forall k :: k in rest ==> k in renames && k !in data
    ensures forall k :: k in rest + [a] + [b] ==> k in renames
    ensures RenameAll(data, renames, rest + [a] + [b]) == RenameStep(RenameStep(data, a, renames[a]), b, renames[b])
  {
    AbsentKeysAreIdle(data, renames, rest);
    assert (rest + [a] + [b])[..|rest| + 1] == rest + [a];
    assert (rest + [a])[..|rest|] == rest;
  }

  /** Where two orders leave a key that is not injected differently, the bodies differ. */
  lemma DifferenceShows<V>(fields: map<string, V>, cfg: BodyTransform<V>, one: seq<string>, other: seq<string>, resolve: V -> V, k: string)
    requires IsOrder(one, cfg.renameKeys.Keys) && IsOrder(other, cfg.renameKeys.Keys)
    requires (forall f :: f in fields ==> f !in cfg.stripFields) && k !in cfg.injectFields
    requires !SameAt(RenameAll(fields, cfg.renameKeys, one), RenameAll(fields, cfg.renameKeys, other), k)
    ensures Rewritten(fields, cfg, one, resolve) != Rewritten(fields, cfg, other, resolve)
  {
    assert Stripped(fields, cfg.stripFields) == fields;
    var x, y := Rewritten(fields, cfg, one, resolve), Rewritten(fields, cfg, other, resolve);
    assert SameAt(x, RenameAll(fields, cfg.renameKeys, one), k);
    assert SameAt(y, RenameAll(fields, cfg.renameKeys, other), k);
  }

  /** Renamed in the order of the chain, a value travels to its end. */
  lemma {:induction false} TravelsAlong<V>(renames: map<string, string>, rest: seq<string>, a: string, n: nat, v: V)
    requires a in renames && renames[a] != a && (forall k :: k in rest ==> k in renames && k != a)
    requires forall i: nat :: i < n ==> Onward(renames, Follow(renames, renames[a], i))
    ensures forall k :: k in rest + [a] + Chain(renames, renames[a], n) ==> k in renames
    ensures RenameAll(map[a := v], renames, rest + [a] + Chain(renames, renames[a], n)) == map[Follow(renames, renames[a], n) := v]
  {
    var b := renames[a];
    var order := rest + [a] + Chain(renames, b, n);
    if n == 0 {
      AbsentKeysAreIdle(map[a := v], renames, rest);
      assert order == rest + [a] && order[..|rest|] == rest;
    } else {
      TravelsAlong(renames, rest, a, n - 1, v);
      var at := Follow(renames, b, n - 1);
      assert Onward(renames, at) && Follow(renames, b, n) == renames[at];
      hide Follow;
      assert RenameStep(map[at := v], at, renames[at]) == map[renames[at] := v];
      assert order[..|order| - 1] == rest + [a] + Chain(renames, b, n - 1);
      assert order[|order| - 1] == at;
    }
  }

  /** The order in which the value at `a` is renamed once. */
  lemma OneHop<V>(renames: map<string, string>, a: string, v: V) returns (rest: seq<string>)
    requires a in renames && renames[a] in renames && renames[a] != a
    ensures IsOrder(rest + [renames[a]] + [a], renames.Keys) && IsOrder(rest + [a] + [renames[a]], renames.Keys)
    ensures RenameAll(map[a := v], renames, rest + [renames[a]] + [a]) == map[renames[a] := v]
    ensures renames[a] !in RenameAll(map[a := v], renames, rest + [a] + [renames[a]])
  {
    var data, b := map[a := v], renames[a];
    rest := BothLast(renames.Keys, a, b);
    TwoLast(data, renames, rest, b, a);
    TwoLast(data, renames, rest, a, b);
    hide RenameAll, IsOrder;
    assert RenameStep(data, b, renames[b]) == data;
    assert RenameStep(data, a, b) == map[b := v];
  }

  /** The order in which it travels n renames further. */
  lemma ManyHops<V>(renames: map<string, string>, inject: set<string>, a: string, n: nat, v: V) returns (order: seq<string>)
    requires a in renames && renames[a] != a && Follow(renames, renames[a], n) !in inject
    requires forall m: nat :: m < n ==> Follow(renames, renames[a], m) in inject
    ensures IsOrder(order, renames.Keys)
    ensures RenameAll(map[a := v], renames, order) == map[Follow(renames, renames[a], n) := v]
  {
    hide Follow, RenameAll;
    ChainIsDistinct(renames, inject, a, n);
    var chain := Chain(renames, renames[a], n);
    assert Distinct(chain) && a !in chain;
    assert Distinct([a] + chain);
    var rest := TailLast(renames.Keys, [a] + chain);
    TravelsAlong(renames, rest, a, n, v);
    order := rest + [a] + chain;
    assert order == rest + ([a] + chain);
  }

  /** A live key is renamed onto another key to rename, and the first key downstream that is not
      injected is n renames further. */
  lemma ChainShows<V>(cfg: BodyTransform<V>, a: string, n: nat, v: V, resolve: V -> V)
    returns (fields: map<string, V>, one: seq<string>, other: seq<string>)
    requires Chained(cfg.renameKeys, cfg.stripFields, a)
    requires Follow(cfg.renameKeys, cfg.renameKeys[a], n) !in cfg.injectFields
    requires forall m: nat :: m < n ==> Follow(cfg.renameKeys, cfg.renameKeys[a], m) in cfg.injectFields
    ensures IsOrder(one, cfg.renameKeys.Keys) && IsOrder(other, cfg.renameKeys.Keys)
    ensures Rewritten(fields, cfg, one, resolve) != Rewritten(fields, cfg, other, resolve)
  {
    var renames := cfg.renameKeys;
    var b := renames[a];
    fields := map[a := v];
    var rest := OneHop(renames, a, v);
    one, other := rest + [a] + [b], rest + [b] + [a];
    assert Follow(renames, b, 0) == b;
    if n > 0 {
      one := ManyHops(renames, cfg.injectFields.Keys, a, n, v);
    }
    hide Rewritten, RenameAll, Follow, IsOrder;
    DifferenceShows(fields, cfg, one, other, resolve, Follow(renames, b, n));
  }

  /** Two live keys share a new name that is not injected. */
  lemma SharedShows<V>(cfg: BodyTransform<V>, a: string, b: string, v: V, w: V, resolve: V -> V)
    returns (fields: map<string, V>, one: seq<string>, other: seq<string>)
    requires var renames := cfg.renameKeys;
             && Live(renames, cfg.stripFields, a) && Live(renames, cfg.stripFields, b) && a != b && v != w
             && renames[a] == renames[b] && renames[a] != a && renames[a] != b && renames[a] !in cfg.injectFields
    ensures IsOrder(one, cfg.renameKeys.Keys) && IsOrder(other, cfg.renameKeys.Keys)
    ensures Rewritten(fields, cfg, one, resolve) != Rewritten(fields, cfg, other, resolve)
  {
    var renames := cfg.renameKeys;
    fields := map[a := v, b := w];
    var rest := BothLast(renames.Keys, a, b);
    one, other := rest + [a] + [b], rest + [b] + [a];
    TwoLast(fields, renames, rest, a, b);
    TwoLast(fields, renames, rest, b, a);
    DifferenceShows(fields, cfg, one, other, resolve, renames[a]);
  }

  lemma UnsettledShows<V>(cfg: BodyTransform<V>, v: V, w: V, resolve: V -> V)
    returns (fields: map<string, V>, one: seq<string>, other: seq<string>)
    requires !Settled(cfg) && v != w
    ensures IsOrder(one, cfg.renameKeys.Keys) && IsOrder(other, cfg.renameKeys.Keys)
    ensures Rewritten(fields, cfg, one, resolve) != Rewritten(fields, cfg, other, resolve)
  {
    var renames, strip, inject := cfg.renameKeys, cfg.stripFields, cfg.injectFields.Keys;
    if a, n :| Chained(renames, strip, a) && 0 <= n < |renames| && Follow(renames, renames[a], n) !in inject {
      var m := FirstOutside(renames, inject, renames[a], n);
      fields, one, other := ChainShows(cfg, a, m, v, resolve);
    } else {
      var a, b :| Live(renames, strip, a) && Live(renames, strip, b) && a != b && renames[a] == renames[b] && renames[a] !in inject;
      assert Follow(renames, renames[a], 0) == renames[a] == Follow(renames, renames[b], 0);
      assert !Chained(renames, strip, a) && !Chained(renames, strip, b);
      fields, one, other := SharedShows(cfg, a, b, v, w, resolve);
    }
  }

  /** The rewritten body is the same for every order of the renames and every object if and only
      if all keys from a live key's new name on, where that is another key to rename, and all new
      names that live keys share, are injected. */
  lemma BodyIsSettledIff<V(!new)>(cfg: BodyTransform<V>, v: V, w: V, resolve: V -> V)
    requires v != w
    ensures Settled(cfg) <==>
      forall fields: map<string, V>, one, other :: IsOrder(one, cfg.renameKeys.Keys) && IsOrder(other, cfg.renameKeys.Keys) ==>
        Rewritten(fields, cfg, one, resolve) == Rewritten(fields, cfg, other, resolve)
  {
    hide Settled;
    if Settled(cfg) {
      forall fields: map<string, V>, one, other | IsOrder(one, cfg.renameKeys.Keys) && IsOrder(other, cfg.renameKeys.Keys)
        ensures Rewritten(fields, cfg, one, resolve) == Rewritten(fields, cfg, other, resolve)
      {
        SettledIsRewrittenAlike(fields, cfg, one, other, resolve);
      }
    } else {
      var fields, one, other := UnsettledShows(cfg, v, w, resolve);
    }
  }

  // ---- The renames alone ----

  ghost function RenamesOnly<V>(renames: map<string, string>): BodyTransform<V> {
    BodyTransform(map[], [], renames)
  }

  lemma IndependentIsSettled<V>(cfg: BodyTransform<V>)
    requires Independent(cfg.renameKeys)
    ensures Settled(cfg)
  {
  }

  lemma SettledIsIndependent<V>(renames: map<string, string>)
    requires Settled(RenamesOnly<V>(renames))
    ensures Independent(renames)
  {
    forall a, b | a in renames && b in renames && a != b
      ensures renames[a] != renames[b] && renames[a] != b
    {
      assert Live(renames, [], a) && Live(renames, [], b);
      assert Follow(renames, renames[a], 0) == renames[a];
    }
  }

  /** Whatever the order, independent renames come out as if made all at once. */
  lemma RenamesAtOnce<V>(data: map<string, V>, renames: map<string, string>, order: seq<string>)
    requires Independent(renames) && Distinct(order)
    requires forall k :: k in order ==> k in renames
    ensures Renamed(data, Only(renames, order), RenameAll(data, renames, order))
  {
    hide Settled;
    IndependentIsSettled(RenamesOnly<V>(renames));
    RenamesOnTrack(data, RenamesOnly(renames), order);
  }

  lemma CompleteOrder<V>(data: map<string, V>, renames: map<string, string>, order: seq<string>)
    requires Independent(renames) && IsOrder(order, renames.Keys)
    ensures Renamed(data, renames, RenameAll(data, renames, order))
  {
    RenamesAtOnce(data, renames, order);
    assert Only(renames, order) == renames;
  }

  /** Every order of the renames gives the same object, whatever the object, exactly when the
      renames are independent. */
  lemma OrderIsIrrelevantIff<V(!new)>(renames: map<string, string>, v: V, w: V)
    requires v != w
    ensures Independent(renames) <==>
      forall data: map<string, V>, one, other :: IsOrder(one, renames.Keys) && IsOrder(other, renames.Keys) ==>
        RenameAll(data, renames, one) == RenameAll(data, renames, other)
  {
    hide Settled;
    var cfg := RenamesOnly<V>(renames);
    if Independent(renames) {
      forall data: map<string, V>, one, other | IsOrder(one, renames.Keys) && IsOrder(other, renames.Keys)
        ensures RenameAll(data, renames, one) == RenameAll(data, renames, other)
      {
        hide RenameAll, Renamed, Independent;
        CompleteOrder(data, renames, one);
        CompleteOrder(data, renames, other);
        RenamedIsUnique(data, renames, RenameAll(data, renames, one), RenameAll(data, renames, other));
      }
    } else {
      if Settled(cfg) {
        SettledIsIndependent<V>(renames);
        assert false;
      }
      hide RenameAll, Rewritten, IsOrder, Independent;
      var data, one, other := UnsettledShows(cfg, v, w, x => x);
      OnlyRenames(data, renames, one, x => x);
      OnlyRenames(data, renames, other, x => x);
    }
  }

  lemma OnlyRenames<V>(data: map<string, V>, renames: map<string, string>, order: seq<string>, resolve: V -> V)
    requires forall k :: k in order ==> k in renames
    ensures Rewritten(data, RenamesOnly(renames), order, resolve) == RenameAll(data, renames, order)
  {
    assert Stripped(data, []) == data;
  }

  /** Field by field: an injected field has its resolved value; otherwise a field carries the
      value of the unstripped field renamed to it; otherwise it is there, unchanged, exactly when
      it was there and was neither stripped nor renamed. */
  lemma RewrittenField<V>(fields: map<string, V>, cfg: BodyTransform<V>, order: seq<string>, resolve: V -> V, k: string)
    requires Settled(cfg) && IsOrder(order, cfg.renameKeys.Keys)
    ensures
      var after := Rewritten(fields, cfg, order, resolve);
      var sources := set a | a in fields && a !in cfg.stripFields && a in cfg.renameKeys && a != k && cfg.renameKeys[a] == k;
      if k in cfg.injectFields then k in after && after[k] == resolve(cfg.injectFields[k])
      else if sources != {} then k in after && forall a :: a in sources ==> sources == {a} && after[k] == fields[a]
      else
        (k in after <==> k in fields && k !in cfg.stripFields && k !in cfg.renameKeys) &&
        (k in after ==> after[k] == fields[k])
  {
    hide ChainsInjected;
    var stripped := Stripped(fields, cfg.stripFields);
    SettledOrder(fields, cfg, order);
    assert k !in cfg.injectFields ==> RenamedAt(stripped, cfg.renameKeys, RenameAll(stripped, cfg.renameKeys, order), k);
    var sources := set a | a in fields && a !in cfg.stripFields && a in cfg.renameKeys && a != k && cfg.renameKeys[a] == k;
    forall a ensures a in sources <==> Moves(stripped, cfg.renameKeys, a, k) {}
    forall a | a in sources && k !in cfg.injectFields
      ensures sources == {a}
    {
      assert forall b :: b in sources ==> Live(cfg.renameKeys, cfg.stripFields, a) && Live(cfg.renameKeys, cfg.stripFields, b);
    }
  }

  function Encoded(bytes: Option<string>): Reply {
    if bytes.Some? then Body(bytes.value) else MarshalError
  }

  method Strip<V>(fields: map<string, V>, names: seq<string>) returns (data: map<string, V>)
    ensures data == Stripped(fields, names)
  {
    data := fields;
    for i := 0 to |names|
      invariant data == Stripped(fields, names[..i])
    {
      data := data - {names[i]};
      assert Elements(names[..i + 1]) == Elements(names[..i]) + {names[i]};
    }
    assert names[..|names|] == names;
  }

  method Rename<V>(fields: map<string, V>, renames: map<string, string>)
    returns (data: map<string, V>, ghost order: seq<string>)
    ensures IsOrder(order, renames.Keys) && data == RenameAll(fields, renames, order)
    ensures Independent(renames) ==> Renamed(fields, renames, data)
  {
    data := fields;
    order := [];
    var rest := renames.Keys;
    while rest != {}
      invariant rest <= renames.Keys
      invariant IsOrder(order, renames.Keys - rest)
      invariant data == RenameAll(fields, renames, order)
    {
      var oldKey :| oldKey in rest;
      var newKey := renames[oldKey];
      if oldKey in data {
        data := data[newKey := data[oldKey]];
        data := data - {oldKey};
      }
      assert (order + [oldKey])[..|order|] == order;
      order := order + [oldKey];
      rest := rest - {oldKey};
    }
    if Independent(renames) {
      CompleteOrder(fields, renames, order);
    }
  }

  method Inject<V>(fields: map<string, V>, injected: map<string, V>, resolve: V -> V) returns (data: map<string, V>)
    ensures data == Injected(fields, injected, resolve)
  {
    data := fields;
    var rest := injected.Keys;
    while rest != {}
      invariant rest <= injected.Keys
      invariant data == fields + map k | k in injected && k !in rest :: resolve(injected[k])
    {
      var key :| key in rest;
      data := data[key := resolve(injected[key])];
      rest := rest - {key};
    }
  }

  // ---- Bodies that are not rewritten ----

  /** What becomes of a body without any rewriting; none if it is an object to rewrite. */
  function PassedThrough<V>(body: string, config: Option<BodyTransform<V>>, decode: string -> Parsed<V>): Option<Reply> {
    if config.None? || body == "" then Some(Body(body))
    else
      match decode(body)
      case NotAnObject => Some(Body(body))
      case Null => Some(if config.value.injectFields == map[] then Body("null") else WriteToNilMap)
      case Object(_) => None
  }

  /** A body that is no object is returned unchanged, except that JSON null must be spelled
      plainly and have nothing injected into it. */
  lemma UnchangedIff<V>(body: string, config: Option<BodyTransform<V>>, decode: string -> Parsed<V>)
    requires !decode(body).Object?
    ensures PassedThrough(body, config, decode) == Some(Body(body)) <==>
              (config.Some? && body != "" && decode(body).Null? ==> config.value.injectFields == map[] && body == "null")
  {
  }

  /** So with a decoder that reads padded nulls as null, all bodies that are no objects are
      returned unchanged if and only if there is no transform to make. */
  lemma AllUnchangedIff<V(!new)>(config: Option<BodyTransform<V>>, decode: string -> Parsed<V>, padded: string)
    requires padded != "" && padded != "null" && decode(padded).Null?
    ensures (forall body :: !decode(body).Object? ==> PassedThrough(body, config, decode) == Some(Body(body))) <==> config.None?
  {
    UnchangedIff(padded, config, decode);
  }

  /** The plain null fails exactly when there are fields to inject. */
  lemma NullFailsIff<V>(cfg: BodyTransform<V>, decode: string -> Parsed<V>)
    requires decode("null").Null?
    ensures PassedThrough("null", Some(cfg), decode) == Some(WriteToNilMap) <==> cfg.injectFields != map[]
  {
    assert "null"[0] == 'n';
  }

  /** `decode`, `encode` and `resolve` are the JSON decoder and encoder and the substitution of
      request variables. */
  method TransformBody<V>(body: string, config: Option<BodyTransform<V>>, decode: string -> Parsed<V>,
                          encode: map<string, V> -> Option<string>, resolve: V -> V)
    returns (reply: Reply, ghost order: seq<string>)
    ensures var passed := PassedThrough(body, config, decode); passed.Some? ==> reply == passed.value
    ensures config.Some? && body != "" && decode(body).Object? ==>
      IsOrder(order, config.value.renameKeys.Keys) &&
      match encode(Rewritten(decode(body).fields, config.value, order, resolve))
      case Some(bytes) => reply == Body(bytes)
      case None => reply == MarshalError
    ensures config.Some? && body != "" && decode(body).Object? && Settled(config.value) ==>
      forall o :: IsOrder(o, config.value.renameKeys.Keys) ==>
        reply == Encoded(encode(Rewritten(decode(body).fields, config.value, o, resolve)))
  {
    order := [];
    if config.None? || |body| == 0 {
      return Body(body), [];
    }
    var cfg := config.value;
    match decode(body)
    case NotAnObject =>
      return Body(body), [];
    case Null =>
      if cfg.injectFields != map[] {
        return WriteToNilMap, [];
      }
      return Body("null"), [];
    case Object(fields) =>
      var data := Strip(fields, cfg.stripFields);
      data, order := Rename(data, cfg.renameKeys);
      data := Inject(data, cfg.injectFields, resolve);
      reply := Encoded(encode(data));
      if Settled(cfg) {
        forall o | IsOrder(o, cfg.renameKeys.Keys)
          ensures Rewritten(fields, cfg, o, resolve) == Rewritten(fields, cfg, order, resolve)
        {
          SettledIsRewrittenAlike(fields, cfg, o, order, resolve);
        }
      }
  }
}
