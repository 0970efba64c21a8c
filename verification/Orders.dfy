/** The orders in which a loop over a map may visit its keys. */
module Orders {
  ghost predicate IsOrder<T(!new)>(order: seq<T>, keys: set<T>) {
    (forall k :: k in order <==> k in keys) && Distinct(order)
  }

  ghost predicate Distinct<T>(order: seq<T>) {
    forall i, j :: 0 <= i < j < |order| ==> order[i] != order[j]
  }

  ghost function Ordered<T(!new)>(keys: set<T>): (order: seq<T>)
    ensures IsOrder(order, keys) && |order| == |keys|
  {
    if keys == {} then []
    else
      var k :| k in keys;
      [k] + Ordered(keys - {k})
  }

  lemma OrderExtends<T(!new)>(order: seq<T>, keys: set<T>, k: T)
    requires IsOrder(order, keys) && k !in keys
    ensures IsOrder(order + [k], keys + {k})
  {
  }

  lemma {:induction false} DistinctFit<T(!new)>(order: seq<T>, keys: set<T>)
    requires Distinct(order) && forall k :: k in order ==> k in keys
    ensures |order| <= |keys|
  {
    if order != [] {
      var last := order[|order| - 1];
      assert last !in order[..|order| - 1];
      DistinctFit(order[..|order| - 1], keys - {last});
    }
  }

  lemma OrderJoins<T(!new)>(one: seq<T>, a: set<T>, other: seq<T>, b: set<T>)
    requires IsOrder(one, a) && IsOrder(other, b) && a !! b
    ensures IsOrder(one + other, a + b)
  {
    forall i, j | 0 <= i < j < |one + other|
      ensures (one + other)[i] != (one + other)[j]
    {
      assert (one + other)[i] in a + b && (one + other)[j] in a + b;
    }
  }

  /** Any distinct keys can be put last. */
  lemma TailLast<T(!new)>(keys: set<T>, tail: seq<T>) returns (rest: seq<T>)
    requires Distinct(tail) && forall k :: k in tail ==> k in keys
    ensures IsOrder(rest + tail, keys) && forall k :: k in rest ==> k in keys && k !in tail
  {
    var last := set k | k in tail;
    rest := Ordered(keys - last);
    OrderJoins(rest, keys - last, tail, last);
    assert keys - last + last == keys;
  }

  /** Two keys can be put last in either order. */
  lemma BothLast<T(!new)>(keys: set<T>, a: T, b: T) returns (rest: seq<T>)
    requires a in keys && b in keys && a != b
    ensures forall k :: k in rest ==> k in keys && k != a && k != b
    ensures IsOrder(rest + [a] + [b], keys) && IsOrder(rest + [b] + [a], keys)
  {
    rest := Ordered(keys - {a, b});
    TwoExtend(rest, keys, a, b);
    TwoExtend(rest, keys, b, a);
  }

  lemma TwoExtend<T(!new)>(rest: seq<T>, keys: set<T>, a: T, b: T)
    requires a in keys && b in keys && a != b && IsOrder(rest, keys - {a, b})
    ensures IsOrder(rest + [a] + [b], keys)
  {
    OrderExtends(rest, keys - {a, b}, a);
    OrderExtends(rest + [a], keys - {a, b} + {a}, b);
    assert keys - {a, b} + {a} + {b} == keys;
  }
}
