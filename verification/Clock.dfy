/** Lists of operations whose times never go back. */
module Clock {
  predicate InOrder<T>(time: T -> int, ops: seq<T>) {
    forall i, j :: 0 <= i <= j < |ops| ==> time(ops[i]) <= time(ops[j])
  }

  lemma InOrderParts<T>(time: T -> int, a: seq<T>, b: seq<T>)
    requires InOrder(time, a + b)
    ensures InOrder(time, a) && forall i :: 0 <= i < |a| ==> a[i] == (a + b)[i]
    ensures forall i, j :: 0 <= i < |a| && 0 <= j < |b| ==> time(a[i]) <= time(b[j])
  {
    assert forall i :: 0 <= i < |a| ==> a[i] == (a + b)[i];
    forall i, j | 0 <= i < |a| && 0 <= j < |b|
      ensures time(a[i]) <= time(b[j])
    {
      assert time((a + b)[i]) <= time((a + b)[|a| + j]);
    }
  }
}
