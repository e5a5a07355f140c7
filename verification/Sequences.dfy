/** Facts about sequences that the solver needs spelled out. */
module Sequences {
  lemma Regroup<T>(a: seq<T>, b: seq<T>, c: seq<T>)
    ensures a + b + c == a + (b + c)
  {
  }

  lemma Single<T>(a: seq<T>, b: seq<T>, x: T)
    requires a + b == [x]
    ensures (a == [x] && b == []) || (a == [] && b == [x])
  {
    assert |a| + |b| == 1;
    if |a| == 1 { assert (a + b)[0] == a[0]; } else { assert (a + b)[0] == b[0]; }
  }
}
