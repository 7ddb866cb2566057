/** A service's request queue is a double-ended queue that is filled with `push_front` and
    drained with `pop_back`. Here it is a sequence whose index 0 is the front, and `Arrivals`
    reads it back in the order elements were pushed. */
module Fifo {

  /** The elements of `q` oldest first: the front-filled queue read from its back. */
  function Arrivals<T>(q: seq<T>): (r: seq<T>)
    ensures |r| == |q|
    ensures forall i :: 0 <= i < |q| ==> r[i] == q[|q| - 1 - i]
  {
    if q == [] then [] else Arrivals(q[1..]) + [q[0]]
  }

  /** `push_front` appends to the arrival order. */
  lemma {:induction false} PushFrontAppends<T>(q: seq<T>, x: T)
    ensures Arrivals([x] + q) == Arrivals(q) + [x]
  {
    assert ([x] + q)[1..] == q;
  }

  /** `pop_back` yields the oldest element and leaves the rest of the arrival order. */
  lemma {:induction false} PopBackTakesOldest<T>(q: seq<T>)
    requires q != []
    ensures Arrivals(q)[0] == q[|q| - 1]
    ensures Arrivals(q[..|q| - 1]) == Arrivals(q)[1..]
  {
    var rest := q[..|q| - 1];
    var a, b := Arrivals(rest), Arrivals(q)[1..];
    assert |a| == |b|;
    forall i | 0 <= i < |a| ensures a[i] == b[i] {
      assert a[i] == rest[|rest| - 1 - i];
      assert b[i] == Arrivals(q)[i + 1];
    }
  }
}
