/** What a serve pass does, stated independently of the take/answer loop: the handler is
    applied to the queued requests oldest first, its answers are recorded in that order, and
    exactly the wakers parked under the answered requests are woken. */
module Serving {
  import opened Ids
  import opened Wrappers
  import opened Queues
  import Fifo
  import Invariants

  /** The handler run over `items` in order, threading its state; one answer per item. */
  function Handle<P, H>(items: seq<Entry<P>>, f: (H, P) -> (H, Option<P>), h: H): (r: (seq<(ReqId, Option<P>)>, H))
    ensures |r.0| == |items|
    ensures forall k :: 0 <= k < |items| ==> r.0[k].0 == items[k].0
  {
    if items == [] then
      ([], h)
    else
      var (h1, resp) := f(h, items[0].1);
      var (rest, h2) := Handle(items[1..], f, h1);
      ([(items[0].0, resp)] + rest, h2)
  }

  /** The responses table after recording `answers` one after the other. */
  function Record<P>(m: map<ReqId, Option<P>>, answers: seq<(ReqId, Option<P>)>): (r: map<ReqId, Option<P>>)
    ensures r.Keys == m.Keys + IdsOf(answers)
    ensures forall id | id in m && id !in IdsOf(answers) :: r[id] == m[id]
    decreases |answers|
  {
    if answers == [] then
      m
    else
      assert answers == [answers[0]] + answers[1..];
      IdsOfPushFront(answers[0], answers[1..]);
      Record(m[answers[0].0 := answers[0].1], answers[1..])
  }

  /** With distinct identifiers, each answer is what the table holds for its request. */
  lemma {:induction false} RecordedAt<P>(m: map<ReqId, Option<P>>, answers: seq<(ReqId, Option<P>)>, k: nat)
    requires Distinct(answers) && k < |answers|
    ensures answers[k].0 in Record(m, answers)
    ensures Record(m, answers)[answers[k].0] == answers[k].1
    decreases k
  {
    var m' := m[answers[0].0 := answers[0].1];
    assert Record(m, answers) == Record(m', answers[1..]);
    if k == 0 {
      assert answers[0].0 !in IdsOf(answers[1..]);
    } else {
      assert Distinct(answers[1..]);
      RecordedAt(m', answers[1..], k - 1);
    }
  }

  /** The wakers parked under the identifiers of `items`, in the order of `items`. */
  function Wakeups<P, W>(ws: map<ReqId, W>, items: seq<Entry<P>>): (r: seq<W>)
    ensures |r| <= |items|
  {
    if items == [] then
      []
    else
      (if items[0].0 in ws then [ws[items[0].0]] else []) + Wakeups(ws, items[1..])
  }

  /** Removing a waker for a request not among `items` does not change their wakeups. */
  lemma {:induction false} WakeupsSkip<P, W>(ws: map<ReqId, W>, items: seq<Entry<P>>, id: ReqId)
    requires forall k :: 0 <= k < |items| ==> items[k].0 != id
    ensures Wakeups(ws - {id}, items) == Wakeups(ws, items)
  {
    if items != [] {
      WakeupsSkip(ws, items[1..], id);
    }
  }

  /** An ordered queue read in arrival order has distinct identifiers. */
  lemma OrderedArrivalsDistinct<P>(q: seq<Entry<P>>, next: ReqId)
    requires Ordered(q, next)
    ensures Distinct(Fifo.Arrivals(q))
  {
    var a := Fifo.Arrivals(q);
    forall i, j | 0 <= i < j < |a| ensures a[i].0 != a[j].0 {
      assert a[i] == q[|q| - 1 - i] && a[j] == q[|q| - 1 - j];
    }
  }

  /** A serve pass records the handler's answers to the queued requests, oldest first, and
      leaves the handler in the state it reaches after the last of them. */
  lemma {:induction false} ServeAnswers<P, W, H>(s: State<P, W>, srv: SrvId, f: (H, P) -> (H, Option<P>), h: H)
    requires srv in s.requests
    ensures ServeRequests(s, srv, f, h).0.responses
         == Record(s.responses, Handle(Fifo.Arrivals(s.requests[srv]), f, h).0)
    ensures ServeRequests(s, srv, f, h).1 == Handle(Fifo.Arrivals(s.requests[srv]), f, h).1
    decreases |s.requests[srv]|
  {
    var q := s.requests[srv];
    if q != [] {
      var (s1, next) := TakeRequest(s, srv);
      var entry := next.value;
      var (h1, resp) := f(h, entry.1);
      var s2 := SetResponse(s1, entry.0, resp).0;
      var items := Fifo.Arrivals(q);
      assert items[0] == entry;
      assert Fifo.Arrivals(s2.requests[srv]) == items[1..];
      ServeAnswers(s2, srv, f, h1);
    }
  }

  /** One turn of the serve loop: pop the oldest request, answer it, serve the rest. */
  lemma ServeStep<P, W, H>(s: State<P, W>, srv: SrvId, f: (H, P) -> (H, Option<P>), h: H)
    requires srv in s.requests && s.requests[srv] != []
    ensures var q := s.requests[srv];
      var entry := q[|q| - 1];
      var answered := SetResponse(s.(requests := s.requests[srv := q[..|q| - 1]]), entry.0, f(h, entry.1).1);
      var tail := ServeRequests(answered.0, srv, f, f(h, entry.1).0);
      && answered.0.requests[srv] == q[..|q| - 1]
      && ServeRequests(s, srv, f, h) == (tail.0, tail.1, WokenList(answered.1) + tail.2)
  {
  }

  /** ServeStep phrased over the states one turn of the loop passes through: `taken` is what
      `take_request` returned and `answered` what `set_response` returned. */
  lemma {:induction false} ServeTurn<P, W, H>(s: State<P, W>, srv: SrvId, f: (H, P) -> (H, Option<P>), h: H,
                           taken: (State<P, W>, Option<Entry<P>>), answered: (State<P, W>, Option<W>))
    requires srv in s.requests
    requires taken == TakeRequest(s, srv) && taken.1.Some?
    requires answered == SetResponse(taken.0, taken.1.value.0, f(h, taken.1.value.1).1)
    ensures srv in answered.0.requests
    ensures |answered.0.requests[srv]| < |s.requests[srv]|
    ensures ServeRequests(s, srv, f, h)
         == (ServeRequests(answered.0, srv, f, f(h, taken.1.value.1).0).0,
             ServeRequests(answered.0, srv, f, f(h, taken.1.value.1).0).1,
             WokenList(answered.1) + ServeRequests(answered.0, srv, f, f(h, taken.1.value.1).0).2)
  {
    var q := s.requests[srv];
    assert taken.0 == s.(requests := s.requests[srv := q[..|q| - 1]]) && taken.1.value == q[|q| - 1];
    ServeStep(s, srv, f, h);
  }

  /** The serve loop's invariant survives one turn: when the whole pass is this turn's woken
      wakers `w` followed by the rest of the pass, the wakers `done` woken before the turn
      followed by the whole pass are `done + w` followed by the rest. */
  lemma {:induction false} ServeLoopTurn<S, H, W>(whole: (S, H, seq<W>), rest: (S, H, seq<W>), w: seq<W>,
                                                   done: seq<W>, target: (S, H, seq<W>))
    requires whole == (rest.0, rest.1, w + rest.2)
    requires whole.0 == target.0 && whole.1 == target.1 && done + whole.2 == target.2
    ensures rest.0 == target.0 && rest.1 == target.1 && (done + w) + rest.2 == target.2
  {
    assert (done + w) + rest.2 == done + (w + rest.2);
  }

  /** A serve pass removes the wakers of exactly the answered requests. */
  lemma {:induction false} ServeRemovesWakers<P, W, H>(s: State<P, W>, srv: SrvId, f: (H, P) -> (H, Option<P>), h: H)
    requires srv in s.requests
    ensures ServeRequests(s, srv, f, h).0.wakers == s.wakers - IdsOf(s.requests[srv])
    decreases |s.requests[srv]|
  {
    var q := s.requests[srv];
    if q == [] {
      assert IdsOf(q) == {};
    } else {
      var entry := q[|q| - 1];
      ServeStep(s, srv, f, h);
      var s2 := SetResponse(s.(requests := s.requests[srv := q[..|q| - 1]]), entry.0, f(h, entry.1).1).0;
      ServeRemovesWakers(s2, srv, f, f(h, entry.1).0);
      IdsOfPopBack(q);
      assert s2.wakers - IdsOf(q[..|q| - 1]) == s.wakers - IdsOf(q);
    }
  }

  /** A serve pass wakes exactly the wakers parked under the answered requests, in the order
      the requests were answered. */
  lemma {:induction false} ServeWakes<P, W, H>(s: State<P, W>, srv: SrvId, f: (H, P) -> (H, Option<P>), h: H)
    requires Valid(s) && srv in s.requests
    ensures ServeRequests(s, srv, f, h).2 == Wakeups(s.wakers, Fifo.Arrivals(s.requests[srv]))
    decreases |s.requests[srv]|
  {
    var q := s.requests[srv];
    if q != [] {
      var entry := q[|q| - 1];
      var s1 := s.(requests := s.requests[srv := q[..|q| - 1]]);
      ServeStep(s, srv, f, h);
      Invariants.TakeRequestKeepsValid(s, srv);
      assert s1 == TakeRequest(s, srv).0;
      Invariants.SetResponseKeepsValid(s1, entry.0, f(h, entry.1).1);
      var s2 := SetResponse(s1, entry.0, f(h, entry.1).1).0;
      ServeWakes(s2, srv, f, f(h, entry.1).0);
      assert entry.0 !in IdsOf(q[..|q| - 1]);
      WakersStep(s.wakers, q);
    }
  }

  /** One step of ServeWakes: the arrival order of `q` starts with its back element, whose
      identifier the rest of the queue does not contain. */
  lemma WakersStep<P, W>(ws: map<ReqId, W>, q: seq<Entry<P>>)
    requires q != [] && q[|q| - 1].0 !in IdsOf(q[..|q| - 1])
    ensures Wakeups(ws, Fifo.Arrivals(q))
         == WokenList(if q[|q| - 1].0 in ws then Some(ws[q[|q| - 1].0]) else None)
            + Wakeups(ws - {q[|q| - 1].0}, Fifo.Arrivals(q[..|q| - 1]))
  {
    var rest := q[..|q| - 1];
    var id := q[|q| - 1].0;
    var items := Fifo.Arrivals(q);
    Fifo.PopBackTakesOldest(q);
    forall k | 0 <= k < |items[1..]| ensures items[1..][k].0 != id {
      assert items[1..][k] == rest[|rest| - 1 - k];
    }
    WakeupsSkip(ws, items[1..], id);
  }
}
