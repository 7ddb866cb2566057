/** The broker of src/lib.rs as a value: the `MessageQueues` state and one function per
    operation, each returning the new state together with the operation's result. The class
    in broker.dfy performs the same operations in place and is proved equal to these. */
module Queues {
  import opened Ids
  import opened Wrappers
  import Fifo

  /** A pending request: its identifier and its payload. */
  type Entry<P> = (ReqId, P)

  /** `MessageQueues`: per-service request queues (front = newest), recorded responses
      (`None` = the handler did not recognise the payload), parked wakers and the two
      identifier counters. */
  datatype State<P, W> = State(
    requests: map<SrvId, seq<Entry<P>>>,
    responses: map<ReqId, Option<P>>,
    wakers: map<ReqId, W>,
    nextSrvId: SrvId,
    nextReqId: ReqId)

  /** The request identifiers occurring in a sequence of pairs. */
  function IdsOf<X>(s: seq<(ReqId, X)>): set<ReqId> {
    set k | 0 <= k < |s| :: s[k].0
  }

  /** No request identifier occurs twice. */
  ghost predicate Distinct<X>(s: seq<(ReqId, X)>) {
    forall i, j :: 0 <= i < j < |s| ==> s[i].0 != s[j].0
  }

  /** A queue as `post_request` builds it: every identifier already allocated, and
      identifiers decreasing from the front (newest) to the back (oldest). */
  ghost predicate Ordered<P>(q: seq<Entry<P>>, next: ReqId) {
    && (forall i :: 0 <= i < |q| ==> q[i].0.Before(next))
    && (forall i, j :: 0 <= i < j < |q| ==> q[j].0.Before(q[i].0))
  }

  /** `id` waits in no service's queue. */
  ghost predicate Unqueued<P, W>(s: State<P, W>, id: ReqId) {
    forall srv | srv in s.requests :: id !in IdsOf(s.requests[srv])
  }

  /** The invariant every reachable state keeps: registered services and every stored
      request identifier were allocated by the counters; each queue is in posting order; a
      request still queued has no recorded response; no request is queued twice. */
  ghost predicate Valid<P, W>(s: State<P, W>) {
    && (forall srv | srv in s.requests :: srv.Before(s.nextSrvId))
    && (forall srv | srv in s.requests :: Ordered(s.requests[srv], s.nextReqId))
    && (forall id | id in s.responses :: id.Before(s.nextReqId))
    && (forall id | id in s.wakers :: id.Before(s.nextReqId))
    && (forall srv | srv in s.requests :: IdsOf(s.requests[srv]) !! s.responses.Keys)
    && (forall a, b | a in s.requests && b in s.requests && a != b ::
          IdsOf(s.requests[a]) !! IdsOf(s.requests[b]))
  }

  lemma {:induction false} IdsOfPushFront<X>(e: (ReqId, X), q: seq<(ReqId, X)>)
    ensures IdsOf([e] + q) == {e.0} + IdsOf(q)
  {
    var r := [e] + q;
    forall id | id in IdsOf(q) ensures id in IdsOf(r) {
      var k :| 0 <= k < |q| && q[k].0 == id;
      assert r[k + 1].0 == id;
    }
    assert r[0].0 == e.0;
  }

  lemma {:induction false} IdsOfPopBack<X>(q: seq<(ReqId, X)>)
    requires q != []
    ensures IdsOf(q) == IdsOf(q[..|q| - 1]) + {q[|q| - 1].0}
  {
    var rest := q[..|q| - 1];
    forall id | id in IdsOf(rest) ensures id in IdsOf(q) {
      var k :| 0 <= k < |rest| && rest[k].0 == id;
      assert q[k].0 == id;
    }
  }

  /** `MessageQueues::new`. */
  function New<P, W>(): (s: State<P, W>)
    ensures Valid(s)
    ensures s.requests == map[] && s.responses == map[] && s.wakers == map[]
    ensures s.nextSrvId == SrvId(0) && s.nextReqId == ReqId(0)
  {
    State(map[], map[], map[], SrvId(0), ReqId(0))
  }

  /** `register`: hands out the service counter, installs an empty queue under it and
      advances the counter by one. */
  function Register<P, W>(s: State<P, W>): (r: (State<P, W>, SrvId))
    ensures r.1 == s.nextSrvId && r.0.nextSrvId == s.nextSrvId.Next()
    ensures r.0.requests == s.requests[r.1 := []]
    ensures r.0.responses == s.responses && r.0.wakers == s.wakers
    ensures r.0.nextReqId == s.nextReqId
  {
    var id := s.nextSrvId;
    (s.(requests := s.requests[id := []], nextSrvId := id.Next()), id)
  }

  /** `unregister`: drops the service's queue, silently discarding what was still pending. */
  function Unregister<P, W>(s: State<P, W>, srv: SrvId): (r: State<P, W>)
    ensures r.requests.Keys == s.requests.Keys - {srv}
    ensures forall other | other in r.requests :: r.requests[other] == s.requests[other]
    ensures r.responses == s.responses && r.wakers == s.wakers
    ensures r.nextSrvId == s.nextSrvId && r.nextReqId == s.nextReqId
    ensures srv !in s.requests ==> r == s
  {
    s.(requests := s.requests - {srv})
  }

  /** `post_request`: to a registered service, allocates the next request identifier and
      pushes the request at the front of its queue; to any other identifier, nothing. */
  function PostRequest<P, W>(s: State<P, W>, srv: SrvId, p: P): (r: (State<P, W>, Option<ReqId>))
    ensures srv !in s.requests ==> r == (s, None)
    ensures srv in s.requests ==>
      && r.1 == Some(s.nextReqId)
      && r.0.nextReqId == s.nextReqId.Next()
      && r.0.requests == s.requests[srv := [(s.nextReqId, p)] + s.requests[srv]]
      && Fifo.Arrivals(r.0.requests[srv]) == Fifo.Arrivals(s.requests[srv]) + [(s.nextReqId, p)]
      && r.0.responses == s.responses && r.0.wakers == s.wakers
      && r.0.nextSrvId == s.nextSrvId
  {
    if srv in s.requests then
      var id := s.nextReqId;
      Fifo.PushFrontAppends(s.requests[srv], (id, p));
      (s.(requests := s.requests[srv := [(id, p)] + s.requests[srv]], nextReqId := id.Next()), Some(id))
    else
      (s, None)
  }

  /** `take_request`: pops the back of the service's queue, which is the oldest request
      still pending there. The source panics on an unknown service, hence the requires. */
  function TakeRequest<P, W>(s: State<P, W>, srv: SrvId): (r: (State<P, W>, Option<Entry<P>>))
    requires srv in s.requests
    ensures s.requests[srv] == [] ==> r == (s, None)
    ensures s.requests[srv] != [] ==>
      var q := s.requests[srv];
      && r.1 == Some(Fifo.Arrivals(q)[0])
      && r.0 == s.(requests := s.requests[srv := q[..|q| - 1]])
      && Fifo.Arrivals(r.0.requests[srv]) == Fifo.Arrivals(q)[1..]
  {
    var q := s.requests[srv];
    if q == [] then
      (s, None)
    else
      Fifo.PopBackTakesOldest(q);
      (s.(requests := s.requests[srv := q[..|q| - 1]]), Some(q[|q| - 1]))
  }

  /** `set_response`: records the outcome and removes the waker parked under `id`, which is
      returned as the one waker this call wakes. */
  function SetResponse<P, W>(s: State<P, W>, id: ReqId, resp: Option<P>): (r: (State<P, W>, Option<W>))
    ensures r.0.responses == s.responses[id := resp]
    ensures r.0.wakers == s.wakers - {id}
    ensures r.1.Some? <==> id in s.wakers
    ensures r.1.Some? ==> r.1.value == s.wakers[id]
    ensures r.0.requests == s.requests
    ensures r.0.nextSrvId == s.nextSrvId && r.0.nextReqId == s.nextReqId
  {
    var woken := if id in s.wakers then Some(s.wakers[id]) else None;
    (s.(responses := s.responses[id := resp], wakers := s.wakers - {id}), woken)
  }

  /** `check_response`: a recorded outcome is removed and returned (`Ok(Some(p))`, or `Err`
      for a recorded `None`); with nothing recorded, a live service gets the waker parked
      (replacing any earlier one) and `Ok(None)`, a departed service yields `Err`. */
  function CheckResponse<P, W>(s: State<P, W>, srv: SrvId, id: ReqId, w: W): (r: (State<P, W>, Result<Option<P>>))
    ensures id !in r.0.responses
    ensures r.0.requests == s.requests
    ensures r.0.nextSrvId == s.nextSrvId && r.0.nextReqId == s.nextReqId
    ensures id in s.responses ==>
      && r.0 == s.(responses := s.responses - {id})
      && (if s.responses[id].Some? then r.1 == Ok(s.responses[id]) else r.1 == Err)
    ensures id !in s.responses && srv in s.requests ==>
      r == (s.(wakers := s.wakers[id := w]), Ok(None))
    ensures id !in s.responses && srv !in s.requests ==> r == (s, Err)
  {
    if id in s.responses then
      var s' := s.(responses := s.responses - {id});
      match s.responses[id]
      case Some(p) => (s', Ok(Some(p)))
      case None => (s', Err)
    else if srv in s.requests then
      (s.(wakers := s.wakers[id := w]), Ok(None))
    else
      (s, Err)
  }

  /** The waker (if any) that answering a request hands back, as a sequence. */
  function WokenList<W>(woken: Option<W>): seq<W> {
    if woken.Some? then [woken.value] else []
  }

  /** `serve_requests`: takes requests until the queue is empty and records the handler's
      answer to each. The handler is `FnMut`, so it threads a state `H` from one request to
      the next. Returns the final handler state and the wakers woken, in order. */
  function ServeRequests<P, W, H>(s: State<P, W>, srv: SrvId, f: (H, P) -> (H, Option<P>), h: H): (r: (State<P, W>, H, seq<W>))
    requires srv in s.requests
    ensures r.0.requests == s.requests[srv := []]
    ensures r.0.nextSrvId == s.nextSrvId && r.0.nextReqId == s.nextReqId
    ensures |r.2| <= |s.requests[srv]|
    decreases |s.requests[srv]|
  {
    var (s1, next) := TakeRequest(s, srv);
    match next
    case None => (s1, h, [])
    case Some(entry) =>
      var (h1, resp) := f(h, entry.1);
      var (s2, woken) := SetResponse(s1, entry.0, resp);
      var (s3, h3, rest) := ServeRequests(s2, srv, f, h1);
      (s3, h3, WokenList(woken) + rest)
  }

  /** The future `send_request` returns: the target service and the identifier
      `post_request` allocated, if any. */
  datatype Request = Request(srvId: SrvId, optReqId: Option<ReqId>)

  /** `send_request`: posts the payload and wraps the outcome in a `Request`. */
  function SendRequest<P, W>(s: State<P, W>, srv: SrvId, p: P): (r: (State<P, W>, Request))
    ensures r.0 == PostRequest(s, srv, p).0
    ensures r.1.srvId == srv
    ensures r.1.optReqId.None? <==> srv !in s.requests
    ensures r.1.optReqId.Some? ==> r.1.optReqId.value == s.nextReqId
    ensures srv !in s.requests ==> r.0 == s
  {
    var (s', opt) := PostRequest(s, srv, p);
    (s', Request(srv, opt))
  }

  /** The result mapping of `Request::poll`: a payload is ready, `Ok(None)` is pending,
      any error is a ready failure. */
  function ToPoll<P>(c: Result<Option<P>>): (r: Poll<Result<P>>)
    ensures r.Pending? <==> c == Ok(None)
    ensures r.Ready? && r.value.Ok? <==> c.Ok? && c.value.Some?
    ensures r.Ready? && r.value.Ok? ==> r.value.value == c.value.value
    ensures r == Ready(Err) <==> c.Err?
  {
    match c
    case Ok(Some(p)) => Ready(Ok(p))
    case Ok(None) => Pending
    case Err => Ready(Err)
  }

  /** `Request::poll` with waker `w`: fails at once when no identifier was allocated;
      otherwise consults `check_response`. Pending exactly when nothing is recorded and the
      service is alive, in which case only the waker table changes. */
  function PollRequest<P, W>(s: State<P, W>, req: Request, w: W): (r: (State<P, W>, Poll<Result<P>>))
    ensures req.optReqId.None? ==> r == (s, Ready(Err))
    ensures r.1.Pending? <==>
      req.optReqId.Some? && req.optReqId.value !in s.responses && req.srvId in s.requests
    ensures r.1.Pending? ==> r.0 == s.(wakers := s.wakers[req.optReqId.value := w])
    ensures r.1.Ready? ==> r.0.wakers == s.wakers
    ensures r.1.Ready? && r.1.value.Ok? <==>
      req.optReqId.Some? && req.optReqId.value in s.responses && s.responses[req.optReqId.value].Some?
    ensures r.1.Ready? && r.1.value.Ok? ==> Some(r.1.value.value) == s.responses[req.optReqId.value]
    ensures req.optReqId.Some? ==> r.0.responses == s.responses - {req.optReqId.value}
    ensures r.0.requests == s.requests && r.0.nextSrvId == s.nextSrvId && r.0.nextReqId == s.nextReqId
  {
    match req.optReqId
    case None => (s, Ready(Err))
    case Some(id) =>
      var (s', c) := CheckResponse(s, req.srvId, id, w);
      (s', ToPoll(c))
  }
}
