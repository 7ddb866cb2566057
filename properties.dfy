/** Properties of the broker that relate several operations: identifier freshness over any
    sequence of calls, FIFO service, destructive reads, and what a caller's future resolves
    to. */
module Properties {
  import opened Ids
  import opened Wrappers
  import opened Queues
  import Fifo
  import Invariants
  import Serving

  /** What a caller finally receives for a recorded response: the payload, or the single
      error for a recorded `None`. */
  function Outcome<P>(resp: Option<P>): (r: Result<P>)
    ensures r.Ok? <==> resp.Some?
    ensures r.Ok? ==> Some(r.value) == resp
  {
    if resp.Some? then Ok(resp.value) else Err
  }

  /** Polling a future whose response is recorded consumes the response and resolves to its
      Outcome; nothing else in the broker changes. */
  lemma PollRecorded<P, W>(s: State<P, W>, srv: SrvId, id: ReqId, w: W)
    requires id in s.responses
    ensures PollRequest(s, Request(srv, Some(id)), w)
         == (s.(responses := s.responses - {id}), Ready(Outcome(s.responses[id])))
  {
  }

  /** `take_request` returns the request with the smallest identifier in the queue, which is
      the one posted earliest. */
  lemma TakeRequestReturnsOldest<P, W>(s: State<P, W>, srv: SrvId)
    requires Valid(s) && srv in s.requests && s.requests[srv] != []
    ensures TakeRequest(s, srv).1.Some?
    ensures forall i :: 0 <= i < |s.requests[srv]| ==>
      var oldest := TakeRequest(s, srv).1.value.0;
      s.requests[srv][i].0 == oldest || oldest.Before(s.requests[srv][i].0)
  {
    var q := s.requests[srv];
    assert Ordered(q, s.nextReqId);
  }

  /** Two requests posted to the same service get distinct identifiers and are taken in the
      order they were posted. */
  lemma PostedTwiceTakenInOrder<P, W>(s: State<P, W>, srv: SrvId, p1: P, p2: P)
    requires srv in s.requests && s.requests[srv] == []
    ensures
      var (s1, o1) := PostRequest(s, srv, p1);
      var (s2, o2) := PostRequest(s1, srv, p2);
      var (s3, t1) := TakeRequest(s2, srv);
      var (s4, t2) := TakeRequest(s3, srv);
      && o1.Some? && o2.Some? && o1.value != o2.value
      && t1 == Some((o1.value, p1)) && t2 == Some((o2.value, p2))
      && TakeRequest(s4, srv).1 == None
  {
    var (s1, o1) := PostRequest(s, srv, p1);
    var (s2, o2) := PostRequest(s1, srv, p2);
    assert s2.requests[srv] == [(o2.value, p2), (o1.value, p1)];
  }

  // ---------------------------------------------------------------------------------------
  // Identifier allocation over arbitrary interleavings of the six operations.

  /** One call of a `MessageQueues` operation, with its arguments. */
  datatype Op<P, W> =
    | RegisterOp
    | UnregisterOp(srv: SrvId)
    | PostOp(srv: SrvId, payload: P)
    | TakeOp(srv: SrvId)
    | SetResponseOp(id: ReqId, resp: Option<P>)
    | CheckOp(srv: SrvId, id: ReqId, waker: W)

  /** What one call returned; `Panicked` is `take_request` on an unknown service. */
  datatype Output<P, W> =
    | Registered(srvId: SrvId)
    | Unregistered
    | Posted(optReqId: Option<ReqId>)
    | Taken(optEntry: Option<Entry<P>>)
    | Answered(woken: Option<W>)
    | Checked(result: Result<Option<P>>)
    | Panicked

  /** Performs one call. Only `register` and a successful `post_request` move a counter,
      each by one, and they return the counter's value before the move. */
  function Step<P, W>(s: State<P, W>, op: Op<P, W>): (r: (State<P, W>, Output<P, W>))
    ensures r.1.Registered? <==> op.RegisterOp?
    ensures r.1.Registered? ==> r.1.srvId == s.nextSrvId && r.0.nextSrvId == s.nextSrvId.Next()
    ensures !r.1.Registered? ==> r.0.nextSrvId == s.nextSrvId
    ensures r.1.Posted? && r.1.optReqId.Some? ==>
      r.1.optReqId.value == s.nextReqId && r.0.nextReqId == s.nextReqId.Next()
    ensures !(r.1.Posted? && r.1.optReqId.Some?) ==> r.0.nextReqId == s.nextReqId
    ensures r.1.Panicked? <==> op.TakeOp? && op.srv !in s.requests
  {
    match op
    case RegisterOp =>
      var (s', id) := Register(s);
      (s', Registered(id))
    case UnregisterOp(srv) =>
      (Unregister(s, srv), Unregistered)
    case PostOp(srv, p) =>
      var (s', opt) := PostRequest(s, srv, p);
      (s', Posted(opt))
    case TakeOp(srv) =>
      if srv in s.requests then
        var (s', next) := TakeRequest(s, srv);
        (s', Taken(next))
      else
        (s, Panicked)
    case SetResponseOp(id, resp) =>
      var (s', woken) := SetResponse(s, id, resp);
      (s', Answered(woken))
    case CheckOp(srv, id, w) =>
      var (s', c) := CheckResponse(s, srv, id, w);
      (s', Checked(c))
  }

  /** Performs the calls in order; a panic ends the run. */
  function Run<P, W>(s: State<P, W>, ops: seq<Op<P, W>>): (r: (State<P, W>, seq<Output<P, W>>))
    decreases |ops|
  {
    if ops == [] then
      (s, [])
    else
      var (s1, out) := Step(s, ops[0]);
      if out.Panicked? then
        (s1, [out])
      else
        var (s2, outs) := Run(s1, ops[1..]);
        (s2, [out] + outs)
  }

  /** The service identifiers `register` returned during a run, in order. */
  function ServiceIds<P, W>(outs: seq<Output<P, W>>): seq<SrvId> {
    if outs == [] then []
    else (if outs[0].Registered? then [outs[0].srvId] else []) + ServiceIds(outs[1..])
  }

  /** The request identifiers `post_request` allocated during a run, in order. */
  function RequestIds<P, W>(outs: seq<Output<P, W>>): seq<ReqId> {
    if outs == [] then []
    else (if outs[0].Posted? && outs[0].optReqId.Some? then [outs[0].optReqId.value] else [])
         + RequestIds(outs[1..])
  }

  /** Prepending at most one identifier from `[lo, mid)` to a strictly increasing sequence of
      identifiers from `[mid, hi)` gives a strictly increasing sequence from `[lo, hi)`. */
  lemma PrependIncreasing<T>(head: seq<T>, tail: seq<T>, index: T -> int, lo: int, mid: int, hi: int)
    requires |head| <= 1 && lo <= mid <= hi
    requires forall i :: 0 <= i < |head| ==> lo <= index(head[i]) < mid
    requires forall i :: 0 <= i < |tail| ==> mid <= index(tail[i]) < hi
    requires forall i, j :: 0 <= i < j < |tail| ==> index(tail[i]) < index(tail[j])
    ensures forall i :: 0 <= i < |head + tail| ==> lo <= index((head + tail)[i]) < hi
    ensures forall i, j :: 0 <= i < j < |head + tail| ==> index((head + tail)[i]) < index((head + tail)[j])
  {
    var ids := head + tail;
    forall i | 0 <= i < |ids| ensures lo <= index(ids[i]) < hi {
      if i >= |head| {
        assert ids[i] == tail[i - |head|];
      }
    }
    forall i, j | 0 <= i < j < |ids| ensures index(ids[i]) < index(ids[j]) {
      if i >= |head| {
        assert ids[i] == tail[i - |head|] && ids[j] == tail[j - |head|];
      } else {
        assert ids[j] == tail[j - 1];
      }
    }
  }

  /** Over any run the service counter only grows, and the service identifiers handed out
      are strictly increasing (so pairwise distinct) and lie between the counter's values
      before and after the run. */
  lemma {:induction false} ServiceIdsIncrease<P, W>(s: State<P, W>, ops: seq<Op<P, W>>)
    ensures s.nextSrvId.index <= Run(s, ops).0.nextSrvId.index
    ensures forall i :: 0 <= i < |ServiceIds(Run(s, ops).1)| ==>
      s.nextSrvId.index <= ServiceIds(Run(s, ops).1)[i].index < Run(s, ops).0.nextSrvId.index
    ensures forall i, j :: 0 <= i < j < |ServiceIds(Run(s, ops).1)| ==>
      ServiceIds(Run(s, ops).1)[i].Before(ServiceIds(Run(s, ops).1)[j])
    decreases |ops|
  {
    if ops != [] {
      var (s1, out) := Step(s, ops[0]);
      if !out.Panicked? {
        ServiceIdsIncrease(s1, ops[1..]);
        var last := Run(s1, ops[1..]).0;
        var outs := Run(s1, ops[1..]).1;
        var all := [out] + outs;
        assert Run(s, ops) == (last, all);
        assert all[0] == out && all[1..] == outs;
        var head: seq<SrvId> := if out.Registered? then [out.srvId] else [];
        var tail := ServiceIds(outs);
        var ids := head + tail;
        assert ServiceIds(all) == ids;
        PrependIncreasing(head, tail, (x: SrvId) => x.index, s.nextSrvId.index, s1.nextSrvId.index, last.nextSrvId.index);
      } else {
        assert Run(s, ops) == (s1, [out]);
        assert ServiceIds([out]) == [];
      }
    }
  }

  /** Over any run the request counter only grows, and the request identifiers allocated
      are strictly increasing (so pairwise distinct) and lie between the counter's values
      before and after the run. */
  lemma {:induction false} RequestIdsIncrease<P, W>(s: State<P, W>, ops: seq<Op<P, W>>)
    ensures s.nextReqId.index <= Run(s, ops).0.nextReqId.index
    ensures forall i :: 0 <= i < |RequestIds(Run(s, ops).1)| ==>
      s.nextReqId.index <= RequestIds(Run(s, ops).1)[i].index < Run(s, ops).0.nextReqId.index
    ensures forall i, j :: 0 <= i < j < |RequestIds(Run(s, ops).1)| ==>
      RequestIds(Run(s, ops).1)[i].Before(RequestIds(Run(s, ops).1)[j])
    decreases |ops|
  {
    if ops != [] {
      var (s1, out) := Step(s, ops[0]);
      if !out.Panicked? {
        RequestIdsIncrease(s1, ops[1..]);
        var last := Run(s1, ops[1..]).0;
        var outs := Run(s1, ops[1..]).1;
        var all := [out] + outs;
        assert Run(s, ops) == (last, all);
        assert all[0] == out && all[1..] == outs;
        var head: seq<ReqId> := if out.Posted? && out.optReqId.Some? then [out.optReqId.value] else [];
        var tail := RequestIds(outs);
        var ids := head + tail;
        assert RequestIds(all) == ids;
        PrependIncreasing(head, tail, (x: ReqId) => x.index, s.nextReqId.index, s1.nextReqId.index, last.nextReqId.index);
      } else {
        assert Run(s, ops) == (s1, [out]);
        assert RequestIds([out]) == [];
      }
    }
  }

  /** Starting from a valid state, no service identifier handed out during a run was
      registered at the start. */
  lemma IssuedServicesAreNew<P, W>(s: State<P, W>, ops: seq<Op<P, W>>)
    requires Valid(s)
    ensures forall i :: 0 <= i < |ServiceIds(Run(s, ops).1)| ==> ServiceIds(Run(s, ops).1)[i] !in s.requests
  {
    ServiceIdsIncrease(s, ops);
  }

  // ---------------------------------------------------------------------------------------
  // Destructive reads and the waker table.

  /** Once a response is recorded, the next check sees it and removes it; the check after
      that can no longer see it and is pending (live service) or failed. */
  lemma ResponseObservedOnce<P, W>(s: State<P, W>, srv: SrvId, id: ReqId, resp: Option<P>, w1: W, w2: W)
    ensures
      var s1 := SetResponse(s, id, resp).0;
      var (s2, c1) := CheckResponse(s1, srv, id, w1);
      var (s3, c2) := CheckResponse(s2, srv, id, w2);
      && c1 == (if resp.Some? then Ok(resp) else Err)
      && c2 == (if srv in s.requests then Ok(None) else Err)
  {
  }

  /** Polling a pending request twice leaves only the later waker parked, and answering the
      request then wakes that one. */
  lemma LastWakerWins<P, W>(s: State<P, W>, srv: SrvId, id: ReqId, w1: W, w2: W, resp: Option<P>)
    requires srv in s.requests && id !in s.responses
    ensures
      var (s1, c1) := CheckResponse(s, srv, id, w1);
      var (s2, c2) := CheckResponse(s1, srv, id, w2);
      && c1 == Ok(None) && c2 == Ok(None)
      && s2.wakers[id] == w2
      && SetResponse(s2, id, resp).1 == Some(w2)
  {
  }

  // ---------------------------------------------------------------------------------------
  // What a caller's future resolves to.

  /** A request to a service that is not registered fails on its first poll, without
      parking a waker and without changing the broker. */
  lemma MissingServiceFailsAtOnce<P, W>(s: State<P, W>, srv: SrvId, p: P, w: W)
    requires srv !in s.requests
    ensures SendRequest(s, srv, p) == (s, Request(srv, None))
    ensures PollRequest(s, Request(srv, None), w) == (s, Ready(Err))
  {
  }

  /** A request still unanswered when its service unregisters resolves to failure. */
  lemma DeregisteredRequestFails<P, W>(s: State<P, W>, srv: SrvId, p: P, w: W)
    requires Valid(s) && srv in s.requests
    ensures
      var (s1, req) := SendRequest(s, srv, p);
      var s2 := Unregister(s1, srv);
      PollRequest(s2, req, w) == (s2, Ready(Err))
  {
    Invariants.PostRequestKeepsValid(s, srv, p);
  }

  /** Running the handler over one more request extends its answers by the handler's reply in
      the state reached after the earlier ones. */
  lemma {:induction false} HandleSnoc<P, H>(items: seq<Entry<P>>, e: Entry<P>, f: (H, P) -> (H, Option<P>), h: H)
    ensures Serving.Handle(items + [e], f, h)
         == (Serving.Handle(items, f, h).0 + [(e.0, f(Serving.Handle(items, f, h).1, e.1).1)],
             f(Serving.Handle(items, f, h).1, e.1).0)
  {
    var before := Serving.Handle(items, f, h);
    var last := f(before.1, e.1);
    if items == [] {
      assert items + [e] == [e] && [e][1..] == [];
      assert Serving.Handle([], f, last.0) == ([], last.0);
      assert [(e.0, last.1)] + [] == [] + [(e.0, last.1)];
    } else {
      var step := f(h, items[0].1);
      assert (items + [e])[0] == items[0];
      assert (items + [e])[1..] == items[1..] + [e];
      HandleSnoc(items[1..], e, f, step.0);
      var rest := Serving.Handle(items[1..], f, step.0);
      assert before == ([(items[0].0, step.1)] + rest.0, rest.1);
      assert before.0 + [(e.0, last.1)] == [(items[0].0, step.1)] + (rest.0 + [(e.0, last.1)]);
    }
  }

  /** The next serve pass records, under a freshly posted request, the handler's reply given
      in the state reached after the requests queued before it. */
  lemma ServeRecordsReply<P, W, H>(s: State<P, W>, srv: SrvId, p: P, f: (H, P) -> (H, Option<P>), h: H)
    requires Valid(s) && srv in s.requests
    ensures
      var s1 := PostRequest(s, srv, p).0;
      var before := Serving.Handle(Fifo.Arrivals(s.requests[srv]), f, h).1;
      var served := ServeRequests(s1, srv, f, h).0;
      && s.nextReqId in served.responses
      && served.responses[s.nextReqId] == f(before, p).1
  {
    var id := s.nextReqId;
    var s1 := PostRequest(s, srv, p).0;
    Invariants.PostRequestKeepsValid(s, srv, p);
    var older := Fifo.Arrivals(s.requests[srv]);
    var items := Fifo.Arrivals(s1.requests[srv]);
    assert items == older + [(id, p)];
    HandleSnoc(older, (id, p), f, h);
    var answers := Serving.Handle(items, f, h).0;
    var before := Serving.Handle(older, f, h).1;
    assert answers[|answers| - 1] == (id, f(before, p).1);
    Serving.ServeAnswers(s1, srv, f, h);
    Serving.OrderedArrivalsDistinct(s1.requests[srv], s1.nextReqId);
    assert Distinct(answers);
    Serving.RecordedAt(s1.responses, answers, |answers| - 1);
  }

  /** A request to a live service is answered by the next serve pass with the handler's
      reply, given in the handler state reached after the requests queued before it. The
      first poll afterwards returns that reply; a second poll cannot see it again and is
      pending, with its waker parked. */
  lemma AnsweredExactlyOnce<P, W, H>(s: State<P, W>, srv: SrvId, p: P, f: (H, P) -> (H, Option<P>), h: H, w1: W, w2: W)
    requires Valid(s) && srv in s.requests
    ensures
      var (s1, req) := SendRequest(s, srv, p);
      var before := Serving.Handle(Fifo.Arrivals(s.requests[srv]), f, h).1;
      var s2 := ServeRequests(s1, srv, f, h).0;
      var (s3, first) := PollRequest(s2, req, w1);
      var (s4, second) := PollRequest(s3, req, w2);
      && req.optReqId == Some(s.nextReqId)
      && first == Ready(Outcome(f(before, p).1))
      && second == Pending
      && s4.wakers == s3.wakers[s.nextReqId := w2]
  {
    ServeRecordsReply(s, srv, p, f, h);
  }

  /** The handler run over two requests: the second reply is computed in the state the
      first one left. */
  lemma HandleTwo<P, H>(e1: Entry<P>, e2: Entry<P>, f: (H, P) -> (H, Option<P>), h: H)
    ensures Serving.Handle([e1, e2], f, h)
         == ([(e1.0, f(h, e1.1).1), (e2.0, f(f(h, e1.1).0, e2.1).1)], f(f(h, e1.1).0, e2.1).0)
  {
    var first := f(h, e1.1);
    var second := f(first.0, e2.1);
    HandleSnoc([], e1, f, h);
    HandleSnoc([e1], e2, f, h);
    assert [] + [e1] == [e1] && [e1] + [e2] == [e1, e2];
    assert Serving.Handle<P, H>([], f, h) == ([], h);
    assert [] + [(e1.0, first.1)] == [(e1.0, first.1)];
    assert Serving.Handle([e1], f, h) == ([(e1.0, first.1)], first.0);
    assert [(e1.0, first.1)] + [(e2.0, second.1)] == [(e1.0, first.1), (e2.0, second.1)];
  }

  /** Two requests posted to a freshly registered service wait in posting order. */
  lemma FreshServiceQueue<P, W>(s: State<P, W>, p1: P, p2: P)
    ensures
      var srv := Register(s).1;
      var sent1 := SendRequest(Register(s).0, srv, p1);
      var sent2 := SendRequest(sent1.0, srv, p2);
      && sent1.1.optReqId == Some(s.nextReqId)
      && sent2.1.optReqId == Some(s.nextReqId.Next())
      && srv in sent2.0.requests
      && Fifo.Arrivals(sent2.0.requests[srv]) == [(s.nextReqId, p1), (s.nextReqId.Next(), p2)]
      && sent2.0.responses == s.responses
  {
    assert Fifo.Arrivals<Entry<P>>([]) == [];
  }

  /** Serving two requests posted to a fresh service handles them in posting order: the
      second reply is computed in the handler state the first one left, and each future
      resolves to its own reply. */
  lemma ServeInPostingOrder<P, W, H>(s: State<P, W>, p1: P, p2: P, f: (H, P) -> (H, Option<P>), h: H, w: W)
    requires Valid(s)
    ensures
      var srv := Register(s).1;
      var sent1 := SendRequest(Register(s).0, srv, p1);
      var sent2 := SendRequest(sent1.0, srv, p2);
      var served := ServeRequests(sent2.0, srv, f, h);
      var first := f(h, p1);
      var second := f(first.0, p2);
      && sent1.1.optReqId.Some? && sent2.1.optReqId.Some?
      && sent1.1.optReqId.value.Before(sent2.1.optReqId.value)
      && served.1 == second.0
      && PollRequest(served.0, sent1.1, w).1 == Ready(Outcome(first.1))
      && PollRequest(served.0, sent2.1, w).1 == Ready(Outcome(second.1))
  {
    var srv := Register(s).1;
    var sent1 := SendRequest(Register(s).0, srv, p1);
    var sent2 := SendRequest(sent1.0, srv, p2);
    var id1, id2 := sent1.1.optReqId.value, sent2.1.optReqId.value;
    var e1, e2 := (id1, p1), (id2, p2);
    FreshServiceQueue(s, p1, p2);
    var answers := [(id1, f(h, p1).1), (id2, f(f(h, p1).0, p2).1)];
    HandleTwo(e1, e2, f, h);
    Serving.ServeAnswers(sent2.0, srv, f, h);
    assert Distinct(answers);
    Serving.RecordedAt(sent2.0.responses, answers, 0);
    Serving.RecordedAt(sent2.0.responses, answers, 1);
  }
}
