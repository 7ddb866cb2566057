/** The broker as the source runs it: one `MessageQueues` object whose methods update its
    maps and counters in place. The process-wide lock around it only serialises calls, so
    here each method is one atomic step on an explicit object. Every method is proved to
    produce exactly the state and result of the corresponding function in module Queues. */
module Broker {
  import opened Ids
  import opened Wrappers
  import opened Queues
  import Serving

  class MessageQueues<P, W> {
    var requests: map<SrvId, seq<Entry<P>>>
    var responses: map<ReqId, Option<P>>
    var wakers: map<ReqId, W>
    var nextSrvId: SrvId
    var nextReqId: ReqId

    /** The object's fields as a `Queues.State` value. */
    function Snapshot(): State<P, W>
      reads this
    {
      State(requests, responses, wakers, nextSrvId, nextReqId)
    }

    /** `MessageQueues::new`: no services, no responses, no wakers, counters at 0. */
    constructor ()
      ensures Snapshot() == Queues.New()
      ensures Queues.Valid(Snapshot())
    {
      requests := map[];
      responses := map[];
      wakers := map[];
      nextSrvId := SrvId(0);
      nextReqId := ReqId(0);
    }

    method Register() returns (id: SrvId)
      modifies this
      ensures (Snapshot(), id) == Queues.Register(old(Snapshot()))
    {
      id := nextSrvId;
      requests := requests[id := []];
      nextSrvId := nextSrvId.Next();
    }

    method Unregister(srv: SrvId)
      modifies this
      ensures Snapshot() == Queues.Unregister(old(Snapshot()), srv)
    {
      requests := requests - {srv};
    }

    method PostRequest(srv: SrvId, request: P) returns (id: Option<ReqId>)
      modifies this
      ensures (Snapshot(), id) == Queues.PostRequest(old(Snapshot()), srv, request)
    {
      if srv in requests {
        var reqId := nextReqId;
        requests := requests[srv := [(reqId, request)] + requests[srv]];
        nextReqId := nextReqId.Next();
        id := Some(reqId);
      } else {
        id := None;
      }
    }

    /** Panics (here: may not be called) when `srv` is not registered. */
    method TakeRequest(srv: SrvId) returns (next: Option<Entry<P>>)
      requires srv in requests
      modifies this
      ensures (Snapshot(), next) == Queues.TakeRequest(old(Snapshot()), srv)
    {
      var queue := requests[srv];
      if queue == [] {
        next := None;
      } else {
        next := Some(queue[|queue| - 1]);
        requests := requests[srv := queue[..|queue| - 1]];
      }
    }

    /** Returns the waker it wakes, if one was parked under `id`. */
    method SetResponse(id: ReqId, resp: Option<P>) returns (woken: Option<W>)
      modifies this
      ensures (Snapshot(), woken) == Queues.SetResponse(old(Snapshot()), id, resp)
    {
      responses := responses[id := resp];
      if id in wakers {
        woken := Some(wakers[id]);
        wakers := wakers - {id};
      } else {
        woken := None;
        assert wakers - {id} == wakers;
      }
    }

    method CheckResponse(srv: SrvId, id: ReqId, waker: W) returns (result: Result<Option<P>>)
      modifies this
      ensures (Snapshot(), result) == Queues.CheckResponse(old(Snapshot()), srv, id, waker)
    {
      if id in responses {
        var recorded := responses[id];
        responses := responses - {id};
        match recorded
        case Some(resp) => result := Ok(Some(resp));
        case None => result := Err;
      } else if srv in requests {
        wakers := wakers[id := waker];
        result := Ok(None);
      } else {
        result := Err;
      }
    }

    /** `send_request`: posts the request and returns the future for its response. */
    method SendRequest(srv: SrvId, request: P) returns (req: Request)
      modifies this
      ensures (Snapshot(), req) == Queues.SendRequest(old(Snapshot()), srv, request)
    {
      var optReqId := PostRequest(srv, request);
      req := Request(srv, optReqId);
    }

    /** `serve_requests`: `while let Some((req_id, req)) = take_request(srv)` answering each
        request with the handler, which threads its own state. Returns the handler's final
        state and the wakers woken along the way. */
    method ServeRequests<H>(srv: SrvId, f: (H, P) -> (H, Option<P>), h: H) returns (h': H, woken: seq<W>)
      requires srv in requests
      modifies this
      ensures (Snapshot(), h', woken) == Queues.ServeRequests(old(Snapshot()), srv, f, h)
    {
      ghost var target := Queues.ServeRequests(Snapshot(), srv, f, h);
      h', woken := h, [];
      assert [] + target.2 == target.2;
      while true
        invariant srv in requests
        invariant Queues.ServeRequests(Snapshot(), srv, f, h').0 == target.0
        invariant Queues.ServeRequests(Snapshot(), srv, f, h').1 == target.1
        invariant woken + Queues.ServeRequests(Snapshot(), srv, f, h').2 == target.2
        decreases |requests[srv]|
      {
        ghost var before, hBefore, wokenBefore := Snapshot(), h', woken;
        var next := TakeRequest(srv);
        if next.None? {
          assert woken + [] == woken;
          break;
        }
        ghost var taken := Snapshot();
        var (reqId, request) := next.value;
        var answer := f(h', request);
        var w := SetResponse(reqId, answer.1);
        Serving.ServeTurn(before, srv, f, hBefore, (taken, next), (Snapshot(), w));
        Serving.ServeLoopTurn(Queues.ServeRequests(before, srv, f, hBefore),
          Queues.ServeRequests(Snapshot(), srv, f, answer.0), WokenList(w), wokenBefore, target);
        h' := answer.0;
        woken := woken + WokenList(w);
      }
    }

    /** `Request::poll` on this broker with the task's waker `waker`. */
    method PollRequest(req: Request, waker: W) returns (poll: Poll<Result<P>>)
      modifies this
      ensures (Snapshot(), poll) == Queues.PollRequest(old(Snapshot()), req, waker)
    {
      match req.optReqId
      case None =>
        poll := Ready(Err);
      case Some(id) =>
        var result := CheckResponse(req.srvId, id, waker);
        match result
        case Ok(Some(resp)) => poll := Ready(Ok(resp));
        case Ok(None) => poll := Pending;
        case Err => poll := Ready(Err);
    }
  }
}
