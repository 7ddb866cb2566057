/** Every broker operation keeps `Queues.Valid`. `set_response` and `check_response` are
    private in the source and are only reached with identifiers that `post_request`
    allocated (`serve_requests` answers popped requests, `Request::poll` checks its own id);
    their lemmas require exactly that. */
module Invariants {
  import opened Ids
  import opened Wrappers
  import opened Queues

  lemma NewIsValid<P, W>()
    ensures Valid(New<P, W>())
  {
  }

  /** The identifier `register` hands out is not registered yet. */
  lemma RegisterKeepsValid<P, W>(s: State<P, W>)
    requires Valid(s)
    ensures Register(s).1 !in s.requests
    ensures Valid(Register(s).0)
  {
    var (s', id) := Register(s);
    assert IdsOf<P>([]) == {};
    forall a, b | a in s'.requests && b in s'.requests && a != b
      ensures IdsOf(s'.requests[a]) !! IdsOf(s'.requests[b])
    {
    }
  }

  lemma UnregisterKeepsValid<P, W>(s: State<P, W>, srv: SrvId)
    requires Valid(s)
    ensures Valid(Unregister(s, srv))
  {
  }

  /** An allocated request identifier is fresh: it has no response, no waker and waits in
      no queue. */
  lemma PostRequestKeepsValid<P, W>(s: State<P, W>, srv: SrvId, p: P)
    requires Valid(s)
    ensures PostRequest(s, srv, p).1.Some? ==>
      var id := PostRequest(s, srv, p).1.value;
      id !in s.responses && id !in s.wakers && Unqueued(s, id)
    ensures Valid(PostRequest(s, srv, p).0)
  {
    if srv in s.requests {
      var id := s.nextReqId;
      var q := s.requests[srv];
      var s' := PostRequest(s, srv, p).0;
      var q' := [(id, p)] + q;
      assert s'.requests[srv] == q';
      IdsOfPushFront((id, p), q);
      assert Unqueued(s, id);
      assert Ordered(q', s'.nextReqId) by {
        forall i, j | 0 <= i < j < |q'| ensures q'[j].0.Before(q'[i].0) {
          if i > 0 {
            assert q'[i] == q[i - 1] && q'[j] == q[j - 1];
          }
        }
      }
      forall other | other in s'.requests
        ensures Ordered(s'.requests[other], s'.nextReqId)
      {
      }
      forall a, b | a in s'.requests && b in s'.requests && a != b
        ensures IdsOf(s'.requests[a]) !! IdsOf(s'.requests[b])
      {
      }
    }
  }

  /** The popped request was allocated, has no recorded response, and after the pop waits in
      no queue at all. */
  lemma TakeRequestKeepsValid<P, W>(s: State<P, W>, srv: SrvId)
    requires Valid(s) && srv in s.requests
    ensures TakeRequest(s, srv).1.Some? ==>
      var id := TakeRequest(s, srv).1.value.0;
      && id.Before(s.nextReqId)
      && id !in s.responses
      && Unqueued(TakeRequest(s, srv).0, id)
    ensures Valid(TakeRequest(s, srv).0)
  {
    var q := s.requests[srv];
    if q != [] {
      var (s', next) := TakeRequest(s, srv);
      var rest := q[..|q| - 1];
      var id := q[|q| - 1].0;
      assert next.value.0 == id;
      IdsOfPopBack(q);
      assert id in IdsOf(q);
      forall other | other in s'.requests ensures id !in IdsOf(s'.requests[other]) {
        if other != srv {
          assert IdsOf(s.requests[srv]) !! IdsOf(s.requests[other]);
        }
      }
      forall other | other in s'.requests
        ensures Ordered(s'.requests[other], s'.nextReqId)
      {
        if other == srv {
          assert Ordered(q, s.nextReqId);
        }
      }
      forall other | other in s'.requests
        ensures IdsOf(s'.requests[other]) !! s'.responses.Keys
      {
      }
      forall a, b | a in s'.requests && b in s'.requests && a != b
        ensures IdsOf(s'.requests[a]) !! IdsOf(s'.requests[b])
      {
      }
    }
  }

  /** Answering an allocated request that is no longer queued keeps the invariant. */
  lemma SetResponseKeepsValid<P, W>(s: State<P, W>, id: ReqId, resp: Option<P>)
    requires Valid(s) && id.Before(s.nextReqId) && Unqueued(s, id)
    ensures Valid(SetResponse(s, id, resp).0)
  {
    var s' := SetResponse(s, id, resp).0;
    forall srv | srv in s'.requests ensures IdsOf(s'.requests[srv]) !! s'.responses.Keys {
      assert IdsOf(s.requests[srv]) !! s.responses.Keys;
      assert id !in IdsOf(s.requests[srv]);
    }
  }

  lemma CheckResponseKeepsValid<P, W>(s: State<P, W>, srv: SrvId, id: ReqId, w: W)
    requires Valid(s) && id.Before(s.nextReqId)
    ensures Valid(CheckResponse(s, srv, id, w).0)
  {
    var s' := CheckResponse(s, srv, id, w).0;
    forall other | other in s'.requests ensures IdsOf(s'.requests[other]) !! s'.responses.Keys {
      assert IdsOf(s.requests[other]) !! s.responses.Keys;
    }
  }

  /** A serve pass keeps the invariant. */
  lemma {:induction false} ServeRequestsKeepsValid<P, W, H>(s: State<P, W>, srv: SrvId, f: (H, P) -> (H, Option<P>), h: H)
    requires Valid(s) && srv in s.requests
    ensures Valid(ServeRequests(s, srv, f, h).0)
    decreases |s.requests[srv]|
  {
    var (s1, next) := TakeRequest(s, srv);
    TakeRequestKeepsValid(s, srv);
    if next.Some? {
      var entry := next.value;
      var (h1, resp) := f(h, entry.1);
      var s2 := SetResponse(s1, entry.0, resp).0;
      SetResponseKeepsValid(s1, entry.0, resp);
      ServeRequestsKeepsValid(s2, srv, f, h1);
    }
  }

  lemma SendRequestKeepsValid<P, W>(s: State<P, W>, srv: SrvId, p: P)
    requires Valid(s)
    ensures Valid(SendRequest(s, srv, p).0)
    ensures SendRequest(s, srv, p).1.optReqId.Some? ==>
      SendRequest(s, srv, p).1.optReqId.value.Before(SendRequest(s, srv, p).0.nextReqId)
  {
    PostRequestKeepsValid(s, srv, p);
  }

  /** Polling a future whose identifier was allocated keeps the invariant. */
  lemma PollRequestKeepsValid<P, W>(s: State<P, W>, req: Request, w: W)
    requires Valid(s)
    requires req.optReqId.Some? ==> req.optReqId.value.Before(s.nextReqId)
    ensures Valid(PollRequest(s, req, w).0)
  {
    if req.optReqId.Some? {
      CheckResponseKeepsValid(s, req.srvId, req.optReqId.value, w);
    }
  }
}
