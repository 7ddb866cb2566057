/** `unregister` drops a service's queue but leaves the wakers of its pending requests parked.
    A future that was polled before the service left therefore waits for a wake-up that no
    call can deliver any more. This module shows that for the code as written, and proves the
    evidently intended behaviour of a variant that wakes those futures. */
module Findings {
  import opened Ids
  import opened Wrappers
  import opened Queues
  import Fifo
  import Serving

  /** As written: a request is sent to a live service and polled once, which parks its waker;
      then the service unregisters. The waker stays parked under an identifier that has no
      response and waits in no queue, so no serve pass can ever answer it. */
  lemma ParkedWakerOrphaned<P, W>(s: State<P, W>, srv: SrvId, p: P, w: W)
    requires Valid(s) && srv in s.requests
    ensures
      var (s1, req) := SendRequest(s, srv, p);
      var (s2, poll) := PollRequest(s1, req, w);
      var s3 := Unregister(s2, srv);
      var id := s.nextReqId;
      && req.optReqId == Some(id)
      && poll == Pending
      && srv !in s3.requests
      && id in s3.wakers && s3.wakers[id] == w
      && id !in s3.responses
      && Unqueued(s3, id)
  {
    var id := s.nextReqId;
    var s1 := SendRequest(s, srv, p).0;
    var s2 := PollRequest(s1, Request(srv, Some(id)), w).0;
    var s3 := Unregister(s2, srv);
    forall other | other in s3.requests ensures id !in IdsOf(s3.requests[other]) {
      assert s3.requests[other] == s.requests[other];
      assert forall k :: 0 <= k < |s.requests[other]| ==> s.requests[other][k].0.Before(id);
    }
  }

  /** As written: once orphaned, the waker survives a serve pass of any service. */
  lemma OrphanedWakerNeverServed<P, W, H>(s: State<P, W>, id: ReqId, srv: SrvId, f: (H, P) -> (H, Option<P>), h: H)
    requires srv in s.requests && id in s.wakers && Unqueued(s, id)
    ensures id in ServeRequests(s, srv, f, h).0.wakers
    ensures ServeRequests(s, srv, f, h).0.wakers[id] == s.wakers[id]
  {
    Serving.ServeRemovesWakers(s, srv, f, h);
  }

  /** Corrected: `unregister` that also removes and hands back the wakers parked under the
      requests it discards, in the order those requests were posted. */
  function UnregisterWaking<P, W>(s: State<P, W>, srv: SrvId): (r: (State<P, W>, seq<W>))
    ensures r.0.requests == s.requests - {srv}
    ensures r.0.responses == s.responses
    ensures r.0.nextSrvId == s.nextSrvId && r.0.nextReqId == s.nextReqId
    ensures srv !in s.requests ==> r == (s, [])
    ensures srv in s.requests ==> r.0.wakers == s.wakers - IdsOf(s.requests[srv])
  {
    if srv in s.requests then
      var q := s.requests[srv];
      (s.(requests := s.requests - {srv}, wakers := s.wakers - IdsOf(q)),
       Serving.Wakeups(s.wakers, Fifo.Arrivals(q)))
    else
      (s, [])
  }

  /** Corrected: the variant keeps the broker invariant, as `unregister` does. */
  lemma UnregisterWakingKeepsValid<P, W>(s: State<P, W>, srv: SrvId)
    requires Valid(s)
    ensures Valid(UnregisterWaking(s, srv).0)
  {
  }

  /** The wakeups of `items` include the waker parked under each of them. */
  lemma {:induction false} WakeupsInclude<P, W>(ws: map<ReqId, W>, items: seq<Entry<P>>, k: nat)
    requires k < |items| && items[k].0 in ws
    ensures ws[items[k].0] in Serving.Wakeups(ws, items)
    decreases k
  {
    if k > 0 {
      WakeupsInclude(ws, items[1..], k - 1);
    }
  }

  /** Corrected: every request discarded by the service's departure has its parked waker
      woken, no waker is left under it, and its future's next poll fails at once. */
  lemma UnregisterWakingFails<P, W>(s: State<P, W>, srv: SrvId, k: nat, w: W)
    requires Valid(s) && srv in s.requests && k < |s.requests[srv]|
    ensures
      var id := s.requests[srv][k].0;
      var (s1, woken) := UnregisterWaking(s, srv);
      && (id in s.wakers ==> s.wakers[id] in woken)
      && id !in s1.wakers
      && PollRequest(s1, Request(srv, Some(id)), w) == (s1, Ready(Err))
  {
    var q := s.requests[srv];
    var id := q[k].0;
    assert id in IdsOf(q);
    var items := Fifo.Arrivals(q);
    assert items[|q| - 1 - k] == q[k];
    if id in s.wakers {
      WakeupsInclude(s.wakers, items, |q| - 1 - k);
    }
    var s1 := UnregisterWaking(s, srv).0;
    assert s1.responses - {id} == s1.responses;
  }
}
