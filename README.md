# async-call broker, modelled in Dafny

`async-call` lets tasks in one process call each other's services asynchronously through a
single broker, `MessageQueues` in `src/lib.rs`. A service registers and gets a fresh service
identifier. A caller posts a payload to that identifier and gets back a future for the request
it created. The service drains its queue with `serve_requests`: the handler's answer to each
request is recorded, and the task waiting on it is woken. The caller's future polls the broker:
it either receives the response exactly once, or parks its waker and stays pending, or fails.
Failure covers a service that is gone, a service that never existed, and a handler that did not
recognise the payload.

The model has two layers:

- **Values** (`queues.dfy`). `Queues.State` holds the broker's five fields. Each broker
  operation is a function from a state to `(new state, result)`, and its contract says what the
  operation does to every field.
- **Objects** (`broker.dfy`). `Broker.MessageQueues` is a class with the same five fields. Its
  methods update the fields in place as the Rust methods do. Each method's contract is exactly
  the corresponding `Queues` function applied to the object's snapshot. `serve_requests` keeps
  its `while let Some(..) = take_request(..)` loop there.

Properties are proved about the value layer:

- `invariants.dfy`: every operation keeps the broker invariant `Queues.Valid`.
- `serving.dfy`: what a serve pass does, independently of its loop.
- `properties.dfy`: properties relating several calls. These are identifier freshness over any
  sequence of calls, FIFO service, destructive reads of responses, and what a future resolves to.

The Rust `VecDeque` is a `seq` whose index 0 is the front. `post_request` pushes at the front and
`take_request` pops the back, as in the code. `Fifo.Arrivals` reads a queue in arrival order.
Pushing at the front and popping at the back serves requests in posting order; the model keeps
the code's ends.

Parts of the source that are modelled differently:

- **Payloads.** `Box<dyn Any + Send>` payloads are a type parameter `P`.
- **Wakers.** Wakers are a type parameter `W`. Waking a waker is modelled by handing it back:
  `SetResponse` returns the waker it removed, and `ServeRequests` returns the wakers it woke, in
  order.
- **Handler.** The `FnMut` handler is a function `(H, P) -> (H, Option<P>)`, so state the
  handler carries from one request to the next is explicit.
- **Panic.** The panic of `take_request` on an unknown service becomes its precondition. The
  call-sequence model `Properties.Run` records it as a `Panicked` output that ends the run.

## Model

| member | source | states |
|---|---|---|
| Ids.SrvId.Next | src/lib.rs:15-19 | the next service identifier comes strictly after this one, with no identifier in between |
| Ids.ReqId.Next | src/lib.rs:24-28 | the next request identifier comes strictly after this one, with no identifier in between |
| Fifo.Arrivals | src/lib.rs:32 | a queue read in arrival order: same length, element i is the i-th from the back |
| Fifo.PushFrontAppends | src/lib.rs:61 | pushing at the front of the deque appends to the arrival order |
| Fifo.PopBackTakesOldest | src/lib.rs:70 | popping the back yields the earliest arrival and leaves the later ones in order |
| Queues.New | src/lib.rs:40-48 | a new broker has no services, responses or wakers, both counters are zero, and it satisfies the invariant |
| Queues.Register | src/lib.rs:49-54 | returns the service counter, installs an empty queue under it, advances that counter by one and changes nothing else |
| Queues.Unregister | src/lib.rs:55-57 | removes exactly that service's queue, keeps every other queue and field, and is a no-op for an unknown service |
| Queues.PostRequest | src/lib.rs:58-67 | for a registered service: returns the request counter, advances it by one and adds the request as the newest arrival of that queue only; for any other identifier: returns None and changes nothing |
| Queues.TakeRequest | src/lib.rs:68-74 | requires a registered service (the source panics otherwise); an empty queue gives None and no change; otherwise it returns the earliest arrival and removes it from that queue only |
| Queues.SetResponse | src/lib.rs:75-80 | records the response under the id, removes the parked waker and returns it (Some iff one was parked), and leaves queues and counters alone |
| Queues.CheckResponse | src/lib.rs:81-103 | a recorded Some is removed and returned as Ok; a recorded None is removed and gives Err; with nothing recorded, a live service parks the waker (replacing any earlier one) and gives Ok(None), and a missing service gives Err with no change; the id never has a response afterwards |
| Queues.ServeRequests | src/lib.rs:117-124 | a serve pass empties that service's queue, leaves every other queue and both counters unchanged, and wakes at most one waker per drained request |
| Queues.SendRequest | src/lib.rs:110-115 | posts the payload and returns a future for the target service whose id is None iff the service is not registered, and otherwise the allocated counter value |
| Queues.ToPoll | src/lib.rs:189-193 | Ok(Some(p)) becomes Ready(Ok(p)), Ok(None) becomes Pending, and Err becomes Ready(Err), each in both directions |
| Queues.PollRequest | src/lib.rs:187-197 | a future without an id is Ready(Err) with no change; Pending iff nothing is recorded and the service is alive, in which case only the waker under the id changes; a Ready poll never touches the wakers; Ready(Ok) iff a Some response is recorded, and carries it; any recorded response under the id is consumed; queues and counters never change |
| Invariants.NewIsValid | src/lib.rs:40-48 | a new broker satisfies the invariant |
| Invariants.RegisterKeepsValid | src/lib.rs:49-54 | register returns an identifier not already registered, and keeps the invariant |
| Invariants.UnregisterKeepsValid | src/lib.rs:55-57 | unregister keeps the invariant |
| Invariants.PostRequestKeepsValid | src/lib.rs:58-67 | an allocated request identifier has no response or waker and is in no queue; post_request keeps the invariant |
| Invariants.TakeRequestKeepsValid | src/lib.rs:68-74 | the popped id was allocated, has no response, and is in no queue afterwards; take_request keeps the invariant |
| Invariants.SetResponseKeepsValid | src/lib.rs:75-80 | answering an allocated request that is no longer queued keeps the invariant |
| Invariants.CheckResponseKeepsValid | src/lib.rs:81-103 | checking an allocated id keeps the invariant |
| Invariants.ServeRequestsKeepsValid | src/lib.rs:117-124 | a serve pass keeps the invariant |
| Invariants.SendRequestKeepsValid | src/lib.rs:110-115 | send_request keeps the invariant, and the id of the future it returns is allocated |
| Invariants.PollRequestKeepsValid | src/lib.rs:187-197 | polling a future whose id was allocated keeps the invariant |
| Serving.Handle | src/lib.rs:121-122 | the handler run over requests in order gives one answer per request, under that request's id |
| Serving.Record | src/lib.rs:76 | recording a list of answers adds exactly their ids to the table's keys and leaves other entries alone |
| Serving.RecordedAt | src/lib.rs:76 | with distinct ids, each recorded answer is what the table holds for its request |
| Serving.OrderedArrivalsDistinct | src/lib.rs:58-67 | a queue that post_request built has no identifier twice |
| Serving.ServeAnswers | src/lib.rs:117-124 | a serve pass records the handler's answers to the queued requests taken oldest first, and ends in the handler state after the last of them |
| Serving.ServeStep | src/lib.rs:121-123 | one loop turn: pop the back, record the handler's answer, serve the rest, and prepend the woken waker |
| Serving.ServeTurn | src/lib.rs:121-123 | one loop turn, over the values take_request and set_response returned: the whole pass is the woken waker followed by the pass over the rest, whose queue is strictly shorter |
| Serving.ServeRemovesWakers | src/lib.rs:77 | a serve pass removes the wakers of exactly the drained requests |
| Serving.ServeWakes | src/lib.rs:77-79 | a serve pass wakes exactly the wakers parked under the drained requests, in the order the requests were answered |
| Properties.PollRecorded | src/lib.rs:87-91 | polling a future whose response is recorded removes that response, changes nothing else, and is Ready(Ok(p)) for a recorded Some(p) and Ready(Err) for a recorded None |
| Properties.TakeRequestReturnsOldest | src/lib.rs:68-74 | in a valid broker, the popped request has the smallest identifier in its queue |
| Properties.PostedTwiceTakenInOrder | src/lib.rs:58-74 | two posts to an empty queue get distinct ids and are taken in posting order, after which the queue is empty |
| Properties.Step | src/lib.rs:49-103 | one broker call: only register and a successful post move a counter, each by one, and they return the counter's old value; a panic happens exactly for take_request on an unknown service |
| Properties.ServiceIdsIncrease | src/lib.rs:49-54 | over any sequence of calls the service counter never decreases, and the service ids handed out are strictly increasing and lie between the counter's start and end values |
| Properties.RequestIdsIncrease | src/lib.rs:58-67 | over any sequence of calls the request counter never decreases, and the request ids allocated are strictly increasing and lie between the counter's start and end values |
| Properties.IssuedServicesAreNew | src/lib.rs:49-54 | from a valid broker, no service id handed out during a run was already registered at the start |
| Properties.ResponseObservedOnce | src/lib.rs:75-103 | after a response is recorded, the first check returns it and the next one no longer sees it: pending for a live service, Err otherwise |
| Properties.LastWakerWins | src/lib.rs:75-103 | polling a pending request twice leaves only the later waker parked, and answering then wakes that one |
| Properties.MissingServiceFailsAtOnce | src/lib.rs:110-115 | a request to an unregistered service allocates nothing, and its first poll fails without changing the broker |
| Properties.DeregisteredRequestFails | src/lib.rs:55-57 | a request still unanswered when its service unregisters resolves to Err when polled |
| Properties.ServeRecordsReply | src/lib.rs:117-124 | the next serve pass records, under a freshly posted request, the handler's reply in the state reached after the earlier requests |
| Properties.AnsweredExactlyOnce | src/lib.rs:187-197 | after it is served, a request's first poll is Ready with the handler's reply and the second is Pending with its waker parked |
| Properties.FreshServiceQueue | src/lib.rs:49-67 | two requests posted to a newly registered service get consecutive ids and wait in posting order |
| Properties.ServeInPostingOrder | src/lib.rs:117-124 | two requests to a fresh service are answered in posting order, the second in the handler state the first left, and each future resolves to its own reply |
| Broker.MessageQueues.constructor | src/lib.rs:40-48 | the new object's fields are Queues.New, so it satisfies the invariant |
| Broker.MessageQueues.Register | src/lib.rs:49-54 | the in-place update gives exactly Queues.Register's new state and result |
| Broker.MessageQueues.Unregister | src/lib.rs:55-57 | the in-place update gives exactly Queues.Unregister's new state |
| Broker.MessageQueues.PostRequest | src/lib.rs:58-67 | the in-place update gives exactly Queues.PostRequest's new state and result |
| Broker.MessageQueues.TakeRequest | src/lib.rs:68-74 | the in-place update gives exactly Queues.TakeRequest's new state and result, for a registered service only |
| Broker.MessageQueues.SetResponse | src/lib.rs:75-80 | the in-place update gives exactly Queues.SetResponse's new state and woken waker |
| Broker.MessageQueues.CheckResponse | src/lib.rs:81-103 | the in-place update gives exactly Queues.CheckResponse's new state and result |
| Broker.MessageQueues.SendRequest | src/lib.rs:110-115 | the in-place update gives exactly Queues.SendRequest's new state and future |
| Broker.MessageQueues.ServeRequests | src/lib.rs:117-124 | the take-and-answer loop ends in exactly Queues.ServeRequests's state, handler state and woken wakers |
| Broker.MessageQueues.PollRequest | src/lib.rs:187-197 | the in-place update gives exactly Queues.PollRequest's new state and poll result |
| Findings.ParkedWakerOrphaned | src/lib.rs:55-57 | a request polled once before its service unregisters keeps its waker parked under an id with no response, in no queue |
| Findings.OrphanedWakerNeverServed | src/lib.rs:117-124 | a waker parked under an id in no queue survives a serve pass of any service |
| Findings.UnregisterWaking | src/lib.rs:55-57 | corrected unregister: drops the queue and removes the wakers of exactly its requests, changing nothing else |
| Findings.UnregisterWakingKeepsValid | src/lib.rs:55-57 | the corrected unregister keeps the invariant |
| Findings.UnregisterWakingFails | src/lib.rs:55-57 | after the corrected unregister, every discarded request's parked waker was handed back, none remains, and its future's next poll is Ready(Err) with no change |

## Left out

- The process-wide `lazy_static` mutex and the lock-taking wrappers (src/lib.rs:106-108, 150-172). They only serialise calls, so each broker method is modelled as one atomic step on an explicit state or object. Concurrency and the interleaving of tasks are not modelled beyond that.
- Actually waking a task with `Waker::wake`, and async scheduling. The model returns the woken waker instead.
- `Box<dyn Any + Send>` and downcasting. Payloads are a type parameter `P`, so a downcast mismatch cannot arise.
- `ServiceRegistration`, its `Drop` and `register_service` (src/lib.rs:126-148). Deregistration is modelled as an explicit `Unregister` call, and the handle itself is not modelled.
- The `usize` counters in `SrvId::next` and `ReqId::next`. They are unbounded `nat`s, so overflow is not modelled.
- The `serve_requests` handler. It is a pure function threading its own state, so side effects on other state and panics inside the handler are not modelled.
- The demo binary is not part of this model.
- Other calls in the middle of a serve pass. In the source each turn of `serve_requests` takes the lock separately for `take_request` and `set_response` and runs the handler unlocked (src/lib.rs:121-122, 155-163), so a request another task posts during a pass is served in that same pass. The model runs the whole pass with no other call between its turns.
- Invariants.SetResponseKeepsValid: requires the id to be allocated and no longer queued. `set_response` is private and is only called by `serve_requests` with an id it has just popped. On an arbitrary id the invariant would not be kept.
- Invariants.CheckResponseKeepsValid: requires the id to be allocated. `check_response` is only reached from `Request::poll` with the id `post_request` returned.
- Invariants.PollRequestKeepsValid: requires the future's id to be allocated, which holds for every future `send_request` returns (Invariants.SendRequestKeepsValid).

## Findings

| source | as written | input that shows it | evidently intended | confidence | as-written member | corrected member |
|---|---|---|---|---|---|---|
| src/lib.rs:55-57 | `unregister` drops the service's queue but leaves the wakers parked under its pending requests; none of them can be woken again, because only `set_response` on a popped request wakes a waker | register a service; send a request; poll it once (Pending, waker parked); unregister the service: the waker stays parked under an id with no response that waits in no queue, so the polling task never runs again | a request unanswered when its service leaves resolves to failure: its parked waker is woken and its next poll is Ready(Err) | high (proved about the model; not executed) | Findings.ParkedWakerOrphaned, Findings.OrphanedWakerNeverServed | Findings.UnregisterWaking, Findings.UnregisterWakingFails |

Queues.Unregister and Broker.MessageQueues.Unregister still model the code as written. Findings.UnregisterWaking is the corrected operation.
