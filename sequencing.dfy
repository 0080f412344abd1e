/** Orders served one after another against an idealised backend that never
    fails: the cache slot holds a fixed quote (or nothing), and the counter
    behind `getNewID` returns its value plus one on every increment. This is
    where the handler's habit of incrementing on every request, whatever the
    quote, becomes visible across requests. */
module Sequencing {
  import opened Wrappers
  import opened Decimal
  import opened MomentoToken
  import opened ExchangeApi

  /** The backend state the handler reads: the cached quote and the id counter. */
  datatype Store = Store(quote: Option<Rate>, counter: int)

  /** One `/order` request and the wall-clock string at which it is evaluated. */
  datatype Request = Request(order: Order, now: string)

  /** How many increments a call trace issues. */
  function Increments(calls: seq<BackendCall>): (n: nat)
    ensures n <= |calls|
    ensures n == 0 <==> CacheIncrement !in calls
  {
    if calls == [] then 0
    else (if calls[0] == CacheIncrement then 1 else 0) + Increments(calls[1..])
  }

  /** The response the idealised cache gives to `get`. */
  function CacheResponse(store: Store): (r: CacheGetResponse)
    ensures GetCachedPrice(r) == Returned(store.quote)
  {
    match store.quote
    case Some(q) => Hit(q)
    case None => Miss
  }

  /** One request: the handler runs against the store, and the counter moves
      on by the increments the handler issued. */
  function Serve(store: Store, request: Request): (r: (Store, Execution))
    ensures r.0 == store.(counter := store.counter + 1)
    ensures r.1 == Evaluate(request.order, store.quote, Some(store.counter + 1), request.now)
  {
    var h := HandleOrder(request.order, CacheResponse(store), IncrementSuccess(store.counter + 1), request.now);
    (store.(counter := store.counter + Increments(h.calls)), h.outcome.execution)
  }

  /** Requests served in submission order. Each consumes exactly one counter
      value, and the i-th is evaluated with serial `counter + i + 1`. */
  function ServeAll(store: Store, requests: seq<Request>): (r: (Store, seq<Execution>))
    ensures r.0 == store.(counter := store.counter + |requests|)
    ensures |r.1| == |requests|
    ensures forall i :: 0 <= i < |requests| ==>
      r.1[i] == Evaluate(requests[i].order, store.quote, Some(store.counter + i + 1), requests[i].now)
    decreases |requests|
  {
    if requests == [] then (store, [])
    else
      var first := Serve(store, requests[0]);
      var rest := ServeAll(first.0, requests[1..]);
      (rest.0, [first.1] + rest.1)
  }

  /** With a quote cached and a counter that starts at zero or above, the ids
      of successive replies are the decimal forms of successive counter
      values: strictly increasing in submission order, hence pairwise
      distinct, whether each order traded or not. */
  lemma IdsFollowSubmissionOrder(store: Store, requests: seq<Request>)
    requires store.quote.Some? && store.counter >= 0
    ensures forall i :: 0 <= i < |requests| ==>
      AllDigits(ServeAll(store, requests).1[i].id) &&
      DecimalValue(ServeAll(store, requests).1[i].id) == store.counter + i + 1
    ensures forall i, j :: 0 <= i < j < |requests| ==>
      ServeAll(store, requests).1[i].id != ServeAll(store, requests).1[j].id
  {
    var es := ServeAll(store, requests).1;
    forall i, j | 0 <= i < j < |requests|
      ensures es[i].id != es[j].id
    {
      DistinctSerialsGiveDistinctIds(
        requests[i].order, requests[j].order, store.quote.value, store.quote.value,
        store.counter + i + 1, store.counter + j + 1, requests[i].now, requests[j].now);
    }
  }

  /** With no quote cached every reply is `nothing` with an empty id, yet the
      counter still advances once per request. */
  lemma NoQuoteBurnsSerials(store: Store, requests: seq<Request>)
    requires store.quote.None?
    ensures ServeAll(store, requests).0.counter == store.counter + |requests|
    ensures forall i :: 0 <= i < |requests| ==>
      ServeAll(store, requests).1[i].id == "" && ServeAll(store, requests).1[i].status == Nothing
  {
  }
}
