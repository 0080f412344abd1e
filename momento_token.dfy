/** How `lib/momento_token.ts` turns the cache service's responses into the
    values the order handler sees. The service itself (storage, expiry,
    atomic increment) is not part of this model: each call is represented by
    the response object it could hand back. */
module MomentoToken {
  import opened Wrappers

  /** The quote stored under the cache key "rate" by the feed publisher. */
  datatype Rate = Rate(best_bid: int, best_ask: int, orig_timestamp: string, timestamp: string)

  /** The response classes a cache `get` can return, plus any object of none of
      them (the `instanceof` chain has no final `else`). */
  datatype CacheGetResponse =
    | Hit(rate: Rate)
    | Miss
    | GetError(message: string)
    | GetUnrecognised

  /** The response classes a cache `increment` can return, plus any object of
      neither class. */
  datatype CacheIncrementResponse =
    | IncrementSuccess(valueNumber: int)
    | IncrementError(message: string)
    | IncrementUnrecognised

  /** What an awaited call produces: a value, or a thrown `Error`. */
  datatype Awaited<+T> = Returned(value: T) | Threw(message: string)

  /** `getCachedPrice`: a hit yields the stored quote, a miss `null`, an error
      response is thrown, anything else yields `undefined`. */
  function GetCachedPrice(response: CacheGetResponse): (r: Awaited<Option<Rate>>)
    ensures r.Threw? <==> response.GetError?
    ensures r.Threw? ==> r.message == response.message
    ensures r == Returned(None) <==> response.Miss? || response.GetUnrecognised?
    ensures forall q :: r == Returned(Some(q)) <==> response == Hit(q)
  {
    match response
    case Hit(rate) => Returned(Some(rate))
    case Miss => Returned(None)
    case GetError(message) => Threw(message)
    case GetUnrecognised => Returned(None)
  }

  /** `getNewID`: a success yields the counter's new value, an error response
      is thrown, anything else yields `undefined`. */
  function GetNewId(response: CacheIncrementResponse): (r: Awaited<Option<int>>)
    ensures r.Threw? <==> response.IncrementError?
    ensures r.Threw? ==> r.message == response.message
    ensures r == Returned(None) <==> response.IncrementUnrecognised?
    ensures forall n :: r == Returned(Some(n)) <==> response == IncrementSuccess(n)
  {
    match response
    case IncrementSuccess(n) => Returned(Some(n))
    case IncrementError(message) => Threw(message)
    case IncrementUnrecognised => Returned(None)
  }
}
