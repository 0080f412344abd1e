/** The `/order` handler of the exchange server: an order is evaluated once,
    against the latest cached quote, and either fills completely at the touch
    price or is answered with a `nothing` record. */
module ExchangeApi {
  import opened Wrappers
  import opened Decimal
  import opened MomentoToken

  datatype Side = Buy | Sell

  datatype Status = Done | Nothing

  /** The request body. Prices are whole yen; the amount is only copied. */
  datatype Order = Order(price: int, amount: real, side: Side)

  /** The reply body; `executed_price` and `executed_time` are optional. */
  datatype Execution = Execution(
    id: string,
    price: int,
    amount: real,
    side: Side,
    executed_price: Option<int>,
    executed_time: Option<string>,
    status: Status)

  /** The allowed slippage, in yen. */
  const Slippage: int := 50

  /** JavaScript truthiness of the awaited serial: `undefined` and `0` are falsy. */
  predicate IsTruthy(serial: Option<int>) {
    serial.Some? && serial.value != 0
  }

  /** The record keeps the order's own price, amount and side. */
  predicate CopiesOrder(e: Execution, order: Order) {
    e.price == order.price && e.amount == order.amount && e.side == order.side
  }

  /** A buy tolerates paying up to `Slippage` above its price. */
  predicate BuyWithinSlippage(order: Order, quote: Rate) {
    order.price + Slippage >= quote.best_ask
  }

  /** A sell tolerates receiving up to `Slippage` below its price. */
  predicate SellWithinSlippage(order: Order, quote: Rate) {
    order.price - Slippage <= quote.best_bid
  }

  /** The touch price an order on `side` trades at. */
  function TouchPrice(side: Side, quote: Rate): (p: int) {
    match side
    case Buy => quote.best_ask
    case Sell => quote.best_bid
  }

  /** `nothing(serial?)`: a record of an order that did not trade. Its id is
      the serial's decimal form when the serial is truthy, else empty. */
  function RecordNothing(order: Order, serial: Option<int>): (e: Execution)
    ensures e.status == Nothing && e.executed_price == None && e.executed_time == None
    ensures CopiesOrder(e, order)
    ensures e.id == "" <==> !IsTruthy(serial)
    ensures IsTruthy(serial) ==> e.id == IntToString(serial.value)
  {
    Execution(
      if IsTruthy(serial) then IntToString(serial.value) else "",
      order.price, order.amount, order.side, None, None, Nothing)
  }

  /** `execute(serial, order, price)`: a record of an order that traded at
      `price` at time `now`. */
  function RecordExecution(serial: int, order: Order, price: int, now: string): (e: Execution)
    ensures e.status == Done && e.executed_price == Some(price) && e.executed_time == Some(now)
    ensures CopiesOrder(e, order)
    ensures e.id == IntToString(serial) && e.id != ""
  {
    Execution(IntToString(serial), order.price, order.amount, order.side, Some(price), Some(now), Done)
  }

  /** The decision chain of the handler, once both backend reads have
      returned: `quote` is the cached quote (absent on a miss) and `serial`
      the incremented counter (absent when the response was unrecognised). */
  function Evaluate(order: Order, quote: Option<Rate>, serial: Option<int>, now: string): (e: Execution)
    ensures CopiesOrder(e, order)
    ensures e.status == Done <==> e.executed_price.Some? && e.executed_time.Some?
    ensures e.status == Nothing ==> e.executed_price == None && e.executed_time == None
    ensures e.status == Done ==>
      quote.Some? && e.executed_price == Some(TouchPrice(order.side, quote.value)) && e.executed_time == Some(now)
    ensures !(quote.Some? && IsTruthy(serial)) ==> e.id == "" && e.status == Nothing
    ensures quote.Some? && IsTruthy(serial) ==> e.id == IntToString(serial.value)
  {
    if quote.Some? && IsTruthy(serial) then
      if order.side == Buy && order.price + Slippage >= quote.value.best_ask then
        RecordExecution(serial.value, order, quote.value.best_ask, now)
      else if order.side == Sell && order.price - Slippage <= quote.value.best_bid then
        RecordExecution(serial.value, order, quote.value.best_bid, now)
      else
        RecordNothing(order, serial)
    else
      RecordNothing(order, None)
  }

  /** A buy trades exactly when a quote and a truthy serial are present and the
      ask is within the slippage of its price; it then trades at the ask. */
  lemma BuyRule(order: Order, quote: Option<Rate>, serial: Option<int>, now: string)
    requires order.side == Buy
    ensures Evaluate(order, quote, serial, now).status == Done <==>
      quote.Some? && IsTruthy(serial) && BuyWithinSlippage(order, quote.value)
    ensures Evaluate(order, quote, serial, now).status == Done ==>
      Evaluate(order, quote, serial, now).executed_price == Some(quote.value.best_ask)
  {
  }

  /** A sell trades exactly when a quote and a truthy serial are present and
      the bid is within the slippage of its price; it then trades at the bid. */
  lemma SellRule(order: Order, quote: Option<Rate>, serial: Option<int>, now: string)
    requires order.side == Sell
    ensures Evaluate(order, quote, serial, now).status == Done <==>
      quote.Some? && IsTruthy(serial) && SellWithinSlippage(order, quote.value)
    ensures Evaluate(order, quote, serial, now).status == Done ==>
      Evaluate(order, quote, serial, now).executed_price == Some(quote.value.best_bid)
  {
  }

  /** Any sell priced at or below the bid trades, at the bid. */
  lemma SellAtOrBelowBidTrades(order: Order, quote: Rate, serial: Option<int>, now: string)
    requires order.side == Sell && IsTruthy(serial) && order.price <= quote.best_bid
    ensures Evaluate(order, Some(quote), serial, now).status == Done
    ensures Evaluate(order, Some(quote), serial, now).executed_price == Some(quote.best_bid)
  {
  }

  /** Against a fixed quote, raising a buy's price never turns a fill into a
      rejection. */
  lemma BuyMonotone(order: Order, higher: int, quote: Option<Rate>, serial: Option<int>, now: string)
    requires order.side == Buy && order.price <= higher
    requires Evaluate(order, quote, serial, now).status == Done
    ensures Evaluate(order.(price := higher), quote, serial, now).status == Done
  {
    BuyRule(order, quote, serial, now);
    BuyRule(order.(price := higher), quote, serial, now);
  }

  /** Against a fixed quote, lowering a sell's price never turns a fill into a
      rejection. */
  lemma SellMonotone(order: Order, lower: int, quote: Option<Rate>, serial: Option<int>, now: string)
    requires order.side == Sell && lower <= order.price
    requires Evaluate(order, quote, serial, now).status == Done
    ensures Evaluate(order.(price := lower), quote, serial, now).status == Done
  {
    SellRule(order, quote, serial, now);
    SellRule(order.(price := lower), quote, serial, now);
  }

  /** Without a quote the reply is `nothing` with an empty id, even when a
      truthy serial was obtained: the serial is dropped. */
  lemma MissingQuoteDropsSerial(order: Order, serial: Option<int>, now: string)
    ensures Evaluate(order, None, serial, now) == RecordNothing(order, None)
    ensures Evaluate(order, None, serial, now).id == ""
  {
  }

  /** An order rejected on slippage still carries the serial as its id. */
  lemma SlippageRejectionKeepsSerial(order: Order, quote: Rate, serial: int, now: string)
    requires serial != 0
    requires order.side == Buy ==> !BuyWithinSlippage(order, quote)
    requires order.side == Sell ==> !SellWithinSlippage(order, quote)
    ensures Evaluate(order, Some(quote), Some(serial), now) == RecordNothing(order, Some(serial))
    ensures Evaluate(order, Some(quote), Some(serial), now).id == IntToString(serial)
  {
  }

  /** With a quote present, distinct truthy serials give distinct ids, so
      the reply ids are as unique as the counter's values. */
  lemma DistinctSerialsGiveDistinctIds(
    o1: Order, o2: Order, q1: Rate, q2: Rate, s1: int, s2: int, t1: string, t2: string)
    requires s1 != 0 && s2 != 0 && s1 != s2
    ensures Evaluate(o1, Some(q1), Some(s1), t1).id != Evaluate(o2, Some(q2), Some(s2), t2).id
  {
    if IntToString(s1) == IntToString(s2) {
      IntToStringInjective(s1, s2);
    }
  }

  /** Four orders against the quote bid 1000000 / ask 1000100. A sell 100
      below the bid is well inside the rule and trades at the bid. */
  lemma TouchPriceScenario(amount: real, serial: int, now: string)
    requires serial != 0
    ensures var q := Some(Rate(1000000, 1000100, "", ""));
      && Evaluate(Order(1000150, amount, Buy), q, Some(serial), now).executed_price == Some(1000100)
      && Evaluate(Order(1000040, amount, Buy), q, Some(serial), now).status == Nothing
      && Evaluate(Order(999960, amount, Sell), q, Some(serial), now).executed_price == Some(1000000)
      && Evaluate(Order(999900, amount, Sell), q, Some(serial), now).executed_price == Some(1000000)
      && Evaluate(Order(1000060, amount, Sell), q, Some(serial), now).status == Nothing
  {
  }

  /** The backend calls the handler issues, in order. */
  datatype BackendCall = CacheGet | CacheIncrement

  /** The handler either replies with an Execution or its promise rejects
      with the thrown error (there is no `try`/`catch`). */
  datatype Outcome = Replied(execution: Execution) | Failed(message: string)

  datatype Handled = Handled(calls: seq<BackendCall>, outcome: Outcome)

  /** The whole `/order` handler, given the responses the two backend calls
      would return and the wall-clock string `now`. */
  function HandleOrder(
    order: Order, get: CacheGetResponse, increment: CacheIncrementResponse, now: string): (h: Handled)
    ensures h.calls == if get.GetError? then [CacheGet] else [CacheGet, CacheIncrement]
    ensures h.outcome.Failed? <==> get.GetError? || increment.IncrementError?
    ensures get.GetError? ==> h.outcome == Failed(get.message)
    ensures !get.GetError? && increment.IncrementError? ==> h.outcome == Failed(increment.message)
    ensures h.outcome.Replied? ==>
      h.outcome.execution == Evaluate(order, GetCachedPrice(get).value, GetNewId(increment).value, now)
  {
    match GetCachedPrice(get)
    case Threw(message) => Handled([CacheGet], Failed(message))
    case Returned(quote) =>
      match GetNewId(increment)
      case Threw(message) => Handled([CacheGet, CacheIncrement], Failed(message))
      case Returned(serial) => Handled([CacheGet, CacheIncrement], Replied(Evaluate(order, quote, serial, now)))
  }

  /** On a cache miss the counter is still incremented, and the reply is a
      `nothing` record whose id is empty. */
  lemma MissStillConsumesIncrement(order: Order, serial: int, now: string)
    ensures var h := HandleOrder(order, Miss, IncrementSuccess(serial), now);
      && CacheIncrement in h.calls
      && h.outcome.Replied?
      && h.outcome.execution.status == Nothing
      && h.outcome.execution.id == ""
  {
  }

  /** A backend error never becomes a `nothing` reply: no Execution is sent. */
  lemma BackendErrorsSendNoExecution(
    order: Order, get: CacheGetResponse, increment: CacheIncrementResponse, now: string)
    requires get.GetError? || increment.IncrementError?
    ensures !HandleOrder(order, get, increment, now).outcome.Replied?
  {
  }
}
