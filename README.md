# Order evaluation of the Momento exchange server

This project models the `/order` handler in `momento-exchange-srv/exchange_api.ts`.
The handler reads the latest cached BTC/JPY quote and takes a new serial from an
atomic counter. It then decides, with a fixed slippage of 50 yen, whether the
order fills at the touch price. A buy fills at the ask when `price + 50 >= best_ask`.
A sell fills at the bid when `price - 50 <= best_bid`. Otherwise the reply is a
`nothing` record. The model also covers how `lib/momento_token.ts` classifies the
cache service's responses: hit, miss, error and unrecognised for a `get`, and
success, error and unrecognised for an `increment`. An error response makes the
handler's promise reject, so no Execution is sent.

Modules:

- `Wrappers` (`wrappers.dfy`): `Option`.
- `Decimal` (`decimal.dfy`): `serial.toString()` for integral serials. It comes with
  a proved round trip, so distinct serials give distinct ids.
- `MomentoToken` (`momento_token.dfy`): the `Rate` quote and the response datatypes.
  It also holds `getCachedPrice` and `getNewID` as functions from a response to
  an awaited value or a thrown error.
- `ExchangeApi` (`exchange_api.dfy`): `Order`, `Execution`, `Side` and `Status`.
  It holds the `nothing`/`execute` record builders, the decision chain `Evaluate`,
  the whole handler `HandleOrder` with the trace of backend calls it issues, and
  the lemmas about them.
- `Sequencing` (`sequencing.dfy`): requests served one after another against an
  idealised backend. The backend never fails, holds a fixed quote, and its counter
  returns old value plus one. This shows that every request consumes one counter
  value and that ids follow submission order.

Inputs that stand for I/O:

- The two backend reads are parameters, given as the SDK response the call would return.
- `new Date().toLocaleString("ja-JP")` is the opaque string `now`.

Behaviour of the code worth stating outright, each shown by a lemma:

- An order without a cached quote is answered by `nothing()` with an empty id,
  even when a serial was obtained (`exchange_api.ts:80-81`); see
  `MissingQuoteDropsSerial` and `MissStillConsumesIncrement`.
- `getNewID` is called whenever `getCachedPrice` returns, whatever it returned,
  so a miss still consumes a counter value. When `getCachedPrice` throws, the
  `await` on `exchange_api.ts:69` rejects and line 70 never runs; see the call
  trace in `HandleOrder` and `NoQuoteBurnsSerials`.
- A backend error is not turned into a `nothing` reply. There is no
  `try`/`catch` (`exchange_api.ts:69-70`), so the handler rejects and no
  Execution is sent; see `BackendErrorsSendNoExecution`.
- A sell priced below the bid always fills at the bid. For example, a sell at
  999900 against bid 1000000 fills at 1000000 (`exchange_api.ts:75`); see
  `TouchPriceScenario` and `SellAtOrBelowBidTrades`.

## Model

| member | source | states |
|---|---|---|
| `Decimal.IntToString` | momento-exchange-srv/exchange_api.ts:96 | the id text of a serial is never empty; it starts with `-` exactly for negative serials, its digits read back as the serial's magnitude, and it has no leading zero (a lone `0` aside) |
| `Decimal.DecimalRoundTrip` | momento-exchange-srv/exchange_api.ts:96 | reading back the decimal digits of a natural number gives that number |
| `Decimal.IntToStringInjective` | momento-exchange-srv/exchange_api.ts:96 | two serials with the same `toString()` text are equal |
| `MomentoToken.GetCachedPrice` | momento-exchange-srv/lib/momento_token.ts:82-92 | a hit yields exactly its quote; a miss or an unrecognised response yields no quote; an error response, and only that, is thrown with its message |
| `MomentoToken.GetNewId` | momento-exchange-srv/lib/momento_token.ts:103-111 | a success yields exactly its value; an unrecognised response yields `undefined`; an error response, and only that, is thrown with its message |
| `ExchangeApi.RecordNothing` | momento-exchange-srv/exchange_api.ts:84-92 | a `nothing` record carries no executed price or time and copies price, amount and side; its id is empty exactly when the serial is falsy, and otherwise is the serial's text |
| `ExchangeApi.RecordExecution` | momento-exchange-srv/exchange_api.ts:94-104 | a `done` record carries the given executed price and time, copies price, amount and side, and its id is the serial's text (hence non-empty) |
| `ExchangeApi.Evaluate` | momento-exchange-srv/exchange_api.ts:71-82 | every result copies price, amount and side; it is `done` exactly when both executed fields are present, a `nothing` result carries neither field, a `done` one trades at the side's touch price at `now`; without a quote or a truthy serial it is `nothing` with an empty id; otherwise its id is the serial's text |
| `ExchangeApi.BuyRule` | momento-exchange-srv/exchange_api.ts:71-74 | a buy is `done` if and only if a quote and a truthy serial are present and `price + 50 >= best_ask`, and then its executed price is the ask |
| `ExchangeApi.SellRule` | momento-exchange-srv/exchange_api.ts:71-76 | a sell is `done` if and only if a quote and a truthy serial are present and `price - 50 <= best_bid`, and then its executed price is the bid |
| `ExchangeApi.SellAtOrBelowBidTrades` | momento-exchange-srv/exchange_api.ts:75-76 | with a quote and a truthy serial, any sell priced at or below the bid trades, at the bid |
| `ExchangeApi.BuyMonotone` | momento-exchange-srv/exchange_api.ts:73 | against a fixed quote and serial, if a buy at `p` trades then a buy at any higher price trades |
| `ExchangeApi.SellMonotone` | momento-exchange-srv/exchange_api.ts:75 | against a fixed quote and serial, if a sell at `p` trades then a sell at any lower price trades |
| `ExchangeApi.MissingQuoteDropsSerial` | momento-exchange-srv/exchange_api.ts:80-81 | without a quote the reply is `nothing()` with an empty id, whatever serial was obtained |
| `ExchangeApi.SlippageRejectionKeepsSerial` | momento-exchange-srv/exchange_api.ts:77-78 | an order rejected on slippage is `nothing` and still carries the serial's text as its id |
| `ExchangeApi.DistinctSerialsGiveDistinctIds` | momento-exchange-srv/exchange_api.ts:74-78 | with a quote present, distinct truthy serials give distinct reply ids, whether or not the orders trade |
| `ExchangeApi.TouchPriceScenario` | momento-exchange-srv/exchange_api.ts:73-76 | against bid 1000000 / ask 1000100: a buy at 1000150 trades at 1000100, a buy at 1000040 does not trade, sells at 999960 and 999900 trade at 1000000, and a sell at 1000060 does not trade |
| `ExchangeApi.HandleOrder` | momento-exchange-srv/exchange_api.ts:67-82 | the cache is read first; the counter is incremented unless that read threw; the handler fails exactly when either response is an error, with that error's message; otherwise it replies with `Evaluate` of the two classified values |
| `ExchangeApi.MissStillConsumesIncrement` | momento-exchange-srv/exchange_api.ts:69-81 | on a cache miss the increment is still issued, and the reply is `nothing` with an empty id |
| `ExchangeApi.BackendErrorsSendNoExecution` | momento-exchange-srv/exchange_api.ts:69-70 | an error response from either backend call never yields a reply |
| `Sequencing.Serve` | momento-exchange-srv/exchange_api.ts:69-70 | against the idealised store one request advances the counter by exactly one and is evaluated with the new counter value as its serial |
| `Sequencing.ServeAll` | momento-exchange-srv/exchange_api.ts:67-82 | serving n requests advances the counter by n, and the i-th is evaluated against the same quote with serial `counter + i + 1` |
| `Sequencing.IdsFollowSubmissionOrder` | momento-exchange-srv/lib/momento_token.ts:103-111 | with a quote cached and a non-negative counter, the i-th reply's id reads back as `counter + i + 1`, so ids are pairwise distinct and increase in submission order |
| `Sequencing.NoQuoteBurnsSerials` | momento-exchange-srv/exchange_api.ts:69-81 | with no quote cached every reply is `nothing` with an empty id, yet the counter still advances once per request |

## Left out

- Prices are whole yen (`int`) and the amount is a `real` that is only copied. JavaScript `number` floating point (rounding, `NaN`, infinities) is not modelled.
- `Decimal.IntToString`: it covers integral serials only. JavaScript switches to exponent notation from 1e21 and writes fractions, and neither is modelled.
- `MomentoToken.GetCachedPrice`: a hit's string is taken as already parsed into a `Rate`. `JSON.parse` and its failures are not modelled.
- The cache service itself is not modelled: storage, the 30-second TTL (`momento_token.ts:31`) and atomic increment belong to the remote store. `Sequencing` assumes a failure-free, sequential store with a fixed quote; concurrent requests and feed updates during a batch are not modelled.
- Latency logging (`exchange_api.ts:72`) and wall-clock formatting (`exchange_api.ts:101`) are not modelled; `now` is an opaque parameter.
- Fastify setup, CORS, request and response schema validation, the `/auth` route and `listen` (`exchange_api.ts:36-50,108-114`) are HTTP plumbing.
- Token generation, `putCachedPrice`, `publish` and `subscribe` in `momento_token.ts` are thin SDK calls.
- `rate_publisher.ts`, `rate_subscriber.ts`, `exchange-vite/src/momento/api.ts` and the React components are network I/O and UI, and are not part of this model.
