# whale-futures in Dafny

A model of the fetch-and-merge machinery of the whale-futures scripts and
Cloudflare functions, which follow copy-trading leaders on Binance and MEXC,
and proofs about it. Covered:

- the rate limiters and retry loops around every upstream request;
- the pagination walkers over trader lists and order histories;
- the "newest wins" merge of order records and the keep-first de-duplication
  of trader ids;
- the snapshot diff and notification state of `/api/notification`;
- the endpoint handlers `/api/orders`, `/api/prices`, `/api/call` and
  `/api/binance/orders`, and the local server;
- the pure mappers: open-entry filter, symbol keys, price-source priority,
  position-mode maps, CSV escaping, the top-N board, request signing, and
  JSON array extraction.

Every HTTP call, the clock, randomness, URL parsing, `localeCompare`,
`encodeURIComponent` and HMAC are parameters: upstream responses are
functions from the request to the parsed reply, and a call whose reply
only shapes text (the notification endpoint's Slack post and prices
lookup) is given by its outcome, settled or rejected. JavaScript values are the
datatype `Js.Value` (module `Js`): `undefined`, `null`, booleans, exact real
numbers, strings, arrays and insertion-ordered objects. It comes with the
language operations the scripts use (truthiness, `||`, `??`, `===`, `>`,
`Number()`, `String()`, property access and object spread).

One file per component:

| file | models |
|---|---|
| `outcome.dfy`, `arith.dfy`, `text.dfy`, `lists.dfy`, `js.dfy` | shared values and JavaScript operations |
| `limiter.dfy`, `bucket.dfy`, `retry.dfy` | the adaptive and fixed-rate token buckets, the retry loops |
| `merge.dfy`, `sorting.dfy` | the insertion-ordered "newest wins" fold, keep-first de-duplication, the stable descending sort |
| `mexc_walker.dfy`, `mexc_traders.dfy`, `mexc_rows.dfy`, `csv.dfy` | the MEXC order exporter |
| `binance_traders.dfy`, `binance_history.dfy`, `binance_orders.dfy` | the Binance exporters, `/api/binance/orders` and its `test.js` copy |
| `open_entries.dfy`, `entry_prices.dfy`, `entry_rows.dfy` | the Binance open-entry exporter |
| `notification.dfy`, `gate.dfy` | `/api/notification` and the shared-key check |
| `leader.dfy`, `server.dfy`, `orders_api.dfy`, `prices.dfy` | the leader board, the local server, `/api/orders`, `/api/prices` |
| `proxy.dfy`, `top_trades.dfy`, `signing.dfy`, `extract.dfy` | `/api/call`, the big-trades board, the signed positions request, `extractArray` |

## Model

| member | source | states |
|---|---|---|
| Limiter.Init | fetch-binance-entry-opening.js:66-69 | the bucket starts full at the starting rate with no cooldown; with non-negative configured rates (whole or fractional) the start state is valid |
| Limiter.Refill | fetch-binance-entry-opening.js:72-80 | a refill that adds tokens caps them at the current rate and moves `lastRefill`; one that adds nothing changes nothing; tokens never go negative |
| Limiter.Poll | fetch-binance-entry-opening.js:84-93 | the polling loop takes a token only when at least one is there, polls at most once per clock reading, and leaves fewer than one token when it gives up |
| Limiter.RateLimit | fetch-binance-entry-opening.js:81-83 | an active cooldown is waited out exactly to its end, the wait leaves the rate and cooldown as they were, and when the polls come after the wait no request is admitted before the cooldown ends |
| Limiter.SecondLaterAdmits | fetch-binance-entry-opening.js:72-87 | a reading one second after the last refill admits at once when the rate is at least 1 |
| Limiter.CooldownMs | fetch-binance-entry-opening.js:101-102 | the denial cooldown lies between its base (2000 ms for 403, 1500 ms otherwise) and 8000 ms |
| Limiter.CooldownIsFloor | fetch-binance-entry-opening.js:102 | the integer cooldown equals `min(8000, floor(base * 1.5^attempt))` |
| Limiter.CooldownMonotone | fetch-binance-entry-opening.js:102 | a later attempt never cools down for less |
| Limiter.OnDeny | fetch-binance-entry-opening.js:95-104 | a denial sets the rate to exactly `max(MIN_RPS, floor(rate / 2))` and the cooldown to end exactly `CooldownMs(status, attempt)` after now (at most 8 s); tokens are untouched |
| Limiter.OnSuccessTick | fetch-binance-entry-opening.js:105-110 | recovery adds exactly one, only below the starting rate and on the coin; the raised rate stays below the start plus one, and a whole rate at or below a whole start never passes it |
| Limiter.ApplyAllValid | fetch-binance-order-to-csv.js:48-96 | for any non-negative configured rates, whole or fractional, any sequence of refills, denials and successes keeps tokens non-negative and the rate at least the lower configured rate and less than one above the higher |
| Limiter.ApplyAllCapped | fetch-binance-entry-opening.js:95-110 | with whole configured rates the rate stays whole and never rises above the higher configured rate |
| Limiter.FractionalStartOvershoots | fetch-binance-entry-opening.js:105-110 | with START_RPS 8.5 a denial and five successes leave the rate at 9, above the start, in a valid state |
| Bucket.Init | fetch-mexc-orders-to-csv.mjs:38-40 | the MEXC bucket starts full |
| Bucket.Refill | fetch-mexc-orders-to-csv.mjs:45-51 | the refill adds `floor(elapsed * MAX_RPS)` capped at the bucket size and moves `lastRefill` only when a token was earned |
| Bucket.Poll | fetch-mexc-orders-to-csv.mjs:43-60 | the corrected admission: a token is taken only when a whole one is there, so a bucket between 0 and MAX_RPS tokens stays so; a poll that gives up leaves less than one token |
| Bucket.PollAsWritten | fetch-mexc-orders-to-csv.mjs:43-60 | the exporter's admission takes a token whenever the count is positive; from a valid bucket the count stays at most MAX_RPS and above -1 |
| Bucket.AsWrittenOverdraws | fetch-mexc-orders-to-csv.mjs:43-60 | with MAX_RPS 2.5 and a clock that stands still, three requests are admitted and the bucket ends at -0.5 tokens |
| Bucket.WholeRateAgrees | fetch-mexc-orders-to-csv.mjs:43-60 | with a whole MAX_RPS and a whole count the exporter's admission and the corrected one are the same, and the count stays whole |
| Bucket.SecondLaterAdmits | fetch-mexc-orders-to-csv.mjs:45-53 | a poll one second after the last refill admits at once |
| Bucket.PollSpendsOne | fetch-mexc-orders-to-csv.mjs:52-53 | an admission leaves the bucket at least one token below MAX_RPS |
| Retry.Loop | fetch-binance-entry-opening.js:113-152 | at most `retries + 1` attempts; the result is returned iff some attempt succeeds, and it is the first success; a failure is rethrown only after the last attempt; the limiter is told of denials only on non-final attempts |
| Retry.Request | fetch-binance-order-to-csv.js:99-125 | a request makes between 1 and `retries + 1` attempts and returns iff one of them succeeds |
| Retry.CountBound | fetch-mexc-orders-to-csv.mjs:62-86 | no more denials are counted than attempts were made |
| Retry.NonDenialIsRetried | fetch-binance-entry-opening.js:119-130 | a non-ok status that is not a denial throws inside the `try`, is caught, and is retried after the error pause |
| Retry.BadBodyTicksThenRetries | fetch-binance-entry-opening.js:126-130 | an ok response whose body does not parse has already ticked the limiter, then is retried |
| Retry.GetJsonForbiddenIsNotDenial | fetch-binance-entry-opening.js:141-148 | `getJson` treats 403 as an ordinary failure: no rate cut, a 180..379 ms pause |
| Retry.PostJsonForbiddenIsDenial | fetch-binance-entry-opening.js:121-122 | `postJson` treats 403 on a non-final attempt as a denial |
| Retry.MexcForbiddenBackoff | fetch-mexc-orders-to-csv.mjs:70-73 | a MEXC 403 on attempt `i` sleeps `900 * 1.6^i` ms |
| Retry.FinalDenialThrows | fetch-binance-order-to-csv.js:105-122 | a denial on the final attempt is rethrown, not absorbed |
| MexcTraders.OrderBys | fetch-mexc-orders-to-csv.mjs:16-20 | the rankings are ROI, PNL and WIN_RATE, then FOLLOWERS unless followers are excluded |
| MexcTraders.UidTextsCover | fetch-mexc-orders-to-csv.mjs:121-125 | every listed trader with a truthy `uid` contributes its `String` |
| MexcTraders.UidTextsSound | fetch-mexc-orders-to-csv.mjs:121-125 | every collected id is the `String` of a truthy `uid` of some listed trader |
| MexcTraders.TraderUidsFacts | fetch-mexc-orders-to-csv.mjs:108-127 | the trader ids are exactly the `String`s of the truthy uids of all rankings, without repeats; a failed ranking (`null`) adds nothing |
| MexcWalker.Tagged | fetch-mexc-orders-to-csv.mjs:159 | one row per record of the page |
| MexcWalker.TaggedFields | fetch-mexc-orders-to-csv.mjs:159-191 | a row keeps every field of its record; its `uid` is the record's own when present (the spread comes last), the walk's otherwise |
| MexcWalker.RecheckContent | fetch-mexc-orders-to-csv.mjs:152-188 | the recheck reads the page content the same way as the main loop |
| MexcWalker.Advance | fetch-mexc-orders-to-csv.mjs:162-200 | the next request asks for the next page, with the page's last `pageTime` as cursor when it has one and the old cursor otherwise |
| MexcWalker.MoveAfter | fetch-mexc-orders-to-csv.mjs:157-200 | only a full page continues; an empty or short page stops; the recheck happens only when the new cursor's text equals the last one's |
| MexcWalker.LoopFacts | fetch-mexc-orders-to-csv.mjs:137-206 | the walk starts with the given request, each request follows from the full page before it, the rows are the tagged pages in order, and a failed fetch loses every row |
| MexcWalker.RecheckFacts | fetch-mexc-orders-to-csv.mjs:178-195 | a repeated cursor makes exactly one more request, with the next page and that cursor, and then the walk ends |
| MexcWalker.NextFacts | fetch-mexc-orders-to-csv.mjs:197-201 | a normal advance puts this page's rows and request in front of the rest of the walk, and when the rest is itself a walk (chained requests, its rows exactly the pages it received unless it threw) so is the longer one |
| MexcWalker.PagesInTurn | fetch-mexc-orders-to-csv.mjs:146-200 | the walk asks for consecutive page numbers |
| MexcWalker.NoCursorUntilGiven | fetch-mexc-orders-to-csv.mjs:139-174 | no `pageTime` is sent until some page supplied one |
| MexcWalker.EmptyPageStops | fetch-mexc-orders-to-csv.mjs:157 | an empty page ends the walk without rows |
| MexcWalker.ShortPageStops | fetch-mexc-orders-to-csv.mjs:159-166 | a short page is kept, and then the walk ends |
| MexcWalker.CursorlessTwiceStops | fetch-mexc-orders-to-csv.mjs:169-170 | from page 2 on, a second full page in a row without a cursor ends the walk |
| MexcWalker.RepeatRechecksOnce | fetch-mexc-orders-to-csv.mjs:178-194 | a repeated cursor is rechecked once, on the next page with that cursor, and the walk ends whatever the recheck returns |
| MexcWalker.StuckUpstreamStops | fetch-mexc-orders-to-csv.mjs:143-202 | an upstream that always answers the same full page is asked three times, then the walk ends |
| MexcWalker.EventuallyShortStops | fetch-mexc-orders-to-csv.mjs:143-202 | if every page from some number on is short, empty or failing, the walk ends within that many steps |
| MexcRows.Values | fetch-mexc-orders-to-csv.mjs:209-289 | one value per CSV header; every column other than `uid`, `symbol`, `side`, `marginMode`, `roiPct` and `notional` is the record's property of the header's own name, `""` in place of `null`/`undefined` |
| MexcRows.Column | fetch-mexc-orders-to-csv.mjs:251-290 | every column of the normalised row holds the value computed for it |
| MexcRows.DerivedColumns | fetch-mexc-orders-to-csv.mjs:252-273 | `uid` is the record's `traderUid` (not the walk's uid); `symbol`, `side`, `marginMode`, `roiPct` and `notional` hold their derived values |
| MexcRows.CodesNamed | fetch-mexc-orders-to-csv.mjs:252-253 | the numeric codes 1 and 2 are named `long`/`short` and `isolated`/`cross`; any other code passes through unchanged |
| MexcRows.SymbolFacts | fetch-mexc-orders-to-csv.mjs:259 | the symbol column has no underscore and keeps every other character; a falsy symbol gives `""` |
| MexcRows.RoiPctFacts | fetch-mexc-orders-to-csv.mjs:254-257 | `roiPct` is empty for a falsy or zero margin, `NaN` for a non-numeric margin or released amount, otherwise `released / margin * 100` formatted, a falsy `released` counting as 0 |
| MexcRows.NotionalFacts | fetch-mexc-orders-to-csv.mjs:258-273 | `notional` is `""` or the non-zero product of amount and open price, both then numeric |
| MexcRows.ExportRoundTrip | fetch-mexc-orders-to-csv.mjs:311-322 | the appended text reads back as one CSV record per collected order, holding the texts of its normalised columns |
| Csv.EscText | fetch-mexc-orders-to-csv.mjs:240-244 | a text with no quote, comma or line feed is written as it is; any other is written between quotes |
| Csv.Cells | fetch-mexc-orders-to-csv.mjs:247 | one escaped cell per header, in header order |
| Csv.Lines | fetch-mexc-orders-to-csv.mjs:321-321 | one line per row, in order |
| Csv.FieldRoundTrip | fetch-mexc-orders-to-csv.mjs:240-244 | reading back an escaped field recovers its text and stops at the following comma or line feed |
| Csv.RecordRoundTrip | fetch-mexc-orders-to-csv.mjs:247 | a comma-joined line of escaped fields reads back as the same texts |
| Csv.BodyRoundTrip | fetch-mexc-orders-to-csv.mjs:321 | the appended body reads back, row by row, as the texts of each header's value |
| Csv.ToCsvRoundTrip | fetch-mexc-orders-to-csv.mjs:246-248 | with plain header names, `toCSV` reads back as the header row followed by the rows' texts |
| BinanceTraders.FirstTruthyPicks | fetch-binance-entry-opening.js:196-198 | an `\|\|` chain of properties yields the first truthy one |
| BinanceTraders.FirstPresentPicks | fetch-binance-entry-opening.js:199-201 | a `??` chain of properties yields the first one that is neither `null` nor `undefined` |
| BinanceTraders.Keyed | fetch-binance-entry-opening.js:202 | only traders with a truthy portfolio id are kept, each under its own id |
| BinanceTraders.KeyedCovers | fetch-binance-entry-opening.js:202 | every trader with a truthy portfolio id is kept |
| BinanceTraders.Normalized | fetch-binance-entry-opening.js:195-201 | one normalised trader per listed trader, in order |
| BinanceTraders.UniqueTradersFacts | fetch-binance-order-to-csv.js:169-185 | the kept traders have truthy, pairwise distinct portfolio ids; each is the first one listed with its id; every listed id is kept |
| BinanceTraders.EntryTraders | fetch-binance-entry-opening.js:204-207 | `slice(0, TRADER_LIMIT)` of the unique traders for any numeric limit: a prefix of them, at most the limit long when the limit is non-negative |
| BinanceTraders.EntryTradersPrefix | fetch-binance-entry-opening.js:204-210 | a whole non-negative limit keeps the first `min(limit, n)` unique traders; a whole negative limit drops that many from the end, or everything |
| BinanceHistory.TagFields | fetch-binance-order-to-csv.js:208 | a collected record carries the trader's `_portfolioId`, `_uid` and `_nickname`, overriding its own, and every other field unchanged |
| BinanceHistory.PagesFacts | fetch-binance-order-to-csv.js:190-214 | the walk asks for consecutive page numbers, at most one per step |
| BinanceHistory.RowsFacts | fetch-binance-order-to-csv.js:200-212 | unless a request threw, the rows are the tagged pages in request order; a thrown walk keeps nothing |
| BinanceHistory.FullBeforeLast | fetch-binance-order-to-csv.js:211 | every page but the last one asked for was answered and full |
| BinanceHistory.FetchAllFacts | fetch-binance-order-to-csv.js:189-220 | pages 1, 2, ... in turn; rows as received unless the walk threw; every page but the last full |
| BinanceHistory.RequestBound | fetch-binance-order-to-csv.js:203-212 | when every reported total is at most `cap`, no more than `ceil(cap / pageSize)` pages are asked for, and that many steps always end the walk |
| BinanceHistory.FetchAllTagged | fetch-binance-order-to-csv.js:208 | every collected record names its trader |
| BinanceHistory.NormalizeOrderColumn | fetch-binance-order-to-csv.js:250-270 | each column holds its source property, `""` in place of `null` or `undefined` |
| BinanceHistory.TaggedRow | fetch-binance-order-to-csv.js:208-254 | a collected record's row names its trader in the first three columns |
| BinanceHistory.OrdersTagged | fetch-binance-order-to-csv.js:293-298 | every exported record was tagged by one of the traders |
| OpenEntries.SidesAgree | fetch-binance-entry-opening.js:216-230 | a long position is a buy and a short one a sell; the position side is empty exactly when the raw side names none of LONG, SHORT, BUY, SELL |
| OpenEntries.OpeningExcludes | fetch-binance-entry-opening.js:258-277 | a record with a finished status is never an open entry, and an open entry's status is empty or one of the open statuses |
| OpenEntries.ClosedIndexFacts | fetch-binance-entry-opening.js:300-310 | an order id (position id) is indexed exactly when some closed record of the history carries it |
| OpenEntries.CollectFrom | fetch-binance-entry-opening.js:312-322 | the collecting loop throws exactly when the history holds a `null` or `undefined` record (`normalizeHistory` reads `o.symbol`), and otherwise keeps at most one entry per record |
| OpenEntries.CollectMatches | fetch-binance-entry-opening.js:312-322 | the collecting loop equals the reference filter: normalised records that no closed record shares an id with and that look like open entries; it throws instead when a record is nullish |
| OpenEntries.OpenEntriesFilter | fetch-binance-entry-opening.js:280-326 | the open entries of a trader are the reference filter of its history; a failed, empty or non-array history gives none, and a history with a nullish record throws |
| OpenEntries.NullRecordDropsTrader | fetch-binance-entry-opening.js:155-170 | the worker pool keeps nothing of a trader whose history holds a nullish record, whatever its other records are |
| OpenEntries.ClosedNeverKept | fetch-binance-entry-opening.js:272-319 | a closed record is never kept |
| OpenEntries.ClosedOrderNeverKept | fetch-binance-entry-opening.js:305-319 | a record is dropped when a closed record of the same history carries its order id |
| EntryPrices.PriceMapStep | fetch-binance-entry-opening.js:333-336 | an item that does not quote a symbol leaves that symbol's price alone |
| EntryPrices.PriceMapHas | fetch-binance-entry-opening.js:332-338 | a symbol has a price exactly when some item quotes it |
| EntryPrices.PriceMapLast | fetch-binance-entry-opening.js:336 | a symbol's price is the one the last item quoting it set |
| EntryPrices.PriceMapFrom | fetch-binance-entry-opening.js:332-338 | every price in the map was set by some item |
| EntryPrices.QuotePositive | fetch-binance-entry-opening.js:334-347 | an item quotes only a positive price under a truthy symbol |
| EntryPrices.TickerPositive | fetch-binance-entry-opening.js:329-350 | every price in a ticker map is positive |
| EntryPrices.FuturesKeyRoundTrip | fetch-binance-entry-opening.js:351-358 | the futures contract name keeps the pair: removing its underscore gives the spot key, and it ends in `_USDT` exactly when the pair ends in `USDT` |
| EntryPrices.PricesFacts | fetch-binance-entry-opening.js:359-378 | a symbol is priced exactly when it was asked for and one of the four lookups has a positive price; the futures contract wins when it has one |
| EntryPrices.RedundantLookups | fetch-binance-entry-opening.js:365-375 | for an upper-cased symbol the fourth lookup never decides, and without a `USDT` suffix neither does the third |
| EntryRows.Unit | fetch-binance-entry-opening.js:381-390 | a magnitude is scaled by the largest of thousand, million, billion, trillion it reaches, leaving a scaled value below 1000 except for trillions |
| EntryRows.NameShortens | fetch-binance-entry-opening.js:395-401 | a nickname longer than six characters is shown as its first four and an ellipsis, followed by at most the two marks |
| EntryRows.ModeMatchesSign | fetch-binance-entry-opening.js:402-474 | the `Mode` column and the PnL sign agree: long is +1, short is -1, anything else is 0 with an empty mode |
| EntryRows.CaseAgrees | fetch-binance-entry-opening.js:403-472 | comparing in lower case against `long`/`short` agrees with comparing in upper case against `LONG`/`SHORT` |
| EntryRows.MarginModeLowerFacts | fetch-binance-entry-opening.js:420-425 | the `M/Mode` column is lower case; it is `isolate` exactly for `ISOLATED` (or `ISOLATE`), and otherwise upper-cases back to the given mode |
| EntryRows.LowerModeFacts | fetch-binance-entry-opening.js:421-424 | the same, for a mode already in upper case |
| EntryRows.MsAgoUnits | fetch-binance-entry-opening.js:407-419 | the age is shown in the largest unit it reaches, as the whole number of that unit; a future time counts as no time |
| EntryRows.MarketPriceFallback | fetch-binance-entry-opening.js:484-486 | the market price is MEXC's when known, else the entry's own open price, and then the change is 0 % |
| EntryRows.PnlSign | fetch-binance-entry-opening.js:488-494 | with a side the PnL is the price move times the quantity, so a long gains when the market is above the open and a short when below; without a side the reported PnL is used |
| EntryRows.MarginPctFacts | fetch-binance-entry-opening.js:496 | the margin percentage exists exactly for a positive leverage, and the two multiply to 100 |
| EntryRows.DeltaFacts | fetch-binance-entry-opening.js:486 | the change against the open price recovers the market price |
| EntryRows.Column | fetch-binance-entry-opening.js:498-518 | every column of a row holds the value computed for it |
| EntryRows.IdentityColumns | fetch-binance-entry-opening.js:476-517 | the symbol column is upper case, the mode is derived from the position side, `UID` and `ID` fall back to `""` |
| EntryRows.Rows | fetch-binance-entry-opening.js:544-546 | one row per entry, priced from the price map under its upper-cased symbol |
| EntryRows.PricedBySymbol | fetch-binance-entry-opening.js:540-546 | every entry with a symbol is priced from the lookups of its own upper-cased symbol |
| EntryRows.SortedFacts | fetch-binance-entry-opening.js:549 | the written rows are the built rows, newest first, rows of equal time kept in entry order |
| EntryRows.AppendedRoundTrip | fetch-binance-entry-opening.js:458-552 | a run with open entries appends text that reads back as one row per entry, newest first; a run without any appends nothing |
| BinanceOrders.QueryGet | functions/api/binance/orders.js:147-156 | a query parameter reads as its first value, or `null` exactly when the name is absent |
| BinanceOrders.ParseArgsLast | test.js:120-129 | every option reads as the value of its last occurrence; a name no option gives reads as `undefined` |
| BinanceOrders.BareOption | test.js:124-125 | `--k` sets `k` to `true` |
| BinanceOrders.ValuedOption | test.js:124-125 | `--k=v` sets `k` to `"v"`, and so does `--k=v=w`, since only the first two pieces of the split are read |
| BinanceOrders.NonOptionIgnored | test.js:122-123 | an argument that does not start with `--` changes nothing |
| BinanceOrders.Uids | functions/api/binance/orders.js:147-150 | the requested ids are non-empty, trimmed, and contain no comma |
| BinanceOrders.MaxPerCall | functions/api/binance/orders.js:156-156 | the batch size lies between 1 and 35, and is 35 when none is given |
| BinanceOrders.WindowOf | functions/api/binance/orders.js:154-243 | a call handles indices from the cursor up to at most `maxPerCall` further, never past the list; a full batch is cut only by the list's end, and a next cursor is named exactly when the list goes on |
| BinanceOrders.PastTheEnd | functions/api/binance/orders.js:155-243 | a cursor at or past the end gives an empty window and no next cursor |
| BinanceOrders.Steps | functions/api/binance/orders.js:168 | the loop visits `start`, `start + 1`, ... while below `end` |
| BinanceOrders.WholeSteps | functions/api/binance/orders.js:168 | between whole numbers the loop visits each index once, in order |
| BinanceOrders.WholeWindow | functions/api/binance/orders.js:155-243 | with a whole batch size, a call from the cursor `s` handles `[s, min(total, s + max))` and names that end as the next cursor |
| BinanceOrders.ChainStep | functions/api/binance/orders.js:155-243 | one call from `s` visits its window and hands on to a call from the window's end when the list goes on |
| BinanceOrders.ChainCovers | functions/api/binance/orders.js:142-265 | calls chained from no cursor through `nextCursor` visit every index exactly once, in order, and then stop |
| BinanceOrders.ChainVisitsEveryUid | functions/api/binance/orders.js:147-243 | so the chained calls read the requested ids, each once, in order |
| BinanceOrders.PortfolioIds | functions/api/binance/orders.js:74-93 | the looked-up portfolio ids are the non-empty `portfolioId` texts of the answer's list; a failed lookup gives none |
| BinanceOrders.PortfolioIdsOf | functions/api/binance/orders.js:173-182 | every portfolio id used is non-empty |
| BinanceOrders.LongUidIsPortfolio | functions/api/binance/orders.js:175-176 | an id longer than 15 characters is used as a portfolio id without any lookup |
| BinanceOrders.UnconfirmedCountsForNothing | functions/api/binance/orders.js:123-131 | an answer without `success === true` and code `000000` contributes no records and ends the walk |
| BinanceOrders.Pages | functions/api/binance/orders.js:101 | the walk never makes more requests than its page allowance, and starts with the given request |
| BinanceOrders.PagesSource | functions/api/binance/orders.js:105-110 | every request of a walk names the same portfolio and time range |
| BinanceOrders.PagesLinked | functions/api/binance/orders.js:111-132 | each request after the first carries the index the previous answer named |
| BinanceOrders.PagesStop | functions/api/binance/orders.js:120-131 | a walk ends before its allowance only after a failed request, an empty list or a missing index |
| BinanceOrders.PagesRecords | functions/api/binance/orders.js:124-128 | a walk keeps the records of every answer, in order |
| BinanceOrders.FirstPagesFacts | functions/api/binance/orders.js:96-136 | one to three requests; the first has no `indexValue`; each later one carries the previous answer's index; the records are those received, in order |
| BinanceOrders.Tag | functions/api/binance/orders.js:188 | a collected record carries `_portfolioId` and `_leadUid` and every other field of the original |
| BinanceOrders.UidRecords | functions/api/binance/orders.js:185-190 | every record of an id is tagged with that id and one of its portfolio ids |
| BinanceOrders.Collected | functions/api/binance/orders.js:168-191 | every collected record is tagged by an id the loop visited |
| BinanceOrders.UnknownUidSkipped | functions/api/binance/orders.js:179-181 | a short id without portfolios contributes nothing |
| BinanceOrders.KeySeparates | functions/api/binance/orders.js:194-202 | when no field holds a `\|`, two records share a key exactly when their six key fields agree |
| BinanceOrders.DedupFacts | functions/api/binance/orders.js:204-214 | one record per key; every key of the input is represented; the kept record has the strictly greatest time of its key, the first seen among equal times |
| BinanceOrders.DedupFromInput | functions/api/binance/orders.js:204-214 | every kept record is one of the collected records |
| BinanceOrders.ModeFromSide | functions/api/binance/orders.js:42-48 | the mode is `long`, `short` or `unknown` |
| BinanceOrders.ModeIgnoresCase | functions/api/binance/orders.js:45-47 | sides that differ only in letter case map alike; `buy` is long, `Sell` is short, a missing side is unknown |
| BinanceOrders.Lev | functions/api/binance/orders.js:35-62 | the leverage is never 0, and is 1 when the record names none |
| BinanceOrders.MarginUsdt | functions/api/binance/orders.js:63-68 | a positive margin is taken as given; otherwise the margin times the leverage is the notional, or 0 for a negative leverage |
| BinanceOrders.ToOrder | functions/api/binance/orders.js:215-239 | the order keeps its record as `raw`, takes its leverage and side from it, and its price and amount are `avgPrice` and `executedQty` read as numbers (0 when absent) |
| BinanceOrders.Priced | functions/api/binance/orders.js:215-239 | the notional is price times amount, the margin is derived from the leverage, the margin percentage is margin over notional |
| BinanceOrders.Unlevered | functions/api/binance/orders.js:59-68 | a record without leverage counts as unlevered: its margin is its whole notional, 100 % of it |
| BinanceOrders.OrdersFacts | functions/api/binance/orders.js:214-241 | one order per kept record, newest first, each built from one of the collected records |
| BinanceOrders.CollectedOrders | functions/api/binance/orders.js:165-241 | the answer's orders are newest first and each came from a visited id and one of its portfolios |
| BinanceOrders.HandleFacts | functions/api/binance/orders.js:142-258 | the answer's page window is the cursor window; its orders are newest first and each came from an id inside the window |
| Js.GreaterAsText | functions/api/notification.js:338 | an array or object operand of `>` compares exactly as its `String()` text |
| Js.GreaterStrArr | functions/api/notification.js:338 | a string against an array compares, as text, with the array's comma-joined items |
| Merge.Find | functions/api/notification.js:336 | a key finds an entry exactly when the table holds that key, and the entry found is one stored under it |
| Merge.FindPut | functions/api/notification.js:336-338 | after `map.set(k, o)` on a present key, `k` finds `o` and every other key finds what it found before |
| Merge.FindSnoc | functions/api/notification.js:338 | after storing a new key, it finds its record and every other key what it found before |
| Merge.UpsertFacts | functions/api/notification.js:334-339 | one step keeps keys unique and in place: it appends the record under a new key, overwrites the record of its key, or changes nothing |
| Merge.MergeFacts | functions/api/notification.js:333-340 | the merged table has one entry per key, covers every key of the input, and holds only input pairs |
| Merge.NewestWins | functions/api/notification.js:333-339 | when the stamps are numbers, the survivor of every key is its newest record, the first seen among equally new ones |
| Merge.MergedNotOlder | functions/api/notification.js:333-339 | no input record is newer than the survivor of its key |
| Merge.MergeAppend | functions/api/notification.js:334 | merging a concatenation continues the merge of the first part with the second |
| Merge.MergeAgain | functions/api/notification.js:333-339 | merging records already merged changes nothing, so a page fetched twice merges to the same table |
| Merge.ValuesFacts | functions/api/binance/orders.js:204-214 | merged records: one per key, every key of the input, and for each key the newest record, first-seen among equals |
| Merge.KeyedValuesFacts | functions/api/orders.js:62-67 | for any notion of newer: one record per key, every key of the input, only input records |
| Merge.DistinctFacts | fetch-binance-order-to-csv.js:182-183 | the seen-set filter keeps the first record of each key outside the seen set, in input order, and covers every other key |
| Merge.DistinctOfDistinct | fetch-binance-order-to-csv.js:182-183 | a list without repeated keys passes the filter unchanged |
| Merge.UniqueFacts | fetch-mexc-orders-to-csv.mjs:108 | `[...new Set(xs)]` has no repeats, the same elements as `xs`, in first-seen order, and leaves a repeat-free list unchanged |
| Sorting.SortDescFacts | functions/api/notification.js:87 | `.sort((a, b) => b.openAt - a.openAt)` is non-increasing in `openAt`, a permutation, and stable |
| Sorting.InsertStable | functions/api/notification.js:87 | inserting keeps the rows of every key in their order |
| Sorting.Top | leader.js:196 | keeping the first `n` rows yields a prefix of length `min(n, len)` |
| Sorting.TopFacts | leader.js:194-196 | the first `n` sorted rows are sorted, drawn from the input, and outrank every row left out |
| Sorting.PrefixFacts | leader.js:196 | a prefix of a sorted list is sorted and outranks the rest |
| Gate.AdmitsFacts | functions/api/notification.js:256-264 | without a configured key everybody passes; with one, exactly the requests carrying it |
| Notification.MergedFacts | functions/api/notification.js:333-340 | one record per order id, every id kept, each survivor an input record; with numeric times the survivor is the newest, the first seen among equals |
| Notification.ModeCodes | functions/api/notification.js:29-30 | the numeric codes 1 and 2 (not the strings) name long/short and Isolated/Cross; anything else is unknown |
| Notification.Leverage | functions/api/notification.js:27-31 | the leverage is the first present leverage field when it is a finite non-zero number, else 1 |
| Notification.NoLeverageIsOne | functions/api/notification.js:31 | a record without any leverage field has leverage 1 |
| Notification.MarginOf | functions/api/notification.js:32-66 | the margin is the reported one when positive, else the notional over the leverage, or 0 for a negative leverage |
| Notification.NormalizeNotional | functions/api/notification.js:61-87 | a normalised row keeps its record as `raw`, its id is `orderId \|\| id`, the open price and amount are the record's numbers, and the notional is their product |
| Notification.NormalizeMargin | functions/api/notification.js:27-37 | the leverage is never 0; a positive reported margin is kept, otherwise the margin is the notional divided by a positive leverage, and 0 for a negative one |
| Notification.NormalizeSymbol | functions/api/notification.js:28-28 | the pair is the record's symbol text with only its first underscore removed |
| Notification.NormalizeAllFacts | functions/api/notification.js:61-88 | the rows come out newest first, one per record, equal times in input order |
| Notification.Previous | functions/api/notification.js:144-149 | an id finds a previous snapshot exactly when one has that id, and then the last one |
| Notification.PreviousOwn | functions/api/notification.js:144-149 | with unique ids every snapshot finds itself |
| Notification.Changes | functions/api/notification.js:151-156 | a known snapshot reports at most five differences, and none exactly when its five terms agree |
| Notification.DiffFacts | functions/api/notification.js:142-160 | a snapshot is added exactly when its id is unknown; a change entry is reported exactly for each known snapshot with a differing term |
| Notification.DiffSeparates | functions/api/notification.js:142-160 | no id is both added and changed, and ids only in the previous list are never reported |
| Notification.DiffSelf | functions/api/notification.js:142-160 | comparing a list with itself reports nothing |
| Notification.FingerprintIgnoresOrder | functions/api/notification.js:161-165 | reordering the added or changed lists does not change the fingerprint |
| Notification.FirstName | functions/api/notification.js:369-380 | a group's name is `""` or the first truthy trader name of its rows |
| Notification.PlaceFind | functions/api/notification.js:368-383 | one grouping step grows the row's trader's group (a fresh one when the trader had none) and leaves every other trader's group as it was |
| Notification.OwnGroup | functions/api/notification.js:367-384 | every reported row's trader has a group holding at least one row |
| Notification.GroupsFacts | functions/api/notification.js:363-384 | a trader has a group exactly when some reported row belongs to it; the group holds the first truthy name, the summed margin and the trader's added and changed rows in order |
| Notification.GroupsNonEmpty | functions/api/notification.js:363-384 | there are groups exactly when there are reported rows |
| Notification.ChangedRowsComplete | functions/api/notification.js:365-377 | the lookup of a changed id in the current snapshots never misses |
| Notification.NoticeNonEmpty | functions/api/notification.js:356-389 | the notice of a diff has a group exactly when the diff is not empty |
| Notification.AdvanceFacts | functions/api/notification.js:345-398 | a first run only stores; later runs post exactly when the diff is non-empty and its fingerprint differs from the last one posted, then remember it; every run stores the current snapshots |
| Notification.SecondRunQuiet | functions/api/notification.js:345-398 | a second run on the same snapshots posts nothing and stores the same state |
| Notification.QuietRunKeepsFingerprint | functions/api/notification.js:356-393 | a run without changes keeps the last fingerprint |
| Notification.Page | functions/api/notification.js:320-329 | a missing answer or one whose `success` is not `true` contributes no rows; a successful answer with an array `content` gives one row per item, each with the item's fields and `_uid` set to the uid; a truthy non-array `content` throws |
| Notification.Fetch | functions/api/notification.js:311-330 | every fetched row is tagged with one of the target uids; a rejected request fails the whole fetch |
| Notification.FetchComplete | functions/api/notification.js:311-330 | the fetch succeeds exactly when every uid's request resolves and its page does not throw, and then it returns each uid's rows in uid order |
| Notification.PricesCall | functions/api/notification.js:168-179 | the prices lookup rejects exactly when there are orders to price and its `fetch` rejects; with no symbols it makes no request |
| Notification.SlackCall | functions/api/notification.js:182-191 | the Slack post rejects exactly when a bot token is set and its `fetch` rejects; without a token nothing is sent |
| Notification.Handle | functions/api/notification.js:252-409 | 401 exactly without the key; 400 exactly when no targets and not a test; only a bootstrap or a check changes the state, and both store the snapshots of the returned rows |
| Notification.Check | functions/api/notification.js:331-402 | after the fetch loop: a first run bootstraps, later runs check; a 500 leaves the state alone, and a bootstrap or a check stores the snapshots of its rows |
| Notification.CheckFacts | functions/api/notification.js:331-407 | after the fetch loop the run answers 500 exactly when it posts and the prices or Slack `fetch` rejects; otherwise its data are the merged, normalised rows, and a check reports a post exactly when it posts |
| Notification.HandleFetchOutcome | functions/api/notification.js:311-407 | an authorised check with targets answers 500, leaving the state alone, exactly when some uid's request is rejected or its page throws, or the run posts and the prices or Slack `fetch` rejects; otherwise the rows are the merged and normalised rows of every uid |
| Notification.HandleTestOutcome | functions/api/notification.js:276-407 | a test run never changes the state; it answers 500 exactly when the Slack post (with a token set) or, on a non-empty cache, the prices lookup rejects, and otherwise reports the empty cache or the preview |
| Notification.CachedInOwnGroup | functions/api/notification.js:276-297 | each cached order appears, as added, in the preview group of its own trader |
| Notification.PreviewCoversCache | functions/api/notification.js:276-297 | the test preview groups every cached order, as added, under its trader, and its groups hold added rows only |
| Notification.AllFlagged | functions/api/notification.js:287-294 | the preview files every cached row under added, so no group has changed rows |
| Notification.CalcPnl | functions/api/notification.js:196-199 | the PnL is the price move times the amount, negated for a short |
| Notification.PnlDirection | functions/api/notification.js:196-199 | with a positive amount the PnL is positive exactly when the price moved the position's way |
| Notification.CalcRoiPct | functions/api/notification.js:200-204 | the ROI is 0 without a positive margin, else the PnL as a percentage of it |
| Notification.PctChangeVsOpen | functions/api/notification.js:205-210 | the change is 0 without a positive open price, else the move as a percentage of it, with its sign |
| Notification.UnpricedRowShowsFullLoss | functions/api/notification.js:216-219 | a row without a price is shown at market price 0: a long shows its whole notional lost and a 100 % drop |
| Leader.Uids | leader.js:14-17 | every uid read from the variable is non-empty, trimmed and comma-free |
| Leader.UidsDefault | leader.js:14 | an unset or empty variable means the single default trader 78481146 |
| Leader.UidsRoundTrip | leader.js:14-17 | a list of clean uids written comma-separated into the variable is read back unchanged |
| Leader.Pair | leader.js:50 | a symbol without an underscore is kept, and a falsy one becomes `""` |
| Leader.PairDropsFirstUnderscore | leader.js:50 | `replace("_", "")` removes only the first underscore and keeps everything else in place |
| Leader.Shape | leader.js:104-113 | a row keeps its record, takes its page time from `pageTime \|\| openTime \|\| 0`, and its margin share is the margin over the notional in percent, or 0 without a positive notional |
| Leader.FetchOrders | leader.js:97-114 | a failed request or an answer without `success === true` gives no rows; otherwise one row per content item, in order; a non-array truthy content throws |
| Leader.SettledRows | leader.js:183-185 | the collected rows are exactly those of the uids whose fetch did not reject |
| Leader.MergedFacts | leader.js:187-192 | one row per key, every key kept, only input rows; with numeric page times each survivor is the newest of its key, the first seen among equals |
| Leader.BoardFacts | leader.js:194-196 | the board holds the 50 most recently opened merged rows (all when fewer), newest first |
| Leader.OpenSymbolsFacts | leader.js:198-200 | a symbol is listed exactly when some board row has no close price |
| Leader.SymbolsNeededFacts | leader.js:198-200 | each such symbol is asked for once, and no other |
| Leader.LiveForFacts | leader.js:150-209 | a symbol gets its live price when it was asked for and the price is positive, else 0 |
| Leader.PnlAt | leader.js:160-175 | the PnL is empty when the open price, amount or exit price is 0, else the move times the amount, negated unless long |
| Leader.PnlDirection | leader.js:160-175 | with a positive amount a long gains exactly when the exit is above the open price, any other position exactly when below |
| Leader.RoiFromPnl | leader.js:176-179 | the ROI is empty for an empty PnL or a zero margin, else the PnL as a percentage of the margin |
| Leader.RoiSign | leader.js:176-179 | a positive margin keeps the sign of the PnL and a negative one flips it |
| Leader.PollFacts | leader.js:182-215 | one line per board row; a closed order shows its realised PnL, an open one its PnL at the live price of its symbol |
| Leader.NonPositiveCloseIsBlank | leader.js:199-210 | a row with a non-positive, truthy close price is neither closed nor priced, so its figures stay empty unless an open row shares its symbol |
| Prices.ToSpot | functions/api/prices.js:28-30 | the first underscore of the symbol, and only that one, is removed |
| Prices.FuturesFieldOrder | functions/api/prices.js:40-42 | the last price wins when positive, then the fair price, then the index price |
| Prices.FindSpot | functions/api/prices.js:55 | an item found is an input item whose symbol is the one asked for |
| Prices.FindSpotFirst | functions/api/prices.js:55 | the first exact match is found, provided no nullish item comes before it |
| Prices.PriceForSymbol | functions/api/prices.js:32-66 | the price is never negative, and a positive one is the futures or the spot quote |
| Prices.PricePriority | functions/api/prices.js:32-66 | a positive futures quote wins regardless of the spot ticker; without one a positive spot quote is used; otherwise 0 |
| Prices.Symbols | functions/api/prices.js:85-90 | the symbols asked are the listed ones, each once, trimmed and non-empty |
| Prices.Quotes | functions/api/prices.js:95-98 | every answered symbol was asked and carries its own positive price |
| Prices.QuotesCover | functions/api/prices.js:95-98 | a symbol is answered exactly when it was asked and its price is positive |
| Prices.QuotesUnique | functions/api/prices.js:90-98 | no symbol is answered twice |
| Prices.QuotesFacts | functions/api/prices.js:90-98 | one entry per listed symbol with a positive price, and no other |
| Prices.HandleAsWritten | functions/api/prices.js:76-82 | as written, a rejected key makes the handler throw, because `jsonRes` is not defined in this file; an admitted request is answered as the corrected route answers it |
| Prices.WrongKeyThrows | functions/api/prices.js:80 | a configured key `k` and a request carrying `x`: the route as written throws, the corrected one answers 401 |
| Prices.Handle | functions/api/prices.js:73-102 | the corrected route: 401 exactly when the key check fails; without a configured key always an answer |
| Prices.HandleFacts | functions/api/prices.js:83-102 | an answer maps each listed symbol with a positive price, once, to that price, and nothing else |
| Server.Uids | server.js:106 | every uid asked is non-empty, trimmed and comma-free |
| Server.UidsDefault | server.js:36-106 | without a `uids` parameter the sixteen built-in uids are asked, in order |
| Server.UidsGiven | server.js:106 | a clean comma-separated list in the parameter is asked as written |
| Server.Limit | server.js:107 | a missing or empty `limit` means 10 |
| Server.Spread | server.js:118 | `push(...rows)` adds an array's items, a string's characters one by one, and throws on anything else |
| Server.Page | server.js:116-119 | an answer adds nothing unless `success === true`, else the spread of its content |
| Server.GatherFacts | server.js:109-120 | the loop fails exactly when some uid's request or spread throws, and otherwise collects exactly the rows the uids contributed |
| Server.Merged | server.js:123-129 | the de-duplication fails exactly when a collected record is `null` or `undefined` |
| Server.MergedFacts | server.js:122-131 | one record per order id, every id kept, only input records; with numeric recency each survivor is the newest of its id, first seen among equals |
| Server.Shape | server.js:84-100 | a row keeps its record and id, its symbol is the pair, a missing close price is 0, and its margin share is margin over notional in percent |
| Server.NormalizeAll | server.js:58-102 | shaping fails exactly when a symbol makes `toPair` throw |
| Server.NormalizeAllFacts | server.js:84-101 | the rows are a reordering of the shaped records, newest first, equal times in input order |
| Server.AnswerFacts | server.js:122-132 | a collected `null` fails the route; an answer is newest first, one row per id, only shapes of collected records |
| Server.ContributedAnswer | server.js:123-132 | the same for any collection holding exactly the contributed rows |
| Server.ReplyFacts | server.js:131-132 | the shaped merged records are newest first, with distinct ids, each the shape of a collected record |
| Server.HandleFacts | server.js:104-136 | the route fails when a request or spread throws or a `null` is contributed; an answer is newest first, one row per id, only contributed records |
| Server.StringContentSpreads | server.js:117-118 | a string `content` adds one one-character record per character |
| OrdersApi.Uids | functions/api/orders.js:37 | every uid asked is non-empty, trimmed and comma-free |
| OrdersApi.UidsDefault | functions/api/orders.js:10-37 | without a `uids` parameter the built-in list is asked, in order |
| OrdersApi.DefaultRepeats | functions/api/orders.js:10 | the built-in list has 51 entries and names 87698388 twice, at positions 8 and 21 |
| OrdersApi.UidsGiven | functions/api/orders.js:37 | a clean comma-separated list in the parameter is asked as written |
| OrdersApi.Limit | functions/api/orders.js:38 | a missing or empty `limit` means 50 |
| OrdersApi.Ask | functions/api/orders.js:51-52 | the main endpoint is always asked first |
| OrdersApi.AskFacts | functions/api/orders.js:51-56 | the mirror is asked exactly when the main endpoint answered 403, 404 or 451, and then its answer is used; a thrown fetch is passed on |
| OrdersApi.Gather | functions/api/orders.js:41-59 | every gathered record is an object tagged with one of the asked uids |
| OrdersApi.TaggedAppend | functions/api/orders.js:57 | records of the first uid followed by records of the rest are all tagged with an asked uid |
| OrdersApi.GatherFails | functions/api/orders.js:42-59 | gathering fails exactly when some uid's fetch throws |
| OrdersApi.Pair | functions/api/orders.js:20 | an absent symbol becomes `""` but `null` becomes `"null"`; a symbol without an underscore is kept |
| OrdersApi.ShapeFacts | functions/api/orders.js:67-86 | the row keeps its record and id, the leverage is never 0, the margin is the reported one or notional over leverage, the notional is the record's `openAvgPrice` times its `amount` (each 0 when not a number), and the margin share is margin over notional in percent, 0 without a positive notional |
| OrdersApi.TraderUidFromTag | functions/api/orders.js:72 | a record without its own `uid` or `traderUid` is attributed to the uid it was fetched for |
| OrdersApi.RowsFacts | functions/api/orders.js:62-87 | newest first, one row per order id, every collected id answered, each row the shape of a collected record |
| OrdersApi.RowsTagged | functions/api/orders.js:57-87 | rows of records tagged with asked uids keep those tags |
| OrdersApi.Handle | functions/api/orders.js:29-93 | 401 exactly when the key check fails; 500 exactly when it passes and some fetch throws |
| OrdersApi.HandleFacts | functions/api/orders.js:29-93 | an answer's rows are newest first, one per order id, each a record fetched for an asked uid; any throw fails the request |
| Proxy.Values | functions/api/call.js:123-129 | the values listed for a name are exactly the values paired with it, never more than the pairs |
| Proxy.Get | functions/api/call.js:95-105 | a name is found exactly when some pair carries it, and then the value is the one of the first such pair |
| Proxy.Drop | functions/api/call.js:155 | `delete(name)` keeps exactly the pairs with other names |
| Proxy.ValuesAppend | functions/api/call.js:123-129 | the values of a name in two lists put together are the values of each, in order |
| Proxy.DropAppend | functions/api/call.js:155 | deleting from two lists put together deletes from each |
| Proxy.ValuesDrop | functions/api/call.js:155 | deleting one name leaves the values of every other name unchanged |
| Proxy.DropTwice | functions/api/call.js:155 | deleting a name twice is the same as deleting it once |
| Proxy.Replace | functions/api/call.js:85 | on a present name the first pair takes the value and later ones go; no other pair changes |
| Proxy.Assign | functions/api/call.js:83-86 | after `set(name, value)` the name holds exactly that value, every other pair is kept in order, and a new name goes to the end |
| Proxy.AssignKeepsOthers | functions/api/call.js:83-86 | setting a name leaves every other name's values unchanged |
| Proxy.AssignIdempotent | functions/api/call.js:85 | setting the same value twice is the same as setting it once |
| Proxy.AssignSingle | functions/api/call.js:85 | setting a name to the single value it already holds changes nothing |
| Proxy.DropNone | functions/api/call.js:155 | deleting an absent name changes nothing |
| Proxy.DropAll | functions/api/call.js:155 | after deleting a list of names none of them has a value, and every other name keeps its values |
| Proxy.AddCors | functions/api/call.js:26-31 | the three CORS headers end up holding exactly their values, and every other header is as it was |
| Proxy.GuardAsWrittenAdmitsIpv6Loopback | functions/api/call.js:63-80 | the guard as written lets `http://[::1]/` through, because the hostname keeps its brackets |
| Proxy.IsSafeTarget | functions/api/call.js:63-80 | only parsable http(s) URLs pass; the corrected guard admits nothing the one as written refuses, and refuses in addition only the bracketed loopback |
| Proxy.IsSafeTargetRefusesLocal | functions/api/call.js:68-75 | every loopback name in both spellings and any case, every `.localhost` subdomain and the link-local range are refused |
| Proxy.GuardIgnoresCase | functions/api/call.js:67 | the guard does not depend on the case of the hostname |
| Proxy.MergeLimit | functions/api/call.js:82-87 | without a limit the target is used as given; with one, its `limit` parameter holds exactly that value and nothing else in the URL changes |
| Proxy.MergeLimitIdempotent | functions/api/call.js:82-87 | merging the same limit into an already merged URL changes nothing |
| Proxy.Method | functions/api/call.js:105-108 | a method parameter naming one of the five methods, in any case, wins; otherwise the request's own method upper-cased, `GET` when empty |
| Proxy.MethodFacts | functions/api/call.js:105-108 | the chosen method is upper case, and the parameter is read without regard to case |
| Proxy.ForwardHeaders | functions/api/call.js:121-130 | exactly the incoming headers other than hop-by-hop ones, `host` and `x-api-key` are forwarded, with their values |
| Proxy.ForwardStripsGateway | functions/api/call.js:124-127 | the gateway key, `host` and every hop-by-hop header never go upstream |
| Proxy.CallUrl | functions/api/call.js:103 | `callUrl` wins when non-empty; otherwise `callURL` |
| Proxy.Prepare | functions/api/call.js:102-137 | the corrected route: 400 exactly for a missing target or one the corrected guard refuses; otherwise the chosen method, the cleaned headers, a body exactly for body-carrying methods, and the limit merged into the target |
| Proxy.Retrying | functions/api/call.js:52-60 | from a given attempt, only thrown attempts are retried, within the retries left |
| Proxy.FetchWithRetry | functions/api/call.js:52-60 | at most `retries + 1` attempts; a response of any status ends the loop; a final throw comes only after all attempts |
| Proxy.FirstResponseReturned | functions/api/call.js:52-60 | the first response within the allowed attempts is returned, whatever its status |
| Proxy.Json | functions/api/call.js:33-38 | the status and error given, as JSON |
| Proxy.Preflight | functions/api/call.js:22-24 | an empty 204 carrying the CORS headers |
| Proxy.HopByHopNotCors | functions/api/call.js:9-19 | no hop-by-hop header name is a CORS header name |
| Proxy.RelayHeaders | functions/api/call.js:153-157 | relayed headers drop every hop-by-hop one, carry the CORS headers, and keep every other upstream header |
| Proxy.Handle | functions/api/call.js:89-168 | the corrected route: 401 exactly without the key; 400 exactly for a missing target or one the corrected guard refuses; otherwise the upstream outcome |
| Proxy.Call | functions/api/call.js:140-166 | 500 with the last error exactly when both attempts throw; otherwise the first response is relayed with its status, text and body |
| Proxy.RefusedWithoutUpstream | functions/api/call.js:93-115 | a refused request is answered without calling the upstream |
| TopTrades.Insert | app.js:42-43 | inserting into a ranked board keeps it ranked and adds exactly the new trade |
| TopTrades.Sort | app.js:43 | the sort is a permutation ranked by notional, later trades first among equals |
| TopTrades.InsertTop | app.js:41-45 | the board stays ranked, is cut to `topN`, and holds only old trades and the new one |
| TopTrades.AheadNone | app.js:43 | a trade that beats every trade on the board has none ahead of it |
| TopTrades.AheadAll | app.js:43 | a trade that beats none of them has all of them ahead of it |
| TopTrades.InsertSplits | app.js:42-43 | on a ranked board the new trade lands right after the trades it does not beat |
| TopTrades.SortOfRanked | app.js:43 | sorting a ranked board leaves it unchanged |
| TopTrades.InsertTopFacts | app.js:41-45 | the new trade survives exactly when fewer than `topN` trades are ahead of it, and the trades ahead of it stay in place; a short board grows by one |
| TopTrades.Mode | app.js:92-127 | a truthy `m` (buyer is maker) is short, anything else long |
| TopTrades.Received | app.js:86-133 | the trade carries the time, market, symbol, parsed price and quantity, their product as notional, and the side's mode |
| TopTrades.OnMessage | app.js:80-136 | a board of at most 30 ranked trades stays so; only an aggTrade message with data changes it |
| TopTrades.OnMessageFacts | app.js:85-134 | a handled aggTrade message puts its trade right after the trades it does not beat, unless 30 of those are already there |
| Extract.Root | functions/api/AI/recommend-orders.js:10 | a nullish response gives `[]`; a truthy one its `data`, else its `result`, else itself |
| Extract.FirstKeyed | functions/api/AI/recommend-orders.js:17-20 | the first list key whose property is an array, and no earlier one |
| Extract.FirstValued | functions/api/AI/recommend-orders.js:22-24 | the first property whose value is an array, and no earlier one |
| Extract.ExtractArray | functions/api/AI/recommend-orders.js:8-28 | the answer is always an array: the root when it is one, and `[]` for a root that is neither array nor object |
| Extract.ObjectRoot | functions/api/AI/recommend-orders.js:16-27 | for an object root the first list key holding an array wins, then the first property holding one, then `[]` |
| Extract.ArrayIsField | functions/api/AI/recommend-orders.js:22-24 | a property that holds an array is one of the object's fields |
| Extract.PositionsBeforeRows | functions/api/AI/recommend-orders.js:17-20 | the list keys are tried in their own order, not the object's |
| Signing.Present | get-open-positions.js:24 | exactly the entries with a value other than `null` and `undefined` take part |
| Signing.Insert | get-open-positions.js:25 | one insertion step adds the entry and keeps the keys ascending |
| Signing.SortByKey | get-open-positions.js:25 | the entries are permuted into ascending key order and entries with equal keys keep their input order, as a stable sort |
| Signing.AllTiedKeepsOrder | get-open-positions.js:25-25 | when every key compares equal the sort returns its input unchanged |
| Signing.RenderAll | get-open-positions.js:26 | one `key=value` item per entry, in order |
| Signing.Signed | get-open-positions.js:23-25 | the signed entries are the present ones, each once, in ascending key order |
| Signing.ParamString | get-open-positions.js:22-28 | no entries give `""`, a single entry gives its rendering, and when no rendered pair holds `&` splitting the string at `&` gives back every rendered pair in sorted order |
| Signing.ParamStringEmpty | get-open-positions.js:22-28 | the string is empty exactly when no entry is signed |
| Signing.Payload | get-open-positions.js:31-32 | the signed text is the access key, then the time, then the parameter string |
| Signing.RequestUrl | get-open-positions.js:51 | the query is attached with `?` exactly when the parameter string is non-empty |
| Signing.Query | get-open-positions.js:38-40 | the query holds `symbol` exactly when the command line gives a non-empty one |
| Signing.BuildRequest | get-open-positions.js:10-58 | a missing key ends with exit code 1 |
| Signing.BuildRequestFacts | get-open-positions.js:36-58 | without a symbol the URL has no query and the signature covers the key and time only; with one, both carry `symbol=<encoded>` |
| Signing.Finish | get-open-positions.js:60-75 | the positions when the answer says success; exit code 2 for an answer without success and 3 for a thrown request |

## Notes

Where the code's behaviour differs from what a reader of the design would
expect, the model follows the code:

- A `null` or `undefined` record in a trader's history makes the
  open-entry worker throw while normalising it; the worker pool catches
  this, so that trader contributes no entries at all
  (`OpenEntries.NullRecordDropsTrader`).
- The notification endpoint's prices lookup and Slack post sit inside its
  `try`: a rejected `fetch` there answers 500 before the new state is
  written (`Notification.CheckFacts`).
- Merging keeps the first record seen when two records of one key are
  equally recent: every merge loop compares with a strict `>`
  (`Merge.NewestWins`).
- The retry loops retry every non-ok status, not only 429, 403 and 5xx: a
  400 or 404 is thrown inside the `try`, caught, and retried after the
  error pause (`Retry.NonDenialIsRetried`).
- `/api/orders` and the local server fail the whole request when one uid's
  fetch throws (`OrdersApi.GatherFails`, `Server.GatherFacts`); only
  `leader.js` isolates failures per uid (`Leader.SettledRows`).
- `leader.js` and `server.js` `toPair` throw on a truthy non-string symbol,
  while `/api/orders` `pair` goes through `String(s)`, so a `null` symbol
  becomes `"null"` (`OrdersApi.Pair`).
- The local server spreads a string `content` character by character
  (`Server.StringContentSpreads`).
- The built-in uid list of `/api/orders` names 87698388 twice, so that
  trader is fetched twice (`OrdersApi.DefaultRepeats`); the merge makes
  the repeat harmless.
- The notification fingerprint is not cleared by a quiet run, so a diff
  identical to the last one posted stays suppressed
  (`Notification.QuietRunKeepsFingerprint`); a row without a price is
  shown against a market price of 0 (`Notification.UnpricedRowShowsFullLoss`).
- The MEXC exporter's uid column reads `o.traderUid`, not the uid the
  walker tagged the record with (`MexcRows.DerivedColumns`).
- The `+` to `%20` replacement in the signing script is kept, although
  `encodeURIComponent` never produces `+`.

## Left out

- Merge.MergeFacts: order ids are compared by value (`Merge.Find`,
  `Merge.Put`, `Notification.Key`), while a JavaScript `Map` tells object
  or array keys apart by identity, so two parsed records whose
  `orderId || id` is an equal array or object stay two entries in the
  source and are one in the model; the merge contracts hold as the source
  behaves only for primitive ids.
- Network I/O, timers and sleeps, jitter and `Math.random`: upstream
  answers, clock readings and random draws are parameters; the pauses are
  recorded as events or dropped.
- Concurrency: the `pLimitAll` worker pools, `Promise.all` and
  `Promise.allSettled` are modelled as the sources processed one after
  another; interleavings and completion order are not modelled.
- Floating point: numbers are exact reals; NaN and Infinity are left out,
  and the sort keys read non-numbers as 0.
- `Js.ToNumber` parses plain decimals only (no exponent, hex or
  `Infinity`), and `Js.ToStr` writes fractions as a truncated decimal
  expansion rather than the shortest round-trip form.
- Number and date rendering (`fmt`, `toFixed`, `toLocaleString`, the
  Ho Chi Minh time-zone stamps): parameters or left out; the models keep
  the numbers.
- Slack message text and block layout, the console tables and colours,
  CSV file creation: only the data they are built from is modelled.
- The price cache of `leader.js` and of the notification endpoint. The
  prices the notification endpoint fetches only shape its message text,
  so only whether that `fetch` rejects is modelled (`Notification.Calls`).
- The notification state's `ordersById` map: it is written but never read.
- The ranking fields of the Binance trader list (pnl, win rate,
  followers): they are never read again.
- `Headers` name normalisation and the combining of repeated header
  values: header names arrive lower-case and one pair per name.
- URL parsing, `URLSearchParams` serialisation, `encodeURIComponent`,
  `localeCompare` and HMAC-SHA256 are parameters.
- The WebSocket connections and their reconnect timers in `app.js`; the
  liquidation stream, which is received but never used.
- `functions/api/AI/recommend.js` and `src/index.ts` are not part of this
  model.
- MexcWalker.LoopFacts: the walk runs on fuel (one unit per page); the walk's
  termination is proved under the upstream's stopping conditions, not for
  every upstream.
- BinanceHistory.FetchAllFacts: the page walk runs on fuel, with the same
  reason.
- BinanceOrders.ChainCovers: proved for whole cursors; a fractional cursor
  is modelled but not proved to visit every uid.
- Extract.FirstValued: fields are searched in insertion order;
  `Object.values` lists integer-like keys first, which is not modelled.
- Notification.DiffOrders: its own contract bounds only the sizes; the
  membership facts are in `Notification.DiffFacts`.
- NameShortens: text is a sequence of code points, while `.length` counts
  UTF-16 code units, so a nickname with characters above U+FFFF (emoji) is
  shortened by the program sooner than by `EntryRows.Short`.
- Method: `toUpperCase` is modelled on ASCII letters only (`Text.ToUpper`,
  `Text.ToLower`); full Unicode case mapping, such as `ſ` becoming `S`, is
  not, so `?method=poſt` is not read as POST.
- MethodFacts: "without regard to case" holds for ASCII letters only, for
  the same reason.
- Js.Spread: spreading a string or an array copies nothing in the model,
  while JavaScript copies its characters or items under index keys;
  `Js.With` builds on it and has the same gap.
- LexLess: strings are compared by code point; JavaScript compares UTF-16
  code units, which orders characters above U+FFFF before U+E000..U+FFFF.
- EntryTraders: a `TRADER_LIMIT` that is NaN or infinite is not modelled,
  as numbers are exact reals.
- BinanceOrders.HandleFacts: a rejected `fetch` of an order-history page
  (functions/api/binance/orders.js:113-118), which makes the handler answer
  500 (lines 259-263), is not expressible: the history lookup always
  answers, with no page for a reply that is not ok.
- Init: negative configured rates are not modelled; the start state is
  valid only for non-negative START_RPS and MIN_RPS.

## Findings

| source | as written | input that shows it | evidently intended | confidence | as-written member | corrected member |
|---|---|---|---|---|---|---|
| functions/api/call.js:71 | the loopback check compares the hostname with `"::1"`, but the URL parser keeps the brackets of an IPv6 hostname | `callUrl=http://[::1]/`: hostname `[::1]` passes the guard | the IPv6 loopback is refused like `localhost` and `127.0.0.1` | high; not executed | Proxy.GuardAsWrittenAdmitsIpv6Loopback | Proxy.IsSafeTarget |
| functions/api/prices.js:80 | the 401 branch calls `jsonRes`, which this module does not define | `INTERNAL_API_KEY=k` and a request carrying `x-api-key: x`: the handler throws a `ReferenceError` outside its `try` | answer 401 with the JSON error, as `/api/orders` and `/api/call` do | high; not executed | Prices.HandleAsWritten | Prices.Handle |
| fetch-mexc-orders-to-csv.mjs:43-60 | the bucket admits a request whenever `tokens > 0` and then subtracts one, while `MAX_RPS` (line 17) may be fractional | `--rps=2.5` and three requests with no time passing: all three are admitted and the bucket holds -0.5 tokens (`Bucket.AsWrittenOverdraws`) | admit only when a whole token is there, so the count stays between 0 and the bucket size | medium; not executed | Bucket.PollAsWritten | Bucket.Poll |
