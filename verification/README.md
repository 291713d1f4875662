# DEX front-end session model

A Dafny model of the local logic of the decentralized-exchange client's `App` component
(`client/src/App.js`). The component keeps a session snapshot — token catalog, the user's
accounts, balances and selected token, the order book of the selected token, and the trade
history streamed by a `NewTrade` subscription — and refreshes it after user actions and
selection changes. Every ledger call is asynchronous and foreign, so the model treats the
component as a pure state machine: each awaited reply (a read's value or its rejection, a
transaction's confirmation or revert) is an argument of the transition that awaits it.

Modules:

- `Ledger` (`ledger.dfy`): tokens, balances, orders, the order-book pair, the order side,
  and the joins of the reads behind `getBalances` (two sequential reads) and `getOrders`
  (two reads joined with `Promise.all`).
- `TradeFeed` (`trade_feed.dfy`): one subscription's trade list and private seen-id set;
  the `data` handler that drops redelivered ids; deliveries of a whole event sequence.
- `MyOrders` (`my_orders.dfy`): ASCII lower-casing and the per-side filter that keeps the
  orders whose trader is the user's first account.
- `App` (`app.dfy`): the session record, its transitions (mount, `selectToken`, the
  selection effect, `deposit`, `withdraw`, order creation, trade arrival), the invariant
  they preserve, and runs of arbitrary event sequences.
- `Subsequence` and `Optional` (`subsequence.dfy`, `optional.dfy`): a subsequence predicate
  with its lemmas, and the `Option` type used for the not-yet-selected token.

A rejected promise or a `TypeError` (reading `selectedToken.symbol` while no token is
selected, reading the first token of an empty catalog) ends the async step before any state
setter runs, so in the model such a step returns the session unchanged.

Two behaviours of the code shape what the model claims:

- The code calls `listenToTrades`, which clears the trade list, only after both reads of a
  selection refresh have succeeded (App.js:141-145). After a rejected read the new token is
  selected while the old subscription and its trade list remain.
  `App.FailedSwitchKeepsOldListener` states this, so `App.Inv` does not claim that the
  subscription always matches the selected token.
- The code passes the listener cleanup as a third argument to `useEffect`, which React never
  calls (App.js:154-156), so no listener is ever released. The model tracks only the current
  subscription (see "Left out").

## Model

| member | source | states |
|---|---|---|
| `Ledger.FetchBalances` | client/src/App.js:33-41 | the balance read succeeds exactly when both the exchange read and the wallet read succeed, and then carries those two values |
| `Ledger.FetchOrders` | client/src/App.js:43-53 | the order-book read succeeds exactly when both side reads succeed; the buy slot holds the buy-side reply and the sell slot the sell-side reply |
| `App.Initial` | client/src/App.js:16-31 | the first state has no token, no accounts, zero balances, empty order book, no subscription, and satisfies the session invariant |
| `App.SelectToken` | client/src/App.js:55-57 | only the selected token changes, and it becomes the chosen token |
| `App.Deposit` | client/src/App.js:59-68 | only balances can change; they become the freshly read values exactly when a token is selected, approval and deposit are confirmed and both reads succeed, otherwise the session is unchanged |
| `App.Withdraw` | client/src/App.js:70-76 | only balances can change; they become the freshly read values exactly when a token is selected, the withdrawal is confirmed and both reads succeed; a failed withdraw leaves the session unchanged |
| `App.CreateOrder` | client/src/App.js:78-101 | only the order book can change; it becomes the freshly read pair exactly when a token is selected, the order transaction is confirmed and both side reads succeed |
| `TradeFeed.Start` | client/src/App.js:104-105 | a new subscription has an empty trade list and an empty seen-id set, which are consistent |
| `App.ListenToTrades` | client/src/App.js:103-117 | subscribing to a token changes only the feed and the listener: the listener is that token and the feed is empty and consistent |
| `TradeFeed.OnTrade` | client/src/App.js:111-115 | an already seen id leaves the feed unchanged; a new id appends exactly that payload after the unchanged earlier entries and adds the id to the seen set |
| `TradeFeed.OnTradeKeepsConsistent` | client/src/App.js:112-114 | the handler keeps the seen set equal to the ids on the list and the listed ids pairwise distinct |
| `TradeFeed.DeliverSeen` | client/src/App.js:112-113 | after any sequence of deliveries the seen set is the earlier seen set plus every delivered id |
| `TradeFeed.DeliverKeepsConsistent` | client/src/App.js:111-115 | seen set equal to the listed ids, and distinct ids, hold after any sequence of deliveries |
| `TradeFeed.DeliverAppendOnly` | client/src/App.js:114 | deliveries only append: every earlier entry keeps its position and value |
| `TradeFeed.RedeliveryChangesNothing` | client/src/App.js:112 | delivering an id that was seen before or delivered earlier in the run leaves the feed as it was |
| `TradeFeed.DeliverFromStartIsFirsts` | client/src/App.js:103-117 | from a fresh subscription the list equals the reference list of first occurrences of each id, taken in delivery order |
| `TradeFeed.DeliverFromStart` | client/src/App.js:103-117 | from a fresh subscription the list equals the reference list of first occurrences in delivery order; it is a subsequence of the deliveries holding no event more often than it was delivered, and it holds every delivered id exactly once |
| `App.TradeArrives` | client/src/App.js:111-115 | only the feed changes; without a subscription or for a seen id nothing changes; a new id is appended and recorded |
| `App.Mount` | client/src/App.js:119-136 | the session changes only when the catalog is non-empty and both reads succeed; then catalog, accounts, first token as selection and subscription, read balances and order book, and an empty feed are installed |
| `App.SelectionEffect` | client/src/App.js:138-153 | nothing happens while no token is selected; catalog, accounts and selection are never touched; when both reads succeed the subscription moves to the selected token, the feed restarts empty and balances and orders are replaced; a rejected read changes nothing |
| `App.StepKeepsInv` | client/src/App.js:55-153 | every transition keeps the feed consistent, keeps the list empty without a subscription, and subscribes only once a token is selected |
| `App.RunKeepsInv` | client/src/App.js:55-153 | the session invariant holds after any sequence of events |
| `App.Reachable` | client/src/App.js:103-117 | in every session reachable from the initial one, the current subscription's seen set equals the ids on its list and that list holds no id twice; trades appended by earlier, unreleased listeners are outside this claim |
| `App.ArrivalsDeliver` | client/src/App.js:106-115 | a run of trade arrivals at a subscribed session changes only the feed, exactly as the handler's deliveries do |
| `App.SwitchToken` | client/src/App.js:138-153 | selecting a token whose reads succeed subscribes to it with a cleared list; later arrivals yield exactly the subscription's deduplicated deliveries, with accounts and catalog untouched |
| `App.FailedSwitchKeepsOldListener` | client/src/App.js:140-151 | when a read after a selection change rejects, the new token is selected but the old subscription and trade list stay |
| `MyOrders.LowerChar` | client/src/App.js:190-191 | upper-case ASCII letters map to their lower-case letter, every other character to itself; no result is upper-case |
| `MyOrders.Lower` | client/src/App.js:190-191 | lower-casing keeps the length and lower-cases each character in place |
| `MyOrders.LowerIdempotent` | client/src/App.js:190-191 | lower-casing an already lower-cased string changes nothing |
| `MyOrders.MineOf` | client/src/App.js:188-197 | the kept orders form a subsequence of the side; each has the account as trader ignoring case; each such order of the side is kept as often as it occurs and no other order is kept |
| `MyOrders.MineOfCaseInsensitive` | client/src/App.js:190-196 | two spellings of the same account that differ only in case select the same orders |
| `MyOrders.MineOfIdempotent` | client/src/App.js:188-197 | filtering an already filtered side changes nothing |
| `MyOrders.MyOrdersOf` | client/src/App.js:186-198 | with no account the view fails exactly when some side is non-empty; otherwise each side of the view is a subsequence of the book's side holding exactly the first account's orders |

## Left out

- `client/src/util.js`: waiting for the browser `load` event, wallet detection, provider setup and contract construction are I/O plumbing.
- Every web3 call (`traderBalances`, `balanceOf`, `getOrders`, `getTokens`, `approve`, `deposit`, `withdraw`, `createMarketOrder`, `createLimitOrder`, `send`) and the byte conversions `fromAscii`/`hexToUtf8`: foreign calls whose replies are parameters; catalog symbols arrive already decoded.
- The arguments of the transactions (amount, price, side, spender, sender address): they only shape the foreign call and never reach the session state.
- `Promise.all` concurrency and timing (App.js:44, 126, 141): replies are taken as already settled, and no ordering, race or stale completion between refreshes is modelled. `App.Run` applies events in any order, which covers more interleavings than React allows.
- The listener cleanup at App.js:154-156 is never invoked and earlier listeners are never released. They keep appending to the shared trade list with seen sets of their own. The model tracks only the current subscription. It does not claim that old subscriptions stop, or that no stale or duplicate trade reaches the shared list.
- Startup already leaves two live listeners on the first token. The mount effect subscribes (App.js:130). Its `setUser` (App.js:132) then moves `selectedToken` away from `undefined`, which re-runs the selection effect and subscribes again (App.js:145). Both listeners replay from block 0 with separate seen sets, so the shared list can receive each trade twice. The model's trade list is that of the latest subscription alone.
- The symbol filter of the `NewTrade` subscription (App.js:107-108) is applied by the foreign event stream. `App.TradeArrives` accepts a trade of any ticker, and the model does not claim that delivered trades belong to the subscribed token.
- `App.SelectToken`: `selectToken` spreads the `user` captured at the last render, so a balance refresh that lands between that render and the click is overwritten; the model reads the current session instead.
- React's dependency check for the selection effect (the effect re-runs when `selectedToken` changes by reference); the model lets the effect run at any time and only models its guard and body.
- `MyOrders.LowerChar`: JavaScript's `toLowerCase` maps all of Unicode; the model lower-cases ASCII letters only, which covers hexadecimal addresses.
- Numbers from the ledger (balances, amounts, prices, dates) are strings of unsigned integers in web3; they are modelled as `nat`. Token and order equality is structural rather than by object identity.
- JSX rendering, the loading screen and the `"DAI"` ticker toggles (App.js:159-161, 175, 182).
