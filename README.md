# Order book engine — a Dafny model

This project models the order-book engine of a React Native crypto order-book
app. The engine keeps one map per side from price to quantity. It fills both
maps wholesale from a feed snapshot and updates them level by level from feed
deltas. On demand it derives the rendered book:

- each side sorted by descending price;
- prices grouped into ticket-size buckets;
- at most ten rows per side, taken nearest the spread;
- for each row, a running total and a depth percentage on one scale shared by
  both sides.

It also models the app component's message handler, which routes each decoded
message to the snapshot or delta path, and the market toggle.

Modules, one per file:

- `Types` (`types.dfy`): the decoded feed message, the view rows, the markets
  and their ticket sizes. Feed numbers are exact reals.
- `Levels` (`levels.dfy`): a JavaScript `Map<number, number>` as the class
  `PriceMap`, whose `entries` field its methods reassign, and `processDelta` as
  a method over two `PriceMap`s. The functions `ApplyLevels` and `EntriesToMap`
  state what a delta and a snapshot do to a side.
- `Grouping` (`grouping.dfy`): the descending sort, the bucket of a price, and
  `groupByTicketSize`. Grouping is modelled as a fold into an insertion-ordered
  list of distinct buckets, the way a JavaScript `Map` iterates.
- `ViewBuilder` (`view_builder.dfy`): the two windows, the running-total loops
  of `calculateTotalsForAsks` / `calculateTotalsForBids`, and `updateOrderBook`,
  proved against the specification function `View`.
- `AppState` (`app.dfy`): the app component as the class `App`. It holds the
  two map refs, the selected market and ticket size, and the rendered book.
  `processMessage`, `refreshOrderBook` and `toggleFeed` are its methods.
- `Scenarios` (`scenarios.dfy`): the worked examples of
  `src/utils/__tests__/orderbook.tests.ts`, stated as lemmas on the model.

Ask totals: asks are listed highest price first and the running sum grows
down the list. So the first ask row shows its own size, and the best (lowest)
ask, shown last, carries the whole displayed ask total
(`ViewBuilder.AskRowsArePrefixSums`, `ViewBuilder.ViewTotals`).

## Model

| member | source | states |
|---|---|---|
| Types.TicketSizes | src/constants/index.ts:3-6 | each market offers three ticket sizes, all positive and strictly increasing |
| Levels.ApplyLevels | src/utils/OrderBook.ts:9-23 | one side after a delta's levels in arrival order; characterised by ApplyLevelsAppend, ApplyLevelsUntouched, ApplyLevelsLastWins and ApplyLevelsKeepsNoZero |
| Levels.EntriesToMap | src/App.tsx:107-108 | the side `new Map(entries)` builds; characterised by EntriesToMapKeys and EntriesToMapLastWins |
| Levels.ApplyLevel | src/utils/OrderBook.ts:9-15 | a zero-size level deletes its price; any other size sets it; every other price keeps its presence and its size |
| Levels.ApplyLevelsAppend | src/utils/OrderBook.ts:9-15 | applying a delta's levels in two parts has the same effect as applying them all in one pass |
| Levels.ApplyLevelsUntouched | src/utils/OrderBook.ts:9-23 | a price no level of the delta names keeps its presence and its quantity |
| Levels.ApplyLevelsLastWins | src/utils/OrderBook.ts:9-23 | the last level naming a price decides it: present with that size if the size is non-zero, absent if it is zero |
| Levels.ApplyLevelsKeepsNoZero | src/utils/OrderBook.ts:9-23 | a side holding no zero quantity holds none after any delta |
| Levels.EntriesToMapKeys | src/App.tsx:107-108 | a side built from a snapshot holds exactly the prices its entries name |
| Levels.EntriesToMapLastWins | src/App.tsx:107-108 | in a snapshot side the last entry for a price gives its quantity, zero included |
| Levels.SnapshotKeepsZero | src/App.tsx:107-108 | a snapshot entry of size zero is stored as zero, while the same level in a delta removes the price |
| Levels.PriceMap.FromEntries | src/App.tsx:107-108 | `new Map(entries)` holds EntriesToMap of the entries |
| Levels.PriceMap.Set | src/utils/OrderBook.ts:13 | `set` overwrites one price and changes nothing else |
| Levels.PriceMap.Delete | src/utils/OrderBook.ts:11 | `delete` removes one price and changes nothing else |
| Levels.PriceMap.ApplyAll | src/utils/OrderBook.ts:9-15 | the per-side loop leaves the map at ApplyLevels of its old contents and the levels |
| Levels.ProcessDelta | src/utils/OrderBook.ts:4-26 | updates both maps in place and returns the same two objects; asks get the ask levels and bids the bid levels; if both arguments are one map, it gets the ask levels followed by the bid levels |
| Grouping.SumSizes | src/utils/OrderBook.ts:88-89 | the reduce-sum of a side's sizes; characterised by SumSizesAppend and SumSizesPrefixBounds |
| Grouping.SumSizesAppend | src/utils/OrderBook.ts:88-89 | the sum of sizes distributes over concatenation |
| Grouping.SumSizesPrefixBounds | src/utils/OrderBook.ts:88-89 | with no negative size, every prefix sum lies between 0 and the whole sum |
| Grouping.SortDesc | src/utils/OrderBook.ts:82-83 | the entries of a side sorted by descending price; SortDescLists and SortDescCharacterized prove it is the one descending listing of the side |
| Grouping.MaxKey | src/utils/OrderBook.ts:82-83 | the chosen price is in the side and no price of the side is higher |
| Grouping.ListsDescendingUnique | src/utils/OrderBook.ts:82-83 | a side has only one listing that is strictly descending by price and covers each entry exactly once |
| Grouping.SortDescLists | src/utils/OrderBook.ts:82-83 | the sorted entries are strictly descending, each carries its price's quantity, and every price of the side appears |
| Grouping.SortDescCharacterized | src/utils/OrderBook.ts:82-83 | a list is such a descending listing of the side if and only if it equals the sort's result |
| Grouping.Bucket | src/utils/OrderBook.ts:30 | the bucket of a price is at most the price and more than the price less one ticket size |
| Grouping.BucketMonotone | src/utils/OrderBook.ts:30 | a lower price never falls into a higher bucket |
| Grouping.AddToBucket | src/utils/OrderBook.ts:31-32 | `map.set(b, (map.get(b) \|\| 0) + size)` on an insertion-ordered map; characterised by AddToBucketShape |
| Grouping.GroupByTicketSize | src/utils/OrderBook.ts:28-37 | the fold of every level into its bucket; characterised by GroupedDistinct, GroupedBuckets, GroupedSum, GroupedDescending and GroupedNonNegative |
| Grouping.AddToBucketShape | src/utils/OrderBook.ts:31-32 | adding to a bucket of a distinct-key list keeps the keys distinct; an existing bucket grows by the size in place; a new bucket is appended at the end |
| Grouping.GroupedDistinct | src/utils/OrderBook.ts:28-37 | every bucket is listed once |
| Grouping.GroupedBuckets | src/utils/OrderBook.ts:28-37 | the buckets listed are exactly the buckets of the input prices, and each holds the summed size of the levels in it |
| Grouping.GroupedSum | src/utils/OrderBook.ts:28-37 | grouping preserves the total size |
| Grouping.GroupedDescending | src/utils/OrderBook.ts:28-37 | levels in descending price order give buckets in strictly descending order, the last bucket being that of the last level |
| Grouping.GroupedNonNegative | src/utils/OrderBook.ts:28-37 | no negative size in, no negative bucket size out |
| ViewBuilder.AskWindow | src/utils/OrderBook.ts:85 | `slice(-10)` keeps the last min(n, 10) buckets |
| ViewBuilder.BidWindow | src/utils/OrderBook.ts:86 | `slice(0, 10)` keeps the first min(n, 10) buckets |
| ViewBuilder.Max | src/utils/OrderBook.ts:90 | the result is at least both arguments and equals one of them |
| ViewBuilder.Depth | src/utils/OrderBook.ts:50 | depth is 0 on an empty scale, 100 for the total equal to the scale, and within [0, 100] for a total between 0 and a positive scale |
| ViewBuilder.DepthIsShare | src/utils/OrderBook.ts:70 | depth times the scale equals the total times 100 |
| ViewBuilder.AskRows | src/utils/OrderBook.ts:59-75 | the ask rows; characterised by AskRowsArePrefixSums and AskRowsDepthBounded |
| ViewBuilder.BidRows | src/utils/OrderBook.ts:39-57 | the bid rows; characterised by BidRowsAreSuffixSums, BidRowTotalBounded and BidRowsDepthBounded |
| ViewBuilder.Render | src/utils/OrderBook.ts:88-95 | the rows of both windows on the shared scale; characterised by RenderRows, RenderScale, RenderFullRow, RenderDepthBounded, RenderShown and RenderTotals |
| ViewBuilder.View | src/utils/OrderBook.ts:77-96 | the whole rendered book; characterised by ViewAsksShape, ViewBidsShape, ViewAsksNearestSpread, ViewBidsNearestSpread, ViewTotals, ViewDepthScale, ViewDepthFull and ViewDepthBounded |
| ViewBuilder.CalculateTotalsForAsks | src/utils/OrderBook.ts:59-75 | the loop emits AskRows: each row's total is the sum of the sizes up to and including it |
| ViewBuilder.CalculateTotalsForBids | src/utils/OrderBook.ts:39-57 | the loop emits BidRows: each row's total is the seed less the sizes of the rows before it |
| ViewBuilder.UpdateOrderBook | src/utils/OrderBook.ts:77-96 | the pipeline (sort, group, window, sum, maximum, totals) computes View of the two sides |
| ViewBuilder.AskRowsArePrefixSums | src/utils/OrderBook.ts:63-71 | ask totals are prefix sums: the first is the first size, each adds its own size to the previous total, and the last is the side total |
| ViewBuilder.SuffixSum | src/utils/OrderBook.ts:44-52 | the side total less a prefix sum is the sum of the remaining sizes |
| ViewBuilder.BidRowsAreSuffixSums | src/utils/OrderBook.ts:44-52 | seeded with their own total, bid totals are suffix sums: the first is the side total, each is its size plus the next total, and the last is its own size |
| ViewBuilder.AskRowsDepthBounded | src/utils/OrderBook.ts:70 | with no negative size and a scale covering the side total, every ask depth is within [0, 100] |
| ViewBuilder.BidRowsDepthBounded | src/utils/OrderBook.ts:50 | with no negative size and a scale covering the side total, every bid depth is within [0, 100] |
| ViewBuilder.BidRowTotalBounded | src/utils/OrderBook.ts:44-52 | with no negative size, every bid running total lies between 0 and the side total |
| ViewBuilder.RenderRows | src/utils/OrderBook.ts:92-95 | the rows carry the windows' prices and sizes, position by position |
| ViewBuilder.RenderScale | src/utils/OrderBook.ts:88-93 | the shared scale is the larger displayed side total, and every depth of both sides is computed against it |
| ViewBuilder.RenderFullRow | src/utils/OrderBook.ts:88-93 | on a non-zero scale, the last ask row or the first bid row is at depth 100 |
| ViewBuilder.RenderDepthBounded | src/utils/OrderBook.ts:88-93 | with no negative size in either window, every depth is within [0, 100] |
| ViewBuilder.GroupedSideBuckets | src/utils/OrderBook.ts:82-86 | a grouped side is strictly descending, and its buckets are exactly the buckets of the side's prices |
| ViewBuilder.SideWindow | src/utils/OrderBook.ts:85-86 | any consecutive run of a grouped side's buckets is descending, and each bucket is a side bucket carrying its summed size |
| ViewBuilder.RowsFromBuckets | src/utils/OrderBook.ts:92-95 | rows taken from side buckets keep the descending order, the bucket prices and the bucket sizes |
| ViewBuilder.AskWindowBuckets | src/utils/OrderBook.ts:85 | the ask window holds at most ten side buckets, descending, each with its summed size |
| ViewBuilder.BidWindowBuckets | src/utils/OrderBook.ts:86 | the bid window holds at most ten side buckets, descending, each with its summed size |
| ViewBuilder.ViewAsksShape | src/utils/OrderBook.ts:77-96 | the ask rows number at most ten; they are strictly descending by price; each is a bucket of the asks with that bucket's summed size |
| ViewBuilder.ViewBidsShape | src/utils/OrderBook.ts:77-96 | the bid rows number at most ten; they are strictly descending by price; each is a bucket of the bids with that bucket's summed size |
| ViewBuilder.AskWindowNearest | src/utils/OrderBook.ts:85 | an ask bucket left out of the window lies above every bucket in it, and the window is then full |
| ViewBuilder.BidWindowNearest | src/utils/OrderBook.ts:86 | a bid bucket left out of the window lies below every bucket in it, and the window is then full |
| ViewBuilder.RenderShown | src/utils/OrderBook.ts:92-95 | a price shows as a row exactly when it is a bucket of that side's window |
| ViewBuilder.ViewAsksNearestSpread | src/utils/OrderBook.ts:77-96 | the asks shown are the lowest buckets: an ask bucket not shown lies above every ask row, and it can be missing only when ten rows are shown |
| ViewBuilder.ViewBidsNearestSpread | src/utils/OrderBook.ts:77-96 | the bids shown are the highest buckets: a bid bucket not shown lies below every bid row, and it can be missing only when ten rows are shown |
| ViewBuilder.RenderTotals | src/utils/OrderBook.ts:88-93 | rendered ask totals accumulate down the list; rendered bid totals are each row's size plus the total of the row below |
| ViewBuilder.ViewTotals | src/utils/OrderBook.ts:77-96 | in the view, the first ask total is its own size and each later one adds its size; the last bid total is its own size and each earlier one adds its size to the next |
| ViewBuilder.ViewDepthScale | src/utils/OrderBook.ts:88-93 | every depth of either side is the row's total on the one scale ScaleOf, the larger displayed side total |
| ViewBuilder.ViewDepthFull | src/utils/OrderBook.ts:88-93 | on a non-zero scale, the row at the larger side's total is at depth 100 |
| ViewBuilder.AskWindowNonNegative | src/utils/OrderBook.ts:85 | a side with no negative quantity gives an ask window with no negative size |
| ViewBuilder.BidWindowNonNegative | src/utils/OrderBook.ts:86 | a side with no negative quantity gives a bid window with no negative size |
| ViewBuilder.ViewDepthBounded | src/utils/OrderBook.ts:77-96 | with no negative quantity on either side, every depth in the view is within [0, 100] |
| AppState.RouteOf | src/App.tsx:93-120 | subscription acknowledgements are dropped first, whatever their feed; then the snapshot feed routes to a snapshot of the message's sides, and the delta feed to a delta of its sides |
| AppState.After | src/App.tsx:93-120 | the two stores after one message; characterised by AckIgnored, OtherMessagesIgnored, SnapshotReplaces and DeltaTouchesOnlyNamedPrices |
| AppState.AckIgnored | src/App.tsx:101-104 | an acknowledgement changes neither store |
| AppState.OtherMessagesIgnored | src/App.tsx:95-99 | an unparsable payload, or a message naming neither book feed, changes neither store |
| AppState.SnapshotReplaces | src/App.tsx:105-108 | a snapshot's result does not depend on the prior stores; each side holds exactly the prices its entries name, with the last entry's size |
| AppState.DeltaTouchesOnlyNamedPrices | src/App.tsx:110-117 | a delta leaves alone every price its own side's levels do not name, whatever the other side's levels say |
| AppState.Toggled | src/App.tsx:134-135 | the toggle always picks the other market |
| AppState.ToggleTwice | src/App.tsx:134-135 | toggling twice returns to the starting market |
| AppState.DefaultTicketSize | src/App.tsx:140-141 | the default ticket size is the market's first and smallest: 0.5 for XBTUSD, 0.05 for ETHUSD |
| AppState.TicketSizesPositive | src/constants/index.ts:3-6 | every configured ticket size is positive, so grouping with it is defined |
| AppState.App.constructor | src/App.tsx:21-29 | empty maps, XBTUSD at ticket size 0.5, an empty book |
| AppState.App.Refresh | src/App.tsx:122-125 | the book becomes View of the current maps at the current ticket size; the refs, market and ticket size are unchanged |
| AppState.App.ProcessMessage | src/App.tsx:93-120 | the stores move to After(old stores, message). A snapshot installs two fresh maps and renders the book. Otherwise the refs and the book are unchanged. Valid() is kept: two distinct maps and a configured ticket size |
| AppState.App.ToggleFeed | src/App.tsx:133-142 | selects the other market at its default ticket size; the maps and the book are unchanged |
| Scenarios.DeltaAddsLevel | src/utils/__tests__/orderbook.tests.ts:6-18 | a delta on empty sides adds 1200→10 and 1000→20 |
| Scenarios.DeltaUpdatesLevel | src/utils/__tests__/orderbook.tests.ts:20-41 | a delta overwrites 1200 with 10 and 1000 with 20, and the other prices keep their sizes |
| Scenarios.DeltaDeletesLevel | src/utils/__tests__/orderbook.tests.ts:43-64 | a zero-size delta removes 1200 and 1000, and the other prices keep their sizes |
| Scenarios.SortedPair | src/utils/OrderBook.ts:82-83 | a two-price side sorts its higher price first |
| Scenarios.GroupedApart | src/utils/OrderBook.ts:28-37 | two levels in different buckets stay as two buckets, in order |
| Scenarios.GroupedTogether | src/utils/OrderBook.ts:28-37 | two levels in one bucket merge into one row with their sizes summed |
| Scenarios.SampleView | src/utils/__tests__/orderbook.tests.ts:77-108 | at ticket size 0.5 the sample book renders as asks 1205/1200 with totals 20/70, and bids 1005/1000 with totals 50/40; depths are on the scale 70 |
| Scenarios.SampleRender | src/utils/OrderBook.ts:88-95 | the rows, totals and depths rendered from the two sample windows |
| Scenarios.SampleGroupedAtOne | src/utils/OrderBook.ts:82-86 | at ticket size 1 the sample asks {1200.5: 50, 1200: 20} group into bucket 1200 of size 70, and the sample bids {1000: 40, 1000.5: 10} into bucket 1000 of size 50 |
| Scenarios.SampleViewAtOne | src/utils/__tests__/orderbook.tests.ts:110-127 | at ticket size 1 the rendered book has one ask row (price 1200, size 70) and one bid row (price 1000, size 50) |

## Left out

- The WebSocket lifecycle is not modelled: opening and closing the socket, `subscribe` and `unsubscribe` messages, `killFeed`, `handleError` and the error screen. Subscribing is sending on the network, which the model does not have.
- JSON parsing is not modelled. Messages arrive already decoded, and `Unparsable` stands for a payload on which `JSON.parse` throws. A missing `bids` or `asks` array is taken as empty; for a snapshot this matches `new Map(undefined)`, and for a delta see the `AppState.App.ProcessMessage` line below. The loose `==` comparisons of event and feed names are modelled as string equality, and `product_id` and `numLevels` are not modelled because no core code reads them.
- AppState.App.ProcessMessage: a `book_ui_1` message missing its `asks` array makes `processDelta` throw a TypeError (src/utils/OrderBook.ts:9) before anything changes, so its bids are not applied either. The model treats the missing array as empty and applies the bids. A message missing only `bids` throws after the asks were applied in place, and the model's resulting stores agree with that. The uncaught exception itself is not modelled.
- The `console.log` calls for subscription acknowledgements (src/App.tsx:102,104) are output only and are not modelled; the model drops acknowledgements without effect.
- The 300 ms throttle on the refresh after a delta is a timing policy and is not modelled. After a delta, `AppState.App.ProcessMessage` leaves the rendered book alone; a later `AppState.App.Refresh` renders it.
- `AppState.App.Refresh` assigns `View` of the maps to the book directly. `ViewBuilder.UpdateOrderBook` is the method proved to compute that same `View`.
- React state scheduling is not modelled. `useState` setters are field assignments that take effect at once. The `useEffect` that calls `updateOrderBook` and discards its result (src/App.tsx:40-45) changes no state and is not modelled.
- The presentation components and the group selector are not modelled.
- IEEE-754 doubles are not modelled: prices and sizes are exact reals, so rounding in division, in `Math.floor` on large values and in sums is not captured.
- ViewBuilder.Depth: an empty scale (both displayed sides summing to 0) gives depth 0, where JavaScript computes 0/0 and shows NaN.
- Grouping.Bucket: requires a positive ticket size. The app only ever uses the configured sizes, which are positive (`AppState.TicketSizesPositive`); the source does not guard against zero.
- Grouping.GroupByTicketSize: requires a positive ticket size, for the same reason.
- ViewBuilder.View: requires a positive ticket size, for the same reason.
- AppState.App.ProcessMessage: keeps the two maps distinct (`Valid`), which the app always does. `Levels.ProcessDelta` alone also covers the case of one map passed as both sides.
