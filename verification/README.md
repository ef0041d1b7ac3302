# GPWSim order matching, modelled in Dafny

GPWSim simulates a round-based stock exchange. It has three parts:

- **Investors.** Each investor holds a cash balance and a portfolio of shares. Every round, each investor may place one trade request.
- **Trade request sheet.** This is the matching engine, `stocks.TradeRequestSheet`. For every stock it keeps a buy book, with higher limits first, and a sell book, with lower limits first. Both are `utilities.SortedList`s, which insert stably.
- **Round loop.** Run by `simulation.StockExchangeSimulation`, it does four things each round:
  - records every stock's last price into `simulation.LastTradeData`;
  - asks the investors for decisions in a shuffled order;
  - realises the submitted trades;
  - updates the stored moving averages.

This project models that core as immutable data and pure functions, and proves its properties. A Java exception becomes a `Result` failure (`Results`), named after the exception class.

The modules follow the source:

| module | models |
|---|---|
| `Requests` | requests, expiry policies, `chooseOlderPrice`, the id-issuing factories, all-or-nothing feasibility |
| `Ledger` | the account half of `AInvestor` |
| `SortedList` | `SortedList`: stable add, remove, copy, iterator |
| `Stocks` | `Stock` and `StockManagement` |
| `OrderBook` | one book of the sheet, plus `reduceQuantityOrRemove` and the expiry purge |
| `Matching` | `checkForTradesForStock` and `realiseTrade` for one stock |
| `TradeSheet` | the sheet as a whole: `addRequest`, `checkForTrades`, `removeExpiredRequests`, `realiseSubmittedTrades` |
| `PriceHistory` | `LastTradeData` |
| `Parser` | `utilities.Parser`, over the file's lines |
| `Investors` | `InvestorManagement` |
| `Simulation` | the set-up and `run` |

`Scenarios`, `UnitCases` and `ParserCases` replay the repository's unit tests on the model.

Modelling choices:

- **Identity.** A request is known by its id, an investor by their position, which equals their sequential id, and a stock by its identifier. Java object identity (`indexOf`, `remove`, `contains`) becomes lookup by id.
- **Copies during the sweep.** The sweep walks copies of the books while it changes the live books. As in Java, a request's quantity is always re-read from the live book.
- **Issuing ids.** `RequestManagement`'s static `nextID` is an `Issuer` value that the factories thread through.
- **Investor decisions** are a parameter `decide`.
- **The per-round shuffle** is a parameter `shuffle` that yields a permutation for each round.
- **Stock iteration order.** The sheet records the order in which stocks first got books. The `HashMap` walk follows that order, and the conservation results hold for any walk.

Where the source disagrees with itself, the model follows the code, with one exception: the sweep uses the intended all-or-nothing predicate (last bullet of this list, and `Matching.MatchPair` under "Left out").

- The clearing price is the limit of the older request (lower id), as `RequestManagement.chooseOlderPrice` computes. The older test file `src/tests/TradeRequestSheetTest.java` expects the seller's price; it is superseded by `src/tests/unitTests/TradeRequestSheetTest.java`.
- After a trade the stock's last price becomes the clearing price, but its last-trade round is written back unchanged (`TradeRequestSheet.java:162`). The local `round` read at `TradeRequestSheet.java:150` is never used.
- `ATradeRequest.java` in the repository is a stale file declaring `TradeRequest`. The request record here is built from what `TradeRequestSheet` and the request subclasses use: an id, an investor, a stock, a side, a limit, a remaining quantity and an expiry policy.
- The base-class `considerTrade(List)`, which the sheet calls (`TradeRequestSheet.java:122`), is not in that file. For an ordinary request it is taken to accept every pairing, which is the only reading under which the sheet's non-all-or-nothing tests trade. For an all-or-nothing request it is taken to delegate to the per-request `considerTrade(ATradeRequest)` that `AllOrNothingTradeRequest.java:28-32` overrides. Under that reading the stub makes the fill test at `AllOrNothingRequestTest.java:38-52` fail; without the delegation the fill test passes and the too-few test at lines 54-68 fails instead. The sweep calls the intended predicate `Requests.ConsiderTrade`, which the tests require, not the stub.
- A book is kept in price order and, within one limit, in time priority: the request submitted earlier (smaller id) comes first. Stable insertion of increasing ids produces this order, and the model proves every book operation keeps it.
- An instant request is modelled as valid until its submission round, as `ValidUntilNthRoundTradeRequest.java:47` intends. `InstantTradeRequest.java` has no logic of its own.

## Model

| member | source | states |
|---|---|---|
| Requests.ExactlyOneSide | src/requests/ATradeRequest.java:29-35 | every request is a buy exactly when it is not a sell |
| Requests.ExpiryPolicies | src/requests/ValidUntilNthRoundTradeRequest.java:45-49 | a valid-until request is expired exactly from its last round on; an indefinite request never expires; an all-or-nothing request is always expired |
| Requests.ExpiryIsMonotone | src/requests/ValidUntilNthRoundTradeRequest.java:48 | a request expired at some round is expired at every later round |
| Requests.ChooseOlderPrice | src/requests/RequestManagement.java:12-18 | the price is one of the two limits: the first request's when its id is smaller, the second's otherwise |
| Requests.OlderPriceIsSymmetric | src/requests/RequestManagement.java:13 | for two distinct ids the clearing price does not depend on the argument order |
| Requests.OlderPriceWithinLimits | src/requests/ATradeRequest.java:8-12 | for a compatible pair (buy limit at least sell limit) the clearing price is at least the seller's minimum and at most the buyer's maximum |
| Requests.ReduceQuantity | src/stocks/TradeRequestSheet.java:189 | only the remaining quantity changes, and by exactly the amount |
| Requests.LiquidityIgnoresUnusable | src/tests/unitTests/AllOrNothingRequestTest.java:70-86 | an opposite request at an unacceptable price, or itself all-or-nothing, adds nothing to the liquidity an all-or-nothing request can draw on |
| Requests.LiquidityOfSuffix | src/stocks/TradeRequestSheet.java:117-118 | looking at the opposite book from a later candidate on never finds more liquidity |
| Requests.ConsiderTrade | src/tests/unitTests/AllOrNothingRequestTest.java:38-86 | a request that is not all-or-nothing considers every pairing; an all-or-nothing request considers one exactly when the candidate is not all-or-nothing and the compatible liquidity from the candidate on covers its remaining quantity |
| Requests.ConsiderTradeAsWritten | src/requests/AllOrNothingTradeRequest.java:27-32 | the shipped stub: a pairing is considered exactly when the request is not all-or-nothing |
| Requests.Create | src/requests/RequestManagement.java:31-79 | a factory gives the request the next id and advances it by one; investor, stock, side, limit and quantity pass through; the expiry follows the kind, an instant request being valid until its submission round |
| Requests.InstantExpiresInItsRound | src/requests/ValidUntilNthRoundTradeRequest.java:47 | an instant request is expired in the round it was submitted, so that round's purge removes it |
| Requests.CreateAll | src/requests/RequestManagement.java:7 | requests created in a row get strictly increasing ids, all between the old and the new next id |
| Ledger.Holding | src/investors/AInvestor.java:96-98 | the holding is the portfolio entry, or 0 for a stock not held |
| Ledger.Deposit | src/investors/AInvestor.java:40-45 | a negative amount is refused with IllegalArgument; otherwise only the balance grows, by the amount |
| Ledger.Withdraw | src/investors/AInvestor.java:47-55 | a negative amount is IllegalArgument, more than the balance is InsufficientBalance; otherwise only the balance falls by the amount and stays non-negative |
| Ledger.Buy | src/investors/AInvestor.java:65-75 | succeeds exactly when the cost quantity × price is non-negative and within the balance; then the balance falls by the cost, that stock's holding grows by the quantity and every other holding is unchanged; non-negativity is kept |
| Ledger.Sell | src/investors/AInvestor.java:77-94 | an unheld stock is IllegalArgument and too few shares InsufficientBalance; otherwise the balance grows by quantity × price, that stock's holding falls by the quantity and every other holding is unchanged; non-negativity is kept |
| Ledger.Settle | src/stocks/TradeRequestSheet.java:156-159 | when the buyer can pay and the seller holds the shares, settlement succeeds exactly when the cost quantity × price is non-negative; a settlement keeps the same investors and conserves total cash and every stock's total shares, moves exactly quantity × price and quantity between two distinct investors, and leaves everyone else untouched |
| Ledger.SettleConserves | src/tests/simulationTests/SimpleInvariantTest.java:57-79 | replacing buyer and seller by accounts whose changes mirror each other keeps total cash and every stock's total shares |
| SortedList.ScanFrom | src/utilities/SortedList.java:52-55 | the scan of `add` steps over exactly the elements comparing at most the new one and stops at the first greater one |
| SortedList.Add | src/utilities/SortedList.java:45-57 | the list grows by one, the multiset by exactly the new element, which sits at its insertion point with everything before and after unchanged and after every element comparing equal to it; a sorted list stays sorted |
| SortedList.AddKeepsSorted | src/tests/SortedListTest.java:16-27 | inserting at the insertion point keeps a sorted list sorted, and every element comparing at most the new one stays before it |
| SortedList.AddOfLargestAppends | src/tests/SortedListTest.java:50-62 | an element comparing at least every present one is appended, after all its equals |
| SortedList.AddAll | src/tests/SortedListTest.java:17-22 | a run of adds adds exactly those elements and keeps a sorted list sorted |
| SortedList.Copy | src/utilities/SortedList.java:28-34 | the copy is sorted and holds the same elements |
| SortedList.CopyOfSortedIsIdentity | src/utilities/SortedList.java:22-27 | copying a sorted list gives the same sequence |
| SortedList.IndexOf | src/stocks/TradeRequestSheet.java:117 | the first position holding the element, or -1 exactly when it is absent |
| SortedList.Remove | src/utilities/SortedList.java:68-75 | an absent element changes nothing; otherwise exactly the first occurrence is deleted |
| SortedList.RemoveKeepsSorted | src/utilities/SortedList.java:73-75 | removing an element keeps a sorted list sorted |
| SortedList.DeleteKeepsSorted | src/utilities/SortedList.java:64-66 | deleting any one position keeps a sorted list sorted |
| SortedList.Next | src/utilities/SortedList.java:119-125 | `next()` returns the element at the cursor and advances it by one, and fails with NoSuchElement once the cursor has passed the end |
| SortedList.Traverse | src/utilities/SortedList.java:111-117 | iterating from a cursor visits exactly the elements from that index on, in order |
| SortedList.RemoveEachOfItselfEmpties | src/tests/SortedListTest.java:75-80 | removing every element of a list, in list order, empties it |
| SortedList.DrainThroughCopy | src/tests/SortedListTest.java:64-87 | iterating a copy of a sorted list visits its elements in order, and removing each visited one from the original empties it |
| Stocks.NewStock | src/stocks/Stock.java:20-25 | the constructor stores identifier and price, and sets the last-trade round to 0 whatever round is passed |
| Stocks.UpdateLastTransaction | src/stocks/Stock.java:28-31 | price and round become exactly the given values; the identifier is kept |
| Stocks.GetStock | src/stocks/StockManagement.java:64-69 | a registered identifier yields its stock; an unknown one fails with NoSuchElement |
| Stocks.CreateStock | src/stocks/StockManagement.java:48-55 | a duplicate identifier fails with IllegalArgument; otherwise the new stock is found under its identifier, the registry grows by exactly that one entry, and no other stock changes |
| Stocks.FromPriceMap | src/stocks/StockManagement.java:25-28 | one stock per entry of the price map, filed under its identifier, at its price, with round 0 |
| Stocks.CreateEachBuildsFromPriceMap | src/stocks/StockManagement.java:85-89 | walking the price map in any order that lists each identifier once never meets a duplicate and builds exactly that registry |
| Stocks.UpdatePriceByName | src/stocks/StockManagement.java:98-101 | an unknown identifier fails with NoSuchElement; otherwise only the named stock's price and round change, to the given values |
| OrderBook.BookOrder | src/stocks/TradeRequestSheet.java:15-25 | a sorted buy book lists limits from highest to lowest, a sorted sell book from lowest to highest |
| OrderBook.AddKeepsValid | src/stocks/TradeRequestSheet.java:56-75 | adding a request newer than every request of the book, of the book's side and stock, keeps the book sorted, in time priority within a limit, without repeated ids, with positive quantities and non-negative limits |
| OrderBook.InsertKeepsTimePriority | src/utilities/SortedList.java:45-57 | a request newer than every request of a sorted book lands after all requests at its limit, so equal limits stay in submission order |
| OrderBook.DeleteKeepsTimePriority | src/utilities/SortedList.java:64-66 | deleting any one position keeps the other requests in time priority |
| OrderBook.InsertedAt | src/utilities/SortedList.java:56 | `add` places the request at its insertion point, and nothing else enters the book |
| OrderBook.Locate | src/stocks/TradeRequestSheet.java:118 | the first position holding the request with this id, or -1 exactly when the book has none |
| OrderBook.RemoveRequest | src/stocks/TradeRequestSheet.java:198-204 | an absent id changes nothing; otherwise the book shrinks by one and keeps exactly the requests with other ids |
| OrderBook.RemoveKeepsValid | src/utilities/SortedList.java:69-75 | removing a request keeps a valid book valid (sorted, in time priority, no repeated id), positive and non-negatively priced |
| OrderBook.ReduceOrRemove | src/stocks/TradeRequestSheet.java:182-191 | reducing by more than the remaining quantity fails with IllegalArgument; reducing by exactly it removes the request; otherwise only that request's quantity falls by the amount |
| OrderBook.ReduceOrRemoveKeepsValid | src/stocks/TradeRequestSheet.java:186-190 | reducing or removing keeps a valid book valid, time priority included, and a remaining quantity positive |
| OrderBook.Purge | src/stocks/TradeRequestSheet.java:248-264 | the purge keeps exactly the unexpired requests of the book |
| OrderBook.PurgeOfUnexpired | src/requests/IndefiniteTradeRequest.java:31-34 | a book in which nothing has expired (indefinite requests, for instance) survives the purge whole |
| OrderBook.PurgeKeepsSorted | src/stocks/TradeRequestSheet.java:253-263 | the purge keeps a sorted book sorted |
| OrderBook.PurgeKeepsValid | src/stocks/TradeRequestSheet.java:249-250 | the purge keeps a valid book valid, time priority included, positive and non-negatively priced |
| OrderBook.PurgePositions | src/stocks/TradeRequestSheet.java:253-263 | the survivors of the purge are requests of the book at strictly increasing positions: the purge keeps their order |
| OrderBook.ValidBookDeterminedByContents | src/stocks/TradeRequestSheet.java:15-25 | two books sorted by the same comparator, in time priority and without repeated ids, that hold the same requests are the same sequence; so any operation that keeps a book valid and only removes requests or quantity (the sweep, the purge) keeps the survivors in their order |
| OrderBook.PurgeAsWritten | src/stocks/TradeRequestSheet.java:253-257 | the literal purge loop keeps only requests of the book and never grows it |
| OrderBook.PurgeWalk | src/utilities/SortedList.java:111-125 | the index-based walk over a list that shrinks under it keeps only requests of the list |
| OrderBook.PurgeAsWrittenSkipsSecondExpired | src/stocks/TradeRequestSheet.java:259-263 | on two adjacent expired requests, the literal loop leaves the second in the book, while the filter leaves none |
| Matching.Min | src/stocks/TradeRequestSheet.java:153 | the result is one of the two arguments and at most both |
| Matching.CopyIsTracked | src/stocks/TradeRequestSheet.java:109-110 | every entry of a book's copy is the same request as the live entry with its id |
| Matching.CancelIfUncovered | src/stocks/TradeRequestSheet.java:212-225 | the request is removed, and true returned, exactly when its investor can no longer cover its own remaining quantity at its own limit; otherwise the book is unchanged |
| Matching.CancelKeepsValid | src/stocks/TradeRequestSheet.java:215-220 | a cancellation keeps the book valid and only removes |
| Matching.RealiseTrade | src/stocks/TradeRequestSheet.java:149-173 | for a valid session: books stay valid; investors are the same; cash and shares are conserved; the log only grows, with fair trades for a compatible pair; the stock keeps its last-trade round; books only lose requests or quantity; on well-priced books it never fails and keeps balances and holdings non-negative |
| Matching.Settled | src/stocks/TradeRequestSheet.java:156-164 | the settling branch is one such step, and succeeds whenever the pair can be settled on well-priced books |
| Matching.SettleSucceeds | src/stocks/TradeRequestSheet.java:183-185 | the traded quantity is the smaller remaining one, so neither reduction can throw, and settlement of a settleable pair succeeds |
| Matching.Cancelled | src/stocks/TradeRequestSheet.java:168-172 | the cancelling branch never fails, logs no trade, and is a step that keeps the books valid |
| Matching.SettledOutcome | src/stocks/TradeRequestSheet.java:153-164 | a settled trade returns the settled accounts, the stock at the clearing price with the old last-trade round, both requests reduced or removed, the trade appended to the log, and whether the buy has left its book |
| Matching.RealiseTradeBooks | src/stocks/TradeRequestSheet.java:160-161 | a settled trade reduces or removes each of the two requests by the traded quantity |
| Matching.RealiseTradeLogsTrade | src/stocks/TradeRequestSheet.java:153-162 | a settled trade moves `min` of the two remaining quantities at the older request's limit, which becomes the stock's last price, while its last-trade round stays unchanged |
| Matching.RealiseTradeMovesCashAndShares | src/stocks/TradeRequestSheet.java:158-159 | between two investors, the buyer pays quantity × price and receives the quantity, and the seller the reverse |
| Matching.RealiseTradeFillsOrReduces | src/stocks/TradeRequestSheet.java:160-164 | the side with the smaller quantity leaves its book, the other keeps its place with the difference, and the result says the buy is done exactly when its quantity was the smaller or equal |
| Matching.ReduceOrRemoveListing | src/stocks/TradeRequestSheet.java:186-190 | a request reduced by all it has leaves the book; one reduced by less stays |
| Matching.RealiseTradeFailsOnlyOnNegativeCost | src/investors/AInvestor.java:40-55 | for a settleable pair, settlement fails exactly when the cost quantity × price is negative |
| Matching.RealiseTradeCancels | src/stocks/TradeRequestSheet.java:170-172 | when the pair cannot be settled nothing is settled or logged, each side leaves its book exactly when its investor cannot cover it, and the result says the buy is done exactly when it was cancelled |
| Matching.MatchPair | src/stocks/TradeRequestSheet.java:112-129 | a pair of which either request has left its live book is skipped unchanged; otherwise the pass is a step whose new trades are fair, and on well-priced books it never fails |
| Matching.SweepSells | src/stocks/TradeRequestSheet.java:110-136 | the inner loop is a step whose every new trade is fair, and on well-priced books it never fails and keeps balances and holdings non-negative |
| Matching.SweepBuys | src/stocks/TradeRequestSheet.java:109-137 | the outer loop over a tracked copy of the buys is a step whose every new trade is fair |
| Matching.SweepOfOneBuy | src/stocks/TradeRequestSheet.java:109-110 | for one buy the outer loop is the inner loop over a fresh copy of the sells |
| Matching.CheckForTradesForStock | src/stocks/TradeRequestSheet.java:104-138 | one stock's sweep keeps both books valid; investors are the same; cash and shares are conserved; every trade it logs is fair; books only lose requests or quantity; on well-priced books it never fails and keeps balances and holdings non-negative |
| Matching.SweepStopsAtFirstDearerSell | src/stocks/TradeRequestSheet.java:130-135 | the inner loop over the sells behaves as over the sells before the first one priced above the buy's limit |
| Matching.SweepSellsHalts | src/stocks/TradeRequestSheet.java:112 | with no sell, or a first sell priced above the buy's limit, the inner loop changes nothing |
| TradeSheet.EmptySheet | src/stocks/TradeRequestSheet.java:33-36 | a new sheet has no books |
| TradeSheet.Open | src/stocks/TradeRequestSheet.java:58-59 | after `putIfAbsent` the stock has a book, its old one or an empty one, and no other book changes |
| TradeSheet.FileIn | src/stocks/TradeRequestSheet.java:61 | the request is added to its stock's book, and no other book changes |
| TradeSheet.AddRequest | src/stocks/TradeRequestSheet.java:43-49 | both maps gain the request's stock, and no other stock's books change |
| TradeSheet.Filed | src/stocks/TradeRequestSheet.java:74 | the book the request lands in gains exactly that request |
| TradeSheet.AddRequestFiles | src/tests/unitTests/TradeRequestSheetTest.java:60-75 | a buy lands in its stock's buy book and a sell in its sell book, each growing by one; the opposite book exists afterwards, possibly empty, and is unchanged |
| TradeSheet.AddRequestKeepsWellFormed | src/stocks/TradeRequestSheet.java:56-75 | adding a freshly issued request by a known investor keeps both maps on the same stocks, every book valid and well priced, and every id below the next one |
| TradeSheet.AddRequestKeepsOrder | src/stocks/TradeRequestSheet.java:233-236 | the buy and sell maps keep the same key set, and a stock enters the walk order once, when it first gets books |
| TradeSheet.SweepStock | src/stocks/TradeRequestSheet.java:93-95 | one stock's sweep, written back, keeps the sheet fitting the market, conserves cash and shares, only logs fair trades, and never fails on a well-priced sheet |
| TradeSheet.CheckForTrades | src/stocks/TradeRequestSheet.java:92-96 | the sweep of all stocks, in any walk, does the same for the whole sheet |
| TradeSheet.RemoveExpired | src/stocks/TradeRequestSheet.java:232-240 | every book of every stock is purged with the corrected filter `OrderBook.Purge`; the stocks and the walk order are kept |
| TradeSheet.RemoveExpiredKeepsWellFormed | src/stocks/TradeRequestSheet.java:237-264 | after the corrected purge each book holds exactly its unexpired requests, and the sheet stays well formed and well priced with ids below the same bound |
| TradeSheet.RealiseSubmittedTrades | src/stocks/TradeRequestSheet.java:82-85 | matching then purging (with the corrected filter) keeps the same investors; cash and shares are conserved; the same stocks keep their last-trade rounds; the log only grows, by fair trades; no expired request is left; no id is added; on a well-priced sheet it never fails and keeps balances and holdings non-negative |
| PriceHistory.NewHistory | src/simulation/LastTradeData.java:18-23 | a new history has the given capacity and no data |
| PriceHistory.DefaultHistory | src/simulation/LastTradeData.java:28-30 | the default capacity is 10 |
| PriceHistory.AddTradeData | src/simulation/LastTradeData.java:38-43 | only that stock's window changes; it becomes the newest `capacity` prices of the old window followed by the new price, and no window exceeds the capacity |
| PriceHistory.Grow | src/simulation/LastTradeData.java:39-42 | a window within the capacity, after the price, holds the newest `capacity` prices |
| PriceHistory.WindowKeepsNewest | src/simulation/LastTradeData.java:40-41 | after any run of prices the window is first-in first-out: exactly the newest `capacity` of all prices seen, and bounded |
| PriceHistory.Sma | src/simulation/LastTradeData.java:52-55 | the average is 0 for a stock without data |
| PriceHistory.SmaIsMean | src/simulation/LastTradeData.java:56-58 | `getSMA(n)` times the number of prices it averages is the sum of the newest `n` prices (all of them when fewer) |
| PriceHistory.SmaWithinPrices | src/simulation/LastTradeData.java:58 | a moving average lies between the least and the greatest recorded price |
| PriceHistory.UpdateSma | src/simulation/LastTradeData.java:92-99 | every stock with data gets its current SMA5 and SMA10 stored; other stored values and the windows are unchanged |
| PriceHistory.BuySignal | src/simulation/LastTradeData.java:67-73 | without stored averages it fails with NullPointer; otherwise it holds exactly when current SMA5 is above SMA10 and stored SMA5 was below stored SMA10 |
| PriceHistory.SellSignal | src/simulation/LastTradeData.java:81-87 | the mirror image: current SMA5 below SMA10 after stored SMA5 above stored SMA10 |
| PriceHistory.SignalsExclusive | src/simulation/LastTradeData.java:72 | a buy and a sell signal never hold together |
| PriceHistory.NoSignalRightAfterUpdate | src/simulation/LastTradeData.java:68-71 | right after `updateSMA` neither signal holds: a crossover needs a new price |
| PriceHistory.TestWindow | src/tests/LastTradeDataTest.java:18-23 | the test's ten prices fill the window exactly, and the update stores their averages |
| PriceHistory.FreshWindow | src/simulation/LastTradeData.java:38-39 | as many prices as the capacity, recorded for a stock without a window, make up its window exactly |
| PriceHistory.TestAverages | src/tests/LastTradeDataTest.java:26-30 | over the test's ten prices SMA10 is 8.1 and SMA5 is 8.0 |
| PriceHistory.TestNextWindow | src/tests/LastTradeDataTest.java:34 | the eleventh price pushes out the oldest and leaves the stored averages alone |
| PriceHistory.TestAveragesAfter | src/tests/LastTradeDataTest.java:35 | after the eleventh price SMA10 is 8.7 and SMA5 is 9.0 |
| PriceHistory.CrossoverFires | src/tests/LastTradeDataTest.java:32-36 | with the stored averages of the ten prices and the window after the eleventh, the buy signal holds |
| PriceHistory.ObservedBuySignal | src/tests/LastTradeDataTest.java:16-36 | the whole test: ten prices, an update, then the eleventh price gives a buy signal |
| Parser.Split | src/utilities/Parser.java:52 | `split` on one character: no separator gives the whole string, otherwise the pieces without trailing empty ones, none containing the separator |
| Parser.JoinPieces | src/utilities/Parser.java:67 | the pieces glued back with the separator give the original string |
| Parser.SplitJoin | src/utilities/Parser.java:79 | `split` undoes a join of separator-free pieces whose last piece is not empty |
| Parser.ParseInt | src/utilities/Parser.java:72 | `parseInt` yields a 32-bit value or fails with NumberFormat; an empty string or a lone sign fails; a digit string in range is its decimal value |
| Parser.ParseShow | src/utilities/Parser.java:85 | every 32-bit number written in decimal parses back to itself |
| Parser.CountTypes | src/utilities/Parser.java:49-63 | the types line succeeds exactly when every token is `R` or `S`, else IllegalArgument; the counts are the numbers of `R` and `S` tokens |
| Parser.ReadPairs | src/utilities/Parser.java:67-73 | the loop succeeds exactly when every token splits at `:` into two parts whose number parses, and fails otherwise with IllegalArgument or NumberFormat; on success the map holds exactly the earlier keys and the identifiers named, each with the number of the last token naming it, as the back-to-front reading `LastNamed` finds it |
| Parser.ReadLine | src/utilities/Parser.java:42-87 | a comment line changes nothing; the types line succeeds exactly when every token is `R` or `S` and stores the two counts; the prices line succeeds exactly when every token is a pair and stores the price map; a later line fails with IndexOutOfBounds when it is all spaces, and otherwise succeeds exactly when its first token parses and the rest are pairs, storing the cash and the portfolio and keeping the prices |
| Parser.Finish | src/utilities/Parser.java:91-92 | a map never read is a NullPointer failure; the file is accepted exactly when every portfolio stock is priced |
| Parser.Parse | src/utilities/Parser.java:35-93 | an accepted file's portfolio names only priced stocks |
| Parser.CommentLinesIgnored | src/utilities/Parser.java:43-46 | a comment line can be inserted anywhere in the lines without changing what the reader does |
| Parser.CommentLineIgnoredByParse | src/utilities/Parser.java:44-45 | the same for the whole parse |
| Parser.TooFewLinesFail | src/utilities/Parser.java:39-92 | a file with fewer than three lines that are not comments is not accepted: an earlier line fails, or the portfolio is never assigned |
| Parser.LastPortfolioLineWins | src/utilities/Parser.java:77-87 | a portfolio line's outcome does not depend on an earlier cash or portfolio |
| Parser.ParseRender | src/utilities/Parser.java:24-93 | every configuration the format can express parses back from its rendering |
| ParserCases.MoodleFile | src/tests/unitTests/FileParserTest.java:13-34 | the test file, headed by a comment, parses to 4 random and 2 SMA investors, the three prices, cash 100000 and the three holdings |
| ParserCases.MoodleRendered | src/tests/FileParserTest.java:17-39 | the test's configuration parses back from its rendering |
| Investors.NewRoster | src/investors/InvestorManagement.java:20-24 | a new roster has nobody, and ids start at 0 |
| Investors.SequentialIdsDistinct | src/investors/InvestorManagement.java:23 | ids handed out sequentially are distinct |
| Investors.CreateInvestor | src/investors/InvestorManagement.java:62-79 | the new investor gets id `nextID`, the strategy, the balance and a copy of the portfolio; the counter grows by one and ids stay sequential |
| Investors.CreateMany | src/investors/InvestorManagement.java:38-43 | a creation loop adds that many investors (none for a negative count), with consecutive ids, after the existing ones |
| Investors.ConvertPortfolio | src/investors/InvestorManagement.java:149-156 | succeeds exactly when every identifier is registered, else NoSuchElement, and keeps every quantity |
| Investors.FromConfig | src/investors/InvestorManagement.java:32-44 | the random investors then the SMA investors, each with the initial cash and portfolio, with sequential ids; an unregistered portfolio stock fails with NoSuchElement |
| Investors.UniformTotals | src/tests/simulationTests/SimpleInvariantTest.java:62-77 | a population that starts alike holds the head count times one investor's cash and shares |
| Investors.GetInvestor | src/investors/InvestorManagement.java:134-141 | finds an investor with that id exactly when one exists, or None (`null`); with sequential ids, the one at that position |
| Investors.PermutationCoversOnce | src/investors/InvestorManagement.java:163-167 | a shuffle order names every investor position exactly once and nothing else |
| Investors.InRandomOrder | src/investors/InvestorManagement.java:164-166 | the shuffled list holds exactly the investors |
| Investors.PickPermutation | src/investors/InvestorManagement.java:165 | picking along a permutation rearranges the accounts without loss or duplication |
| Simulation.RecordPrices | src/simulation/StockExchangeSimulation.java:55-58 | every stock's current last price is appended to its window (oldest dropped when full); the stored averages stay |
| Simulation.RecordOrderIrrelevant | src/simulation/StockExchangeSimulation.java:55 | walking the stocks in any order that lists each once records the same history |
| Simulation.Submit | src/simulation/StockExchangeSimulation.java:63-67 | the request made from a decision gets the next id and lands in its stock's book of its side; no other book changes; a positive quantity at a non-negative limit keeps a well-priced sheet well priced |
| Simulation.Collect | src/simulation/StockExchangeSimulation.java:60-68 | asking the investors in turn keeps the sheet fitting and ids below the counter; it succeeds exactly when every decision names a listed stock, else NoSuchElement; with a well-priced sheet and sensible decisions it succeeds and the sheet stays well priced |
| Simulation.CollectCountsRequests | src/simulation/StockExchangeSimulation.java:61-68 | each decision made takes exactly one id, and a round nobody trades in leaves the sheet unchanged |
| Simulation.Settle | src/simulation/StockExchangeSimulation.java:70-74 | after the decisions: realise the trades, then `updateSMA` on the recorded history, then `round++`; on a well-priced sheet with nobody owing cash or shares it succeeds and keeps both |
| Simulation.HistoryStep | src/simulation/StockExchangeSimulation.java:55-73 | after a round every listed stock's window gained its last price and the stored averages are those of the new windows |
| Simulation.Round | src/simulation/StockExchangeSimulation.java:53-75 | one round keeps the invariant and advances the round by one; investors are the same; cash and shares are conserved; the same stocks are listed; the log only grows, by fair trades; the price history takes that round's prices and their averages; from a well-priced sheet with nobody owing, when the investors decide sensibly, the round succeeds and keeps both |
| Simulation.Run | src/simulation/StockExchangeSimulation.java:50-76 | rounds are played until `totalRounds`: the run ends at `totalRounds`, or where it started if that is later; investors are the same; cash and shares are conserved; every trade is fair; from a well-priced sheet with nobody owing, when the investors always decide sensibly, the run succeeds and nobody ends owing cash or shares |
| Simulation.Setup | src/simulation/StockExchangeSimulation.java:39-45 | set-up succeeds exactly when the portfolio names only priced stocks; it starts at round 0 with one stock per price, R + S investors, and totals of head count times the initial cash and holdings; with non-negative configured cash and holdings nobody owes anything and the sheet is well priced |
| Simulation.MoneyConstant | src/tests/simulationTests/SimpleInvariantTest.java:57-65 | whatever the investors decide and however they are shuffled, a run from the set-up that succeeds ends with total cash equal to the initial cash times the number of investors |
| Simulation.SharesConstant | src/tests/simulationTests/SimpleInvariantTest.java:67-80 | the same for the total shares of every stock in the initial portfolio, for a run that succeeds |
| Simulation.AllRoundsPlayed | src/simulation/StockExchangeSimulation.java:27-74 | a run from the set-up that succeeds plays every round and ends with round equal to `totalRounds` (0 when that is negative) |
| Simulation.SensibleRun | src/simulation/StockExchangeSimulation.java:50-76 | from a set-up with no negative cash or holding, when the investors always decide sensibly (no decision, or a listed stock, a positive quantity and a non-negative limit), the run succeeds, plays every round, leaves nobody owing cash or shares, and ends with the configured totals of cash and of every stock's shares |
| Simulation.ParsedConfigSetsUp | src/utilities/Parser.java:91-92 | every configuration the parser accepts sets up a simulation |
| Scenarios.SinglePair | src/tests/unitTests/TradeRequestSheetTest.java:77-91 | one buy facing one compatible, settleable sell trades once at the older request's limit; the smaller side is filled and leaves its book; the larger keeps the difference |
| Scenarios.PairFills | src/tests/unitTests/TradeRequestSheetTest.java:80-83 | in that trade the smaller side is filled and the larger keeps the difference |
| Scenarios.SinglePairSweep | src/tests/unitTests/TradeRequestSheetTest.java:78 | with one buy and one compatible sell the whole sweep is that pair's trade |
| Scenarios.UncoveredAllOrNothingBuy | src/tests/unitTests/AllOrNothingRequestTest.java:54-86 | a lone all-or-nothing buy whose usable liquidity falls short does not trade, is purged, and leaves the sells to the purge's ordinary rule |
| Scenarios.BuySweepsTwoSells | src/tests/unitTests/TradeRequestSheetTest.java:99-145 | a buy facing two affordable sells trades with the cheaper first, then the other, each at the older request's limit |
| UnitCases.SimpleTrade | src/tests/unitTests/TradeRequestSheetTest.java:47-91 | the simple-trade test: both books empty, the stock last trades at the older buy's 150, the buyer's balance falls and the seller's rises by 750, and the buyer's APL holding rises from 5 to 10 while the seller's falls to 0 |
| UnitCases.PartialTrade | src/tests/unitTests/TradeRequestSheetTest.java:100-144 | the partial-trade test: the buy keeps 7, the sell book empties, the last price is 140, the buyer pays the seller 430, and 3 APL shares move from the seller (5 to 2) to the buyer (5 to 8) |
| UnitCases.AllOrNothingFills | src/tests/unitTests/AllOrNothingRequestTest.java:38-52 | an all-or-nothing buy of 5 fills against sells of 2 and 3 and empties both books |
| UnitCases.AllOrNothingStubRefuses | src/requests/AllOrNothingTradeRequest.java:28-32 | the intended predicate accepts that buy's first candidate; the shipped stub refuses it |
| UnitCases.AllOrNothingTooFew | src/tests/unitTests/AllOrNothingRequestTest.java:54-68 | with only 2 compatible shares the all-or-nothing buy does not trade, is purged, and the sell stays |
| UnitCases.AllOrNothingTooExpensive | src/tests/unitTests/AllOrNothingRequestTest.java:70-86 | sells above the buy's limit do not count: nothing trades, the buy is purged, and both sells stay |

## Left out

- `RandomChoiceInvestor`, `SMAInvestor` and `RandomChoiceMachine`, the trading strategies, are not modelled. They draw on `Math.random` and double arithmetic, and the SMA investor does not compile as shown. Decisions are a parameter `decide` from a view of the market to an optional request draft.
- The outcome of `OnlyOneRoundTest` (price moves within 10 per round) and of `SingleSMATest` depend on those strategies, so they are not stated.
- Reading the configuration file (`BufferedReader`, `IOException`) is not modelled. The parser works on the sequence of lines.
- `String.split` is modelled for a one-character literal pattern only, which is all the parser uses.
- `Integer.parseInt` accepts ASCII digits only; non-ASCII Unicode digits are not modelled.
- `EventLogging` and `App` are left out: console output and process exit.
- `double` in `LastTradeData` is replaced by exact `real` arithmetic.
- `getSMA5`/`getSMA10`, which truncate a stored double to `int` (`LastTradeData.java:107-119`), are used only by the strategies and are not modelled.
- Cash, quantities and the cost quantity × price are unbounded integers. The 32-bit overflow of `AInvestor.java:67` is not modelled. Parsed numbers are still limited to the 32-bit range, as `parseInt` limits them.
- `HashMap` iteration order over stocks becomes the sheet's recorded walk order for matching; conservation, fairness and validity are proved for any walk.
- `HashSet` order in `getInvestor` is not modelled. The search runs in roster order, which gives the same answer because ids are distinct.
- `Collections.shuffle` is a permutation per round supplied by the `shuffle` parameter.
- `InvestorManagement.setNextID` and `getNextID` are not modelled: nothing in the core calls them.
- `RequestManagement`'s static counter is an explicit `Issuer` value passed in and returned.
- `Stock.createIndefinite…Request`/`createInstant…Request` (`Stock.java:45-59`) are not modelled. They call request constructors without an id, which do not exist in the shown classes. Requests are created through the `RequestManagement` factories (`Requests.Create`).
- `new StockExchangeSimulation(totalRounds)` (`StockExchangeSimulation.java:25-31`) is not modelled as a separate entry point: it is the configured set-up with no stocks and no investors.
- The superseded expectations of `src/tests/TradeRequestSheetTest.java` (the seller's price) are not followed; the clearing price is the older request's limit.
- Matching.MatchPair: the sweep asks the intended `Requests.ConsiderTrade`, not the shipped stub. Under the delegation reading of the code, an all-or-nothing request never trades (`Requests.ConsiderTradeAsWritten`, second Findings row). Everything built on the sweep follows the intended behaviour for all-or-nothing requests: `Matching.SweepSells`, `Matching.CheckForTradesForStock`, `TradeSheet.RealiseSubmittedTrades`, `Simulation.Round` and `Simulation.Run`.
- Simulation.Round: success is promised only from a well-priced sheet with nobody owing, and only when the investors decide sensibly. A request for a non-positive quantity or at a negative limit can make a trade's cost negative, and `withdraw` then throws. The random strategy asks for at least one share, but its limit can be negative once a last price is below 5.
- Simulation.Run: the same condition for success as `Simulation.Round`, for every round.
- Simulation.MoneyConstant: stated for a run that succeeds. `Simulation.SensibleRun` shows that every run of sensible decisions from a configuration with no negative cash or holding succeeds, with the same totals.
- Simulation.SharesConstant: stated for a run that succeeds; `Simulation.SensibleRun` covers sensible runs, as for `Simulation.MoneyConstant`.
- Simulation.AllRoundsPlayed: stated for a run that succeeds; `Simulation.SensibleRun` covers sensible runs, as for `Simulation.MoneyConstant`.
- Simulation.Collect: a decision that names an unlisted stock fails with NoSuchElement. In Java that failure happens inside the strategy's `getStock` call, before any request exists.
- Parser.Parse: its own contract states only the final consistency check. The line-by-line behaviour is stated by `Parser.ReadLine`, `Parser.CountTypes`, `Parser.ReadPairs` and `Parser.Finish`, and the full round trip by `Parser.ParseRender`.
- PriceHistory.Sma: its own contract states only the no-data case. The average is stated by `PriceHistory.SmaIsMean` and `PriceHistory.SmaWithinPrices`.
- TradeSheet.RemoveExpired: the sheet, `TradeSheet.RealiseSubmittedTrades` and the simulation use the corrected filter `OrderBook.Purge`, not the loop as written. As written (`OrderBook.PurgeAsWritten`), an expired request right after another expired one survives the round's purge (first Findings row). The "no expired request is left" results hold only for the corrected purge.
- UnitCases.AllOrNothingFills: the test places the buy and both sells by one investor; the model uses two. The two-sell scenario lemmas are stated for a buyer distinct from the seller. Conservation and fairness are proved for every sweep, whoever trades.

## Findings

| source | as written | input that shows it | evidently intended | confidence | as-written member | corrected member |
|---|---|---|---|---|---|---|
| src/stocks/TradeRequestSheet.java:253-263 | the purge removes requests from the list while the list's own index-based iterator walks it, so the request right after each removed one is never examined | a book of two adjacent all-or-nothing buys `[a, b]`, purged at round 0: the loop removes `a` and leaves `b`, although `b` is expired | every expired request is removed; the iterator's documentation at `SortedList.java:107-110` says to walk a copy when the list changes | high; not executed | OrderBook.PurgeAsWrittenSkipsSecondExpired | OrderBook.Purge |
| src/requests/AllOrNothingTradeRequest.java:28-32 | `considerTrade(ATradeRequest)` is a stub that returns false; if the sheet's `considerTrade(List)` (`TradeRequestSheet.java:122`, base body not in the repository) delegates to it, an all-or-nothing request never trades | an all-or-nothing buy of 5 at 100 facing indefinite sells of 2 and 3 at 100: the stub refuses, but `AllOrNothingRequestTest.java:38-52` expects both books to empty | an all-or-nothing request considers a pairing when the compatible liquidity from the candidate on, not itself all-or-nothing, covers its remaining quantity. The class comment at line 22 says the other request must itself be all-or-nothing; the model follows the tests instead, which fill all-or-nothing buys from indefinite sells | medium, it rests on the delegation; not executed | UnitCases.AllOrNothingStubRefuses | Requests.ConsiderTrade |
