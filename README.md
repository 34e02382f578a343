# Stock market simulator ledger, in Dafny

This project models the in-memory ledger of a single-file stock market
simulator written in C (`stock_simulator.c`). The ledger has three tables,
each a fixed-capacity array with a count of the entries in use:

- the stock catalog, of up to 100 stocks, each with a bounded history of its
  last 30 prices;
- the portfolio, of up to 100 holdings, each with a weighted-average cost;
- the transaction log, of up to 1000 records.

The operations that maintain the tables are:

- listing a stock;
- the two linear lookups;
- repricing a stock, which shifts its history buffer once the buffer is full;
- buying, which re-averages the cost of a holding or opens a new one;
- selling, which removes an emptied holding by moving the last holding into its
  slot;
- the append to the capped log.

The model also covers the figures the reports derive from the tables: the trend
string and price change of each stock, and the portfolio's total value, cost
basis and profit or loss.

The files are:

- `records.dfy` (module `Records`): the capacities, the three record types, and
  the first-match lookup `FirstIndexOf` that both searches implement.
- `price_history.dfy` (module `PriceHistory`): the bounded append and its
  specification, "the latest min(n, 30) prices, oldest first". It also holds
  the change and trend figures of the trend report.
- `accounting.dfy` (module `Accounting`): the weighted-average cost, the
  unordered removal, the capped log and the portfolio invariant. It also
  defines the per-symbol supply (shares on the market plus shares held), which
  trading conserves.
- `statistics.dfy` (module `Statistics`): the per-holding value and cost and
  their sums over the portfolio.
- `market.dfy` (module `Market`): the whole ledger as a value `State`, and the
  four state changes (list, reprice, buy, sell) as functions on it. The lemmas
  here prove:
  - every reachable state is valid;
  - supply is conserved;
  - the history keeps the latest prices;
  - buying a symbol not held and then selling the same quantity restores the
    catalog and the portfolio.
- `ledger.dfy` (module `Simulator`): the imperative model, class `Ledger`. It
  holds the three arrays, the 100 x 30 price-history buffer and the three
  counts, with one method per C function. Each method is proved against
  `Market`:
  - a ghost field `model` holds the tables' contents as a `Market.State`;
  - `Valid()` ties the arrays to `model`;
  - every state-changing method ensures that `model` moves exactly as the
    matching `Market` function says.

  All the properties proved in `Market` therefore hold for the arrays.
  Failure paths are proved to change nothing.

Prices are `real`. Symbols are strings. A transaction's timestamp is the
parameter `now`, which stands for the clock reading the C code takes with
`time(NULL)`.

## Model

| member | source | states |
|---|---|---|
| Records.Side.Code | stock_simulator.c:31 | a trade's type code is 'B' exactly for a buy and 'S' exactly for a sell |
| Records.FirstIndexOf | stock_simulator.c:109-128 | the lookup returns None exactly when no entry has the symbol, and otherwise the lowest position whose entry has it |
| Records.FirstIndexOfUnique | stock_simulator.c:109-128 | any position that holds the symbol, with no earlier position holding it, is the one the lookup returns |
| Simulator.Ledger.FindStock | stock_simulator.c:109-117 | the linear search returns the first catalog position listed under the symbol, or None |
| Simulator.Ledger.FindPortfolioItem | stock_simulator.c:120-128 | the linear search returns the first portfolio position holding the symbol, or None |
| Market.StockIndex | stock_simulator.c:109-117 | the stock lookup on the ledger value: None exactly when no stock is listed under the symbol, otherwise the lowest catalog position listed under it |
| Market.HoldingIndex | stock_simulator.c:120-128 | the portfolio lookup on the ledger value: None exactly when no holding has the symbol, otherwise the lowest portfolio position holding it |
| Simulator.Ledger.constructor | stock_simulator.c:62-78 | the three tables are allocated with their capacities, are empty, and satisfy the invariant |
| Market.EmptyValid | stock_simulator.c:62-78 | the empty ledger satisfies the invariant |
| Market.AddStock | stock_simulator.c:89-106 | listing on the ledger value: a full catalog is returned unchanged; otherwise the catalog keeps its entries and gains Stock(symbol, price, quantity, 1) at the end, whose history is the single listing price; portfolio and log are untouched |
| Simulator.Ledger.AddStock | stock_simulator.c:89-106 | a full catalog changes nothing; otherwise the count grows by one, earlier entries are untouched, and the new entry has the price, the quantity, a history count of 1 and the price as its first stored price; the invariant is kept |
| Market.AddStockKeepsValid | stock_simulator.c:89-106 | listing a stock keeps the ledger invariant |
| Market.AddStockShadowsDuplicates | stock_simulator.c:89-117 | listing a symbol that is already listed leaves every lookup of it at the first listing; a new symbol is found at the new entry |
| Simulator.Ledger.UpdatePrice | stock_simulator.c:131-150 | an unknown symbol changes nothing; otherwise the found stock's current price and history change as Market.UpdatePrice says, and the invariant is kept |
| Simulator.Ledger.SettlePrice | stock_simulator.c:140-149 | updating the found stock moves the ledger to Market.UpdatePrice of the old state and keeps the invariant |
| Simulator.Ledger.RecordPrice | stock_simulator.c:141-149 | the history row becomes the bounded append of the new price: the price is appended while the history holds fewer than 30 prices, and otherwise the old prices 1..29 come first and the new price last; no other stock or row changes |
| Market.UpdatePrice | stock_simulator.c:131-150 | repricing on the ledger value: an unknown symbol returns the state unchanged; the portfolio, the log and the table sizes never change (the found stock's new price and history are stated by UpdatePriceTouchesOnlyFound) |
| PriceHistory.AppendBounded | stock_simulator.c:141-149 | the new price is last; the history grows by one up to 30 and then stays at 30; a full history keeps its old prices 1..29 in front |
| PriceHistory.AppendIsWindow | stock_simulator.c:141-149 | one bounded append leaves exactly the latest 30 (or fewer) prices of the old history followed by the new price |
| PriceHistory.UpdatesKeepLatest | stock_simulator.c:141-149 | any sequence of updates leaves exactly the latest min(n, 30) prices of everything recorded, oldest first |
| PriceHistory.ListingPriceEvicted | stock_simulator.c:141-149 | 30 or more updates after listing leave exactly the last 30 new prices; the listing price is gone |
| Market.UpdatePriceKeepsValid | stock_simulator.c:131-150 | repricing keeps the ledger invariant (history count in 1..30, newest stored price equal to the current price) and the listed symbols |
| Market.UpdatePriceTouchesOnlyFound | stock_simulator.c:131-150 | repricing changes only the found stock's current price and history; every other stock and history, the portfolio and the log stay the same |
| Market.RepriceStep | stock_simulator.c:131-150 | after one repricing the lookup still finds the stock, its history is the bounded append and its current price is the new price |
| Market.RepriceFollowsHistory | stock_simulator.c:131-150 | repricing a listed stock repeatedly applies the updates to its history one by one, and its current price is the last update |
| Market.RepricingKeepsLatest | stock_simulator.c:131-150 | however many times a listed stock is repriced, its history holds the latest min(n, 30) prices it has had and its current price is the last one |
| Simulator.Ledger.BuyStock | stock_simulator.c:153-203 | the buy succeeds exactly when Market.BuyStock does, and then the ledger becomes that state; a refused buy changes no table; the invariant is kept |
| Simulator.Ledger.SettleBuy | stock_simulator.c:175-202 | a buy that passed every check moves the ledger to the state Market.BuyStock gives and keeps the invariant |
| Simulator.Ledger.ExecuteBuy | stock_simulator.c:175-202 | the three tables become the catalog, holdings and log of the given target state |
| Simulator.Ledger.FillHolding | stock_simulator.c:169-186 | the found holding, or a new empty holding appended for the symbol, takes the shares at the re-averaged cost, as Market.Filled describes |
| Market.Filled | stock_simulator.c:167-186 | the portfolio half of a buy: None exactly when the symbol is not held and the portfolio is full; when the symbol was held, the portfolio keeps its length, the first holding of the symbol gains exactly the shares bought and its worth at cost grows by price × shares, and every other holding is unchanged; when it was not held, Holding(symbol, shares, price) is appended and every earlier holding is unchanged |
| Market.BuyStock | stock_simulator.c:153-203 | a buy on the ledger value succeeds exactly when the stock is listed, it has enough shares available, and the portfolio holds the symbol or has room; a full log does not matter (the resulting state is stated by BuyResult) |
| Market.BuyResult | stock_simulator.c:175-200 | a successful buy takes the shares from the stock, fills the holding at the current price, logs a 'B' record at the current price, and leaves the histories alone |
| Market.BuyLogsCodeB | stock_simulator.c:190-199 | a buy made while the log has room appends one record, whose type code is 'B', for the symbol and shares bought at the stock's current price |
| Accounting.Averaged | stock_simulator.c:182-186 | the quantities add up, and the holding's worth at its new average cost is its old worth plus the worth of the shares bought |
| Accounting.FreshHoldingAtMarket | stock_simulator.c:175-186 | a holding opened by a buy has the current price as its cost |
| Accounting.TwoFillsAverage | stock_simulator.c:182-186 | two buys leave the quantity-weighted average of the two fill prices as the cost |
| Market.BuyKeepsValid | stock_simulator.c:153-203 | a successful buy keeps the invariant (no empty holding, no symbol held twice, every holding listed) and leaves the histories and listed symbols alone |
| Market.BuyConservesSupply | stock_simulator.c:175-189 | a successful buy leaves, for every symbol, shares available plus shares held unchanged |
| Market.BuyPaysCurrentPrice | stock_simulator.c:182-186 | after a buy the lookup finds a holding of the symbol whose worth at cost grew by exactly the worth of the shares at the current price |
| Market.BuyAddsToCostBasis | stock_simulator.c:182-186 | a successful buy raises the portfolio's total cost basis by exactly the worth of the shares bought at the current price |
| Market.BuyOpensHolding | stock_simulator.c:169-189 | buying a symbol not held appends one holding with the bought quantity at the current price, which the lookup then finds |
| Simulator.Ledger.SellStock | stock_simulator.c:206-243 | the sell succeeds exactly when Market.SellStock does, and then the ledger becomes that state; a refused sell changes no table; the invariant is kept |
| Simulator.Ledger.SettleSell | stock_simulator.c:221-240 | a sell that passed every check moves the ledger to the state Market.SellStock gives and keeps the invariant |
| Simulator.Ledger.ExecuteSell | stock_simulator.c:221-240 | the three tables become the catalog, holdings and log of the given target state |
| Simulator.Ledger.SellHolding | stock_simulator.c:222-226 | the holding loses the shares and, once empty, is overwritten by the last holding while the count drops by one |
| Market.SellStock | stock_simulator.c:206-243 | a sell on the ledger value succeeds exactly when some holding of the symbol has enough shares and the stock is listed (the resulting state is stated by SellResult) |
| Accounting.Sold | stock_simulator.c:222-226 | selling part of holding k lowers only its quantity, by the shares sold; selling all of it removes it by moving the last holding into its slot |
| Accounting.RemoveSwap | stock_simulator.c:225 | the sequence shrinks by one; the last element takes the removed position and every other position below the end is unchanged |
| Market.SellResult | stock_simulator.c:221-240 | a successful sell returns the shares to the stock, updates or removes the holding, logs an 'S' record at the current price, and leaves the histories alone |
| Market.SellLogsCodeS | stock_simulator.c:231-240 | a sell made while the log has room appends one record, whose type code is 'S', for the symbol and shares sold at the stock's current price |
| Market.SellKeepsValid | stock_simulator.c:206-243 | a successful sell keeps the invariant, so no zero-quantity holding remains, and leaves the histories and listed symbols alone |
| Market.SellOutRemovesHolding | stock_simulator.c:222-226 | selling a whole holding removes exactly it: the symbol is no longer held and the remaining holdings are the old multiset minus the emptied one |
| Market.SellConservesSupply | stock_simulator.c:221-229 | a successful sell leaves, for every symbol, shares available plus shares held unchanged |
| Market.BuyThenSellRestores | stock_simulator.c:153-243 | buying a symbol not held and then selling the same quantity restores the catalog and the portfolio exactly |
| Accounting.RemoveSwapMultiset | stock_simulator.c:225 | the removal keeps every element but the removed one |
| Accounting.RemoveSwapKeepsInvariant | stock_simulator.c:222-226 | removing an emptied holding keeps the portfolio invariant, and its symbol is no longer held |
| Accounting.HeldAfterUpdate | stock_simulator.c:182-226 | changing one holding changes the shares held of a symbol by the difference that holding makes |
| Accounting.HeldAfterRemoveSwap | stock_simulator.c:225 | removing a holding takes exactly its shares out of the shares held |
| Accounting.HeldIsHoldingQuantity | stock_simulator.c:120-128 | with no symbol held twice, the shares held of a symbol are those of the holding the lookup finds, or none |
| Accounting.AvailableAfterUpdate | stock_simulator.c:189-229 | changing the quantity of the found stock changes the availability of that symbol only |
| Accounting.Logged | stock_simulator.c:192-200 | a buy's or sell's record is appended while the log has room and dropped once it is full |
| Accounting.LoggedKeepsHistory | stock_simulator.c:232-240 | the log never exceeds 1000 records, never rewrites a record, and grows by one exactly when it had room |
| Simulator.Ledger.RecordTransaction | stock_simulator.c:192-200 | the log table becomes the capped append of the record |
| PriceHistory.TrendChar | stock_simulator.c:317-322 | '+' exactly for a rise, '-' exactly for a fall, '=' exactly when the prices are equal |
| PriceHistory.Trend | stock_simulator.c:315-324 | one character per adjacent pair of stored prices, each comparing that pair |
| Simulator.Ledger.StockTrend | stock_simulator.c:315-324 | the loop builds the trend string of the stock's stored prices |
| PriceHistory.ChangeOverWindow | stock_simulator.c:304-307 | after listing and repricing, the change column is the latest price minus the oldest price still stored: 29 updates back, or the listing price |
| PriceHistory.PriceChange | stock_simulator.c:304-307 | the change column is 0 while at most one price is stored, and otherwise the amount by which the current price exceeds the oldest stored price |
| Simulator.Ledger.MarketTrends | stock_simulator.c:303-326 | for every stock, its symbol, current price, change since the oldest stored price, and trend string |
| Statistics.ListedHoldingFigures | stock_simulator.c:344-348 | a holding whose stock is found is worth its shares at the current price and costs its shares at the average cost |
| Statistics.HoldingValue | stock_simulator.c:344-347 | a holding whose stock is not listed adds no value, as the report skips it; a listed one is worth its shares at the current price (ListedHoldingFigures) |
| Statistics.HoldingCost | stock_simulator.c:344-348 | a holding whose stock is not listed adds no cost, as the report skips it; a listed one costs its shares at the average cost (ListedHoldingFigures) |
| Statistics.TotalValue | stock_simulator.c:343-351 | defined as the sum of HoldingValue over the holdings, first to last; TotalsStep states the running sum and PortfolioStats proves the loop computes it |
| Statistics.TotalCost | stock_simulator.c:343-352 | defined as the sum of HoldingCost over the holdings, first to last; TotalsStep states the running sum and PortfolioStats proves the loop computes it |
| Statistics.TotalProfitLoss | stock_simulator.c:254-270 | summing per-holding profit or loss, as the portfolio report does, gives exactly total value minus total cost basis |
| Statistics.TotalCostSameSymbols | stock_simulator.c:343-352 | the total cost basis depends on the catalog only through its symbols, so changing quantities or prices leaves it unchanged |
| Statistics.TotalsStep | stock_simulator.c:343-352 | each holding adds its value, cost and profit or loss to the running totals |
| Statistics.TotalCostAfterUpdate | stock_simulator.c:343-352 | replacing one holding changes the total cost basis by the difference of the two holdings' costs |
| Simulator.Ledger.PortfolioStats | stock_simulator.c:330-352 | an empty portfolio gives no figures; otherwise the totals of value and cost over the holdings whose stock is found |
| Simulator.Ledger.PortfolioTotals | stock_simulator.c:251-271 | the total value and the summed profit or loss, which equals value minus cost basis |

## Left out

- Allocation, release and the `exit(1)` on a failed allocation (lines 62-86): the tables are allocated by the constructor.
- All printed output and the `ctime` formatting of the three reports (lines 246-327): only the figures the reports print are modelled.
- `time(NULL)` (lines 199 and 239): the timestamp is the parameter `now`.
- IEEE `double` rounding: prices, costs and totals are exact `real` numbers.
- The best and worst performer of the statistics report (lines 338-371): the tracking relies on sentinel values and can read an uninitialised buffer.
- Simulator.Ledger.BuyStock: it requires a positive quantity, because a buy of 0 shares that opens a holding divides by zero at line 186.
- Simulator.Ledger.SellStock: it requires a positive quantity as a choice of scope. In the C code a sell of 0 shares succeeds and logs an empty 'S' record, and a negative sell moves shares from the market into the holding; neither is modelled.
- C's 32-bit `int` quantities and counts are unbounded integers here. The additions at lines 185, 189 and 229 cannot overflow from 32-bit inputs anyway, because buys and sells conserve each symbol's supply (Market.BuyConservesSupply, Market.SellConservesSupply).
- Simulator.Ledger.AddStock, Simulator.Ledger.BuyStock and Simulator.Ledger.SellStock: they require a symbol of at most 9 characters. The `strncpy` truncation and the terminating NUL byte are not modelled.
- The sample scenario of `main` (lines 376-427).
- Duplicate symbols are not rejected by listing. Every lookup finds the first listing, so a later duplicate can never be repriced or traded. Market.AddStockShadowsDuplicates states this.
- The branch of `sellStock` where a held symbol is not listed (lines 215-219) is unreachable under the invariant, because every holding's symbol is listed. The value model keeps this branch as a failure; the imperative model proves it cannot be taken.
- The transaction report (lines 279-295) only prints the log; the log's contents are modelled by `Market.State.log`.
