/** The simulator's in-memory ledger: the stock catalog with each stock's price
    history buffer, the portfolio and the transaction log, each a fixed-capacity
    table with a count of the entries in use, and the operations that maintain
    them. Every state-changing operation is proved to move the ghost `model`
    exactly as the matching function of module Market does. */
module Simulator {
  import opened Records
  import opened PriceHistory
  import opened Accounting
  import opened Statistics
  import Market

  /** One line of the market-trend report. */
  datatype TrendRow = TrendRow(symbol: string, currentPrice: real, change: real, trend: string)

  class Ledger {
    const stocks: array<Stock>
    var stockCount: int
    /** Row `i` is the price-history buffer of `stocks[i]`, oldest price first;
        its first `stocks[i].historyCount` entries are in use. */
    const priceHistory: array2<real>
    const portfolio: array<Holding>
    var portfolioCount: int
    const transactions: array<Transaction>
    var transactionCount: int
    /** The tables' contents as a value. */
    ghost var model: Market.State

    /** The tables have their fixed capacities and every count is within its table. */
    ghost predicate Allocated()
      reads this
    {
      && stocks.Length == MaxStocks && portfolio.Length == MaxStocks
      && transactions.Length == MaxTransactions
      && priceHistory.Length0 == MaxStocks && priceHistory.Length1 == HistoryLen
      && 0 <= stockCount <= MaxStocks && 0 <= portfolioCount <= MaxStocks
      && 0 <= transactionCount <= MaxTransactions
    }

    /** Row `i` of the history buffer starts with the prices `h`. */
    ghost predicate RowHolds(i: int, h: seq<real>)
      requires priceHistory.Length0 == MaxStocks && priceHistory.Length1 == HistoryLen
      reads priceHistory
    {
      0 <= i < MaxStocks && |h| <= HistoryLen && forall j :: 0 <= j < |h| ==> priceHistory[i, j] == h[j]
    }

    /** Row `i` of the history buffer starts with `hs[i]`, for every `i`. */
    ghost predicate RowsHold(hs: seq<seq<real>>)
      requires priceHistory.Length0 == MaxStocks && priceHistory.Length1 == HistoryLen
      reads priceHistory
    {
      forall i :: 0 <= i < |hs| ==> RowHolds(i, hs[i])
    }

    /** The catalog in use holds exactly the model's catalog. */
    ghost predicate CatalogHeld()
      reads this, stocks
    {
      Allocated() && stocks[..stockCount] == model.catalog
    }

    /** The portfolio in use holds exactly the model's holdings. */
    ghost predicate PortfolioHeld()
      reads this, portfolio
    {
      Allocated() && portfolio[..portfolioCount] == model.holdings
    }

    /** The object invariant: the tables in use hold exactly the model, and the
        model is a valid state. */
    ghost predicate Valid()
      reads this, stocks, priceHistory, portfolio, transactions
    {
      && CatalogHeld() && PortfolioHeld()
      && transactions[..transactionCount] == model.log
      && Market.Valid(model)
      && RowsHold(model.histories)
    }

    /** The three tables, newly allocated and empty. */
    constructor ()
      ensures Valid() && model == Market.Empty
      ensures fresh(stocks) && fresh(priceHistory) && fresh(portfolio) && fresh(transactions)
    {
      stocks := new Stock[MaxStocks];
      priceHistory := new real[MaxStocks, HistoryLen];
      portfolio := new Holding[MaxStocks];
      transactions := new Transaction[MaxTransactions];
      stockCount, portfolioCount, transactionCount := 0, 0, 0;
      model := Market.Empty;
    }

    /** Linear search of the catalog: the first stock listed under `symbol`. */
    method FindStock(symbol: string) returns (r: Option<nat>)
      requires CatalogHeld()
      ensures r == Market.StockIndex(model, symbol)
    {
      for i := 0 to stockCount
        invariant forall j :: 0 <= j < i ==> stocks[j].symbol != symbol
      {
        if stocks[i].symbol == symbol {
          FirstIndexOfUnique(StockSymbols(model.catalog), symbol, i);
          return Some(i);
        }
      }
      assert symbol !in StockSymbols(model.catalog);
      return None;
    }

    /** Linear search of the portfolio: the first holding of `symbol`. */
    method FindPortfolioItem(symbol: string) returns (r: Option<nat>)
      requires PortfolioHeld()
      ensures r == Market.HoldingIndex(model, symbol)
    {
      for k := 0 to portfolioCount
        invariant forall j :: 0 <= j < k ==> portfolio[j].symbol != symbol
      {
        if portfolio[k].symbol == symbol {
          FirstIndexOfUnique(HoldingSymbols(model.holdings), symbol, k);
          return Some(k);
        }
      }
      assert symbol !in HoldingSymbols(model.holdings);
      return None;
    }

    /** Lists a new stock whose history holds just its listing price; a full
        catalog refuses it. Symbols are not checked for duplicates. */
    method AddStock(symbol: string, price: real, quantity: int)
      requires Valid() && |symbol| < MaxSymbol
      modifies this, stocks, priceHistory
      ensures Valid() && model == Market.AddStock(old(model), symbol, price, quantity)
      ensures old(stockCount) >= MaxStocks ==> stockCount == old(stockCount) && model == old(model)
      ensures old(stockCount) < MaxStocks ==>
                && stockCount == old(stockCount) + 1
                && stocks[..old(stockCount)] == old(stocks[..stockCount])
                && stocks[old(stockCount)] == Stock(symbol, price, quantity, 1)
                && priceHistory[old(stockCount), 0] == price
    {
      if stockCount >= MaxStocks {
        return;
      }
      Market.AddStockKeepsValid(model, symbol, price, quantity);
      var n := stockCount;
      ghost var rows := model.histories;
      stocks[n] := Stock(symbol, price, quantity, 1);
      priceHistory[n, 0] := price;
      stockCount := n + 1;
      model := Market.AddStock(model, symbol, price, quantity);
      assert stocks[..stockCount] == old(stocks[..n]) + [stocks[n]];
      assert model.histories == rows + [[price]];
      forall i | 0 <= i < n
        ensures RowHolds(i, rows[i])
      {
        assert old(RowHolds(i, rows[i]));
      }
    }

    /** Reprices the first stock listed under `symbol` and records the price in
        its bounded history; an unknown symbol changes nothing. */
    method UpdatePrice(symbol: string, newPrice: real)
      requires Valid()
      modifies this`model, stocks, priceHistory
      ensures Valid() && model == Market.UpdatePrice(old(model), symbol, newPrice)
    {
      var r := FindStock(symbol);
      if r.None? {
        return;
      }
      SettlePrice(r.value, symbol, newPrice);
    }

    /** The update of the stock the lookup found at `i`: its current price and
        its history buffer change, and the model moves as Market.UpdatePrice
        describes. */
    method SettlePrice(i: nat, symbol: string, newPrice: real)
      requires Valid() && Market.StockIndex(model, symbol) == Some(i)
      modifies this`model, stocks, priceHistory
      ensures Valid() && model == Market.UpdatePrice(old(model), symbol, newPrice)
    {
      Market.UpdatePriceKeepsValid(model, symbol, newPrice);
      stocks[i] := stocks[i].(currentPrice := newPrice);
      RecordPrice(i, newPrice, model.histories[i]);
      model := Market.UpdatePrice(model, symbol, newPrice);
      assert stocks[..stockCount] == old(stocks[..stockCount])[i := stocks[i]];
      forall j | 0 <= j < stockCount && j != i
        ensures RowHolds(j, model.histories[j])
      {
        assert old(RowHolds(j, model.histories[j]));
      }
    }

    /** The history half of a price update on stock `i`, whose row holds `h`:
        the price is appended while the history has room; otherwise every
        stored price moves one place toward the oldest end, the oldest dropping
        out, and the price goes last. Nothing outside stock `i`'s entry and
        row changes. */
    method RecordPrice(i: nat, newPrice: real, ghost h: seq<real>)
      requires stocks.Length == MaxStocks && priceHistory.Length0 == MaxStocks && priceHistory.Length1 == HistoryLen
      requires i < MaxStocks && stocks[i].historyCount == |h| && 1 <= |h| && RowHolds(i, h)
      modifies stocks, priceHistory
      ensures stocks[i] == old(stocks[i]).(historyCount := |AppendBounded(h, newPrice)|)
      ensures RowHolds(i, AppendBounded(h, newPrice))
      ensures forall j :: 0 <= j < MaxStocks && j != i ==> stocks[j] == old(stocks[j])
      ensures forall row, m :: 0 <= row < MaxStocks && row != i && 0 <= m < HistoryLen ==>
                priceHistory[row, m] == old(priceHistory[row, m])
    {
      var count := stocks[i].historyCount;
      if count < HistoryLen {
        priceHistory[i, count] := newPrice;
        stocks[i] := stocks[i].(historyCount := count + 1);
      } else {
        for j := 0 to HistoryLen - 1
          modifies priceHistory
          invariant forall m :: 0 <= m < j ==> priceHistory[i, m] == h[m + 1]
          invariant forall m :: j <= m < HistoryLen ==> priceHistory[i, m] == h[m]
          invariant forall row, m :: 0 <= row < MaxStocks && row != i && 0 <= m < HistoryLen ==>
                      priceHistory[row, m] == old(priceHistory[row, m])
        {
          priceHistory[i, j] := priceHistory[i, j + 1];
        }
        priceHistory[i, HistoryLen - 1] := newPrice;
      }
    }

    /** Appends `t` to the log while there is room; a full log drops it. */
    method RecordTransaction(t: Transaction)
      requires transactions.Length == MaxTransactions && 0 <= transactionCount <= MaxTransactions
      modifies this`transactionCount, transactions
      ensures 0 <= transactionCount <= MaxTransactions
      ensures transactions[..transactionCount] == Logged(old(transactions[..transactionCount]), t)
    {
      if transactionCount < MaxTransactions {
        transactions[transactionCount] := t;
        transactionCount := transactionCount + 1;
      }
    }

    /** Buys `quantity` shares of the first stock listed under `symbol` at its
        current price, reporting success. A refused buy changes nothing. */
    method BuyStock(symbol: string, quantity: int, now: int) returns (ok: bool)
      requires Valid() && quantity > 0 && |symbol| < MaxSymbol
      modifies this, stocks, portfolio, transactions
      ensures Valid()
      ensures ok == Market.BuyStock(old(model), symbol, quantity, now).Some?
      ensures ok ==> model == Market.BuyStock(old(model), symbol, quantity, now).value
      ensures !ok ==> unchanged(this, stocks, portfolio, transactions)
    {
      var si := FindStock(symbol);
      if si.None? {
        return false;
      }
      var i := si.value;
      if stocks[i].quantityAvailable < quantity {
        return false;
      }
      var hi := FindPortfolioItem(symbol);
      if hi.None? && portfolioCount >= MaxStocks {
        return false;
      }
      SettleBuy(i, hi, symbol, quantity, now);
      ok := true;
    }

    /** A buy that passed every check moves the tables, and the model, to the
        state Market.BuyStock describes. */
    method SettleBuy(i: nat, hi: Option<nat>, symbol: string, quantity: int, now: int)
      requires Valid() && quantity > 0
      requires Market.StockIndex(model, symbol) == Some(i) && Market.HoldingIndex(model, symbol) == hi
      requires model.catalog[i].quantityAvailable >= quantity && (hi.Some? || portfolioCount < MaxStocks)
      modifies this, stocks, portfolio, transactions
      ensures Valid() && Market.BuyStock(old(model), symbol, quantity, now) == Some(model)
    {
      ghost var next := Market.BuyStock(model, symbol, quantity, now).value;
      Market.BuyResult(model, symbol, quantity, now);
      Market.BuyKeepsValid(model, symbol, quantity, now);
      ExecuteBuy(i, hi, symbol, quantity, now, next);
      model := next;
    }

    /** The bookkeeping of a buy that passed every check, bringing the tables
        to the state `next`: the holding takes the shares, the stock gives them
        up, and the trade is logged. */
    method ExecuteBuy(i: nat, hi: Option<nat>, symbol: string, quantity: int, now: int, ghost next: Market.State)
      requires Allocated() && i < stockCount && quantity > 0
      requires hi == FirstIndexOf(HoldingSymbols(portfolio[..portfolioCount]), symbol)
      requires hi.Some? || portfolioCount < MaxStocks
      requires forall k :: 0 <= k < portfolioCount ==> portfolio[k].quantity >= 0
      requires var s := stocks[i];
               && next.catalog == stocks[..stockCount][i := s.(quantityAvailable := s.quantityAvailable - quantity)]
               && Market.Filled(portfolio[..portfolioCount], symbol, quantity, s.currentPrice) == Some(next.holdings)
               && next.log == Logged(transactions[..transactionCount], Transaction(symbol, Buy, quantity, s.currentPrice, now))
      modifies this`portfolioCount, this`transactionCount, stocks, portfolio, transactions
      ensures Allocated()
      ensures stocks[..stockCount] == next.catalog && portfolio[..portfolioCount] == next.holdings
      ensures transactions[..transactionCount] == next.log
    {
      var s := stocks[i];
      FillHolding(hi, symbol, quantity, s.currentPrice);
      stocks[i] := s.(quantityAvailable := s.quantityAvailable - quantity);
      assert stocks[..stockCount] == next.catalog;
      RecordTransaction(Transaction(symbol, Buy, quantity, s.currentPrice, now));
    }

    /** Sells `quantity` shares of the holding of `symbol` back to the first
        stock listed under it, at that stock's current price, reporting
        success. A holding sold down to zero is overwritten by the last
        holding. A refused sell changes nothing. */
    method SellStock(symbol: string, quantity: int, now: int) returns (ok: bool)
      requires Valid() && quantity > 0 && |symbol| < MaxSymbol
      modifies this, stocks, portfolio, transactions
      ensures Valid()
      ensures ok == Market.SellStock(old(model), symbol, quantity, now).Some?
      ensures ok ==> model == Market.SellStock(old(model), symbol, quantity, now).value
      ensures !ok ==> unchanged(this, stocks, portfolio, transactions)
    {
      var hi := FindPortfolioItem(symbol);
      if hi.None? || portfolio[hi.value].quantity < quantity {
        return false;
      }
      var k := hi.value;
      var si := FindStock(symbol);
      if si.None? {
        assert false;
        return false;
      }
      SettleSell(k, si.value, symbol, quantity, now);
      ok := true;
    }

    /** A sell that passed every check moves the tables, and the model, to the
        state Market.SellStock describes. */
    method SettleSell(k: nat, i: nat, symbol: string, quantity: int, now: int)
      requires Valid() && quantity > 0
      requires Market.HoldingIndex(model, symbol) == Some(k) && Market.StockIndex(model, symbol) == Some(i)
      requires model.holdings[k].quantity >= quantity
      modifies this, stocks, portfolio, transactions
      ensures Valid() && Market.SellStock(old(model), symbol, quantity, now) == Some(model)
    {
      ghost var next := Market.SellStock(model, symbol, quantity, now).value;
      Market.SellResult(model, symbol, quantity, now);
      Market.SellKeepsValid(model, symbol, quantity, now);
      ExecuteSell(k, i, symbol, quantity, now, next);
      model := next;
    }

    /** The bookkeeping of a sell that passed every check, bringing the tables
        to the state `next`: the holding gives up the shares, the stock takes
        them back, and the trade is logged. */
    method ExecuteSell(k: nat, i: nat, symbol: string, quantity: int, now: int, ghost next: Market.State)
      requires Allocated() && i < stockCount && k < portfolioCount
      requires var s := stocks[i];
               && next.catalog == stocks[..stockCount][i := s.(quantityAvailable := s.quantityAvailable + quantity)]
               && next.holdings == Sold(portfolio[..portfolioCount], k, quantity)
               && next.log == Logged(transactions[..transactionCount], Transaction(symbol, Sell, quantity, s.currentPrice, now))
      modifies this`portfolioCount, this`transactionCount, stocks, portfolio, transactions
      ensures Allocated()
      ensures stocks[..stockCount] == next.catalog && portfolio[..portfolioCount] == next.holdings
      ensures transactions[..transactionCount] == next.log
    {
      SellHolding(k, quantity);
      var s := stocks[i];
      stocks[i] := s.(quantityAvailable := s.quantityAvailable + quantity);
      assert stocks[..stockCount] == next.catalog;
      RecordTransaction(Transaction(symbol, Sell, quantity, s.currentPrice, now));
    }

    /** The portfolio half of a buy of `quantity` at `price`: the holding the
        lookup found, or else a new empty holding appended for `symbol`, takes
        the shares at the re-weighted average cost. */
    method FillHolding(hi: Option<nat>, symbol: string, quantity: int, price: real)
      requires portfolio.Length == MaxStocks && 0 <= portfolioCount <= MaxStocks
      requires hi == FirstIndexOf(HoldingSymbols(portfolio[..portfolioCount]), symbol)
      requires hi.Some? || portfolioCount < MaxStocks
      requires quantity > 0 && forall k :: 0 <= k < portfolioCount ==> portfolio[k].quantity >= 0
      modifies this`portfolioCount, portfolio
      ensures 0 <= portfolioCount <= MaxStocks
      ensures Market.Filled(old(portfolio[..portfolioCount]), symbol, quantity, price) == Some(portfolio[..portfolioCount])
    {
      ghost var hs := portfolio[..portfolioCount];
      var k: nat;
      if hi.None? {
        k := portfolioCount;
        portfolio[k] := Holding(symbol, 0, 0.0);
        portfolioCount := portfolioCount + 1;
      } else {
        k := hi.value;
      }
      portfolio[k] := Averaged(portfolio[k], quantity, price);
      if hi.None? {
        assert portfolio[..portfolioCount] == hs + [portfolio[k]];
      } else {
        assert portfolio[..portfolioCount] == hs[k := portfolio[k]];
      }
    }

    /** The portfolio half of a sell: holding `k` loses `quantity` shares and,
        once empty, is overwritten by the last holding. */
    method SellHolding(k: nat, quantity: int)
      requires portfolio.Length == MaxStocks && 0 <= portfolioCount <= MaxStocks && k < portfolioCount
      modifies this`portfolioCount, portfolio
      ensures 0 <= portfolioCount <= MaxStocks
      ensures portfolio[..portfolioCount] == Sold(old(portfolio[..portfolioCount]), k, quantity)
    {
      portfolio[k] := portfolio[k].(quantity := portfolio[k].quantity - quantity);
      if portfolio[k].quantity == 0 {
        portfolioCount := portfolioCount - 1;
        portfolio[k] := portfolio[portfolioCount];
      }
    }

    /** The trend string of stock `i`: one character per adjacent pair of its
        stored prices. */
    method StockTrend(i: int) returns (t: string)
      requires Valid() && 0 <= i < stockCount
      ensures t == Trend(model.histories[i])
    {
      ghost var h := model.histories[i];
      t := [];
      for j := 0 to stocks[i].historyCount
        invariant t == Trend(h[..j])
      {
        if j > 0 {
          t := t + [TrendChar(priceHistory[i, j - 1], priceHistory[i, j])];
          assert h[..j + 1][..j] == h[..j];
        }
      }
      assert h[..|h|] == h;
    }

    /** The market-trend report: for every stock its symbol, current price,
        change since the oldest stored price and trend string. */
    method MarketTrends() returns (rows: seq<TrendRow>)
      requires Valid()
      ensures |rows| == |model.catalog|
      ensures forall i :: 0 <= i < |rows| ==>
                var s := model.catalog[i];
                rows[i] == TrendRow(s.symbol, s.currentPrice, PriceChange(model.histories[i], s.currentPrice),
                                    Trend(model.histories[i]))
    {
      rows := [];
      for i := 0 to stockCount
        invariant |rows| == i
        invariant forall j :: 0 <= j < i ==>
                    var s := model.catalog[j];
                    rows[j] == TrendRow(s.symbol, s.currentPrice, PriceChange(model.histories[j], s.currentPrice),
                                        Trend(model.histories[j]))
      {
        var change := 0.0;
        if stocks[i].historyCount > 1 {
          change := stocks[i].currentPrice - priceHistory[i, 0];
        }
        var trend := StockTrend(i);
        rows := rows + [TrendRow(stocks[i].symbol, stocks[i].currentPrice, change, trend)];
      }
    }

    /** The statistics report's totals: none for an empty portfolio, otherwise
        the total current value and total cost basis of the holdings whose stock
        the lookup finds. */
    method PortfolioStats() returns (r: Option<Stats>)
      requires CatalogHeld() && PortfolioHeld()
      ensures r.None? <==> model.holdings == []
      ensures r.Some? ==> r.value == Stats(TotalValue(model.catalog, model.holdings), TotalCost(model.catalog, model.holdings))
    {
      if portfolioCount == 0 {
        return None;
      }
      ghost var cat, hs := model.catalog, model.holdings;
      var totalValue, totalCost := 0.0, 0.0;
      for k := 0 to portfolioCount
        invariant totalValue == TotalValue(cat, hs[..k])
        invariant totalCost == TotalCost(cat, hs[..k])
      {
        var item := portfolio[k];
        var si := FindStock(item.symbol);
        TotalsStep(cat, hs, k);
        if si.Some? {
          var s := stocks[si.value];
          var currentValue := Worth(s.currentPrice, item.quantity);
          var cost := Worth(item.buyPrice, item.quantity);
          ListedHoldingFigures(cat, item, si.value);
          totalValue := totalValue + currentValue;
          totalCost := totalCost + cost;
        }
      }
      assert hs[..portfolioCount] == hs;
      return Some(Stats(totalValue, totalCost));
    }

    /** The portfolio report's totals: the total current value, and the total
        profit or loss summed holding by holding, which comes to the value
        minus the cost basis. */
    method PortfolioTotals() returns (totalValue: real, totalProfitLoss: real)
      requires CatalogHeld() && PortfolioHeld()
      ensures totalValue == TotalValue(model.catalog, model.holdings)
      ensures totalProfitLoss == TotalProfitLoss(model.catalog, model.holdings)
      ensures totalProfitLoss == totalValue - TotalCost(model.catalog, model.holdings)
    {
      ghost var cat, hs := model.catalog, model.holdings;
      totalValue, totalProfitLoss := 0.0, 0.0;
      for k := 0 to portfolioCount
        invariant totalValue == TotalValue(cat, hs[..k])
        invariant totalProfitLoss == TotalProfitLoss(cat, hs[..k])
      {
        var item := portfolio[k];
        var si := FindStock(item.symbol);
        TotalsStep(cat, hs, k);
        if si.Some? {
          var s := stocks[si.value];
          var currentValue := Worth(s.currentPrice, item.quantity);
          var buyValue := Worth(item.buyPrice, item.quantity);
          ListedHoldingFigures(cat, item, si.value);
          totalValue := totalValue + currentValue;
          totalProfitLoss := totalProfitLoss + (currentValue - buyValue);
        }
      }
      assert hs[..portfolioCount] == hs;
    }
  }
}
