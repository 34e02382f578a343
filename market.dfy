/** The simulator's whole state as a value and its four state-changing
    operations (listing a stock, repricing it, buying, selling) as functions on
    it, with the properties they keep: the state invariant, the supply of every
    symbol, the bounded history, and the round trip of buying a symbol not held
    and then selling the same quantity. */
module Market {
  import opened Records
  import opened PriceHistory
  import opened Accounting
  import opened Statistics

  /** The catalog, the stored prices of each listed stock (same positions as
      the catalog), the portfolio and the transaction log. */
  datatype State = State(catalog: seq<Stock>, histories: seq<seq<real>>, holdings: seq<Holding>, log: seq<Transaction>)

  /** The state right after start-up: three empty tables. */
  const Empty: State := State([], [], [], [])

  /** A stock's stored prices agree with its entry: between 1 and HistoryLen of
      them, counted by `historyCount`, the newest being the current price. */
  predicate HistoryValid(s: Stock, h: seq<real>)
  {
    |h| == s.historyCount && 1 <= |h| <= HistoryLen && h[|h| - 1] == s.currentPrice
  }

  /** What every reachable state satisfies: the tables within capacity, every
      stock's history valid, and the portfolio invariant. */
  ghost predicate Valid(st: State)
  {
    && |st.catalog| <= MaxStocks && |st.holdings| <= MaxStocks && |st.log| <= MaxTransactions
    && |st.histories| == |st.catalog|
    && (forall i :: 0 <= i < |st.catalog| ==> HistoryValid(st.catalog[i], st.histories[i]))
    && PortfolioInvariant(StockSymbols(st.catalog), st.holdings)
  }

  /** The position the stock lookup finds for `symbol`: the first stock listed
      under it, or None when none is. */
  function StockIndex(st: State, symbol: string): (r: Option<nat>)
    ensures r.None? <==> forall i :: 0 <= i < |st.catalog| ==> st.catalog[i].symbol != symbol
    ensures r.Some? ==> r.value < |st.catalog| && st.catalog[r.value].symbol == symbol
    ensures r.Some? ==> forall i :: 0 <= i < r.value ==> st.catalog[i].symbol != symbol
  {
    FirstIndexOf(StockSymbols(st.catalog), symbol)
  }

  /** The position the portfolio lookup finds for `symbol`: the first holding
      of it, or None when there is none. */
  function HoldingIndex(st: State, symbol: string): (r: Option<nat>)
    ensures r.None? <==> forall k :: 0 <= k < |st.holdings| ==> st.holdings[k].symbol != symbol
    ensures r.Some? ==> r.value < |st.holdings| && st.holdings[r.value].symbol == symbol
    ensures r.Some? ==> forall k :: 0 <= k < r.value ==> st.holdings[k].symbol != symbol
  {
    FirstIndexOf(HoldingSymbols(st.holdings), symbol)
  }

  /** Listing: a full catalog refuses the stock; otherwise it is appended with
      its listing price as its only stored price. */
  function AddStock(st: State, symbol: string, price: real, quantity: int): (r: State)
    ensures r.holdings == st.holdings && r.log == st.log
    ensures |st.catalog| >= MaxStocks ==> r == st
    ensures |st.catalog| < MaxStocks ==>
              var n := |st.catalog|;
              && |r.catalog| == n + 1 && r.catalog[..n] == st.catalog && r.catalog[n] == Stock(symbol, price, quantity, 1)
              && |r.histories| == |st.histories| + 1 && r.histories[..|st.histories|] == st.histories
              && r.histories[|st.histories|] == [price]
  {
    if |st.catalog| >= MaxStocks then st
    else st.(catalog := st.catalog + [Stock(symbol, price, quantity, 1)], histories := st.histories + [[price]])
  }

  /** Repricing the stock the lookup finds: the current price changes and the
      price joins the bounded history; an unknown symbol changes nothing. */
  function UpdatePrice(st: State, symbol: string, newPrice: real): (r: State)
    requires |st.histories| == |st.catalog|
    ensures StockIndex(st, symbol).None? ==> r == st
    ensures r.holdings == st.holdings && r.log == st.log
    ensures |r.catalog| == |r.histories| == |st.catalog|
  {
    match StockIndex(st, symbol)
    case None => st
    case Some(i) =>
      var h := AppendBounded(st.histories[i], newPrice);
      st.(catalog := st.catalog[i := st.catalog[i].(currentPrice := newPrice, historyCount := |h|)],
          histories := st.histories[i := h])
  }

  /** The portfolio after a buy of `quantity` at `price`: the existing holding is
      re-averaged, or a new one is appended; None when a new holding is needed
      and the portfolio is full. */
  function Filled(hs: seq<Holding>, symbol: string, quantity: int, price: real): (r: Option<seq<Holding>>)
    requires forall k :: 0 <= k < |hs| ==> hs[k].quantity >= 0
    requires quantity > 0
    ensures r.None? <==> symbol !in HoldingSymbols(hs) && |hs| >= MaxStocks
    ensures r.Some? && symbol in HoldingSymbols(hs) ==> HoldingSymbols(r.value) == HoldingSymbols(hs)
    ensures r.Some? && symbol !in HoldingSymbols(hs) ==> HoldingSymbols(r.value) == HoldingSymbols(hs) + [symbol]
    ensures r.Some? && symbol in HoldingSymbols(hs) ==>
              var k := FirstIndexOf(HoldingSymbols(hs), symbol).value;
              && |r.value| == |hs|
              && r.value[k].quantity == hs[k].quantity + quantity
              && Worth(r.value[k].buyPrice, r.value[k].quantity) == Worth(hs[k].buyPrice, hs[k].quantity) + Worth(price, quantity)
              && forall j :: 0 <= j < |hs| && j != k ==> r.value[j] == hs[j]
    ensures r.Some? && symbol !in HoldingSymbols(hs) ==> r.value == hs + [Holding(symbol, quantity, price)]
  {
    match FirstIndexOf(HoldingSymbols(hs), symbol)
    case Some(k) => Some(hs[k := Averaged(hs[k], quantity, price)])
    case None =>
      if |hs| >= MaxStocks then None
      else
        FreshHoldingAtMarket(symbol, quantity, price);
        Some(hs + [Averaged(Holding(symbol, 0, 0.0), quantity, price)])
  }

  /** Buying at the current price: None, and no change, when the stock is not
      listed, fewer shares are available, or the portfolio has no room for a new
      holding; otherwise the shares move from the stock to the portfolio and the
      trade is logged while the log has room. */
  function BuyStock(st: State, symbol: string, quantity: int, now: int): (r: Option<State>)
    requires Valid(st) && quantity > 0
    ensures r.Some? <==>
              && StockIndex(st, symbol).Some?
              && st.catalog[StockIndex(st, symbol).value].quantityAvailable >= quantity
              && (HoldingIndex(st, symbol).Some? || |st.holdings| < MaxStocks)
  {
    match StockIndex(st, symbol)
    case None => None
    case Some(i) =>
      var s := st.catalog[i];
      if s.quantityAvailable < quantity then None
      else
        match Filled(st.holdings, symbol, quantity, s.currentPrice)
        case None => None
        case Some(hs) =>
          Some(State(st.catalog[i := s.(quantityAvailable := s.quantityAvailable - quantity)], st.histories, hs,
                     Logged(st.log, Transaction(symbol, Buy, quantity, s.currentPrice, now))))
  }

  /** Selling at the current price: None, and no change, when no holding has
      enough shares or the stock is not listed; otherwise the shares go back to
      the stock, an emptied holding is removed, and the trade is logged while
      the log has room. */
  function SellStock(st: State, symbol: string, quantity: int, now: int): (r: Option<State>)
    ensures r.Some? <==>
              && HoldingIndex(st, symbol).Some?
              && st.holdings[HoldingIndex(st, symbol).value].quantity >= quantity
              && StockIndex(st, symbol).Some?
  {
    match HoldingIndex(st, symbol)
    case None => None
    case Some(k) =>
      if st.holdings[k].quantity < quantity then None
      else
        match StockIndex(st, symbol)
        case None => None
        case Some(i) =>
          var s := st.catalog[i];
          Some(State(st.catalog[i := s.(quantityAvailable := s.quantityAvailable + quantity)], st.histories,
                     Sold(st.holdings, k, quantity),
                     Logged(st.log, Transaction(symbol, Sell, quantity, s.currentPrice, now))))
  }

  lemma EmptyValid()
    ensures Valid(Empty) && Empty.catalog == [] && Empty.holdings == [] && Empty.log == []
  {
  }

  /** Listing keeps the invariant. */
  lemma AddStockKeepsValid(st: State, symbol: string, price: real, quantity: int)
    requires Valid(st)
    ensures Valid(AddStock(st, symbol, price, quantity))
  {
    var r := AddStock(st, symbol, price, quantity);
    if |st.catalog| < MaxStocks {
      assert StockSymbols(r.catalog) == StockSymbols(st.catalog) + [symbol];
    }
  }

  /** Symbols are not checked for duplicates, and a duplicate is never found:
      a symbol that is already listed keeps resolving to its first listing,
      while a new symbol resolves to the new entry unless the catalog was
      full. */
  lemma AddStockShadowsDuplicates(st: State, symbol: string, price: real, quantity: int)
    ensures symbol in StockSymbols(st.catalog) ==>
              StockIndex(AddStock(st, symbol, price, quantity), symbol) == StockIndex(st, symbol)
    ensures symbol !in StockSymbols(st.catalog) && |st.catalog| < MaxStocks ==>
              StockIndex(AddStock(st, symbol, price, quantity), symbol) == Some(|st.catalog|)
  {
    var r := AddStock(st, symbol, price, quantity);
    if |st.catalog| < MaxStocks {
      var syms := StockSymbols(st.catalog);
      assert StockSymbols(r.catalog) == syms + [symbol];
      match StockIndex(st, symbol)
      case Some(i) =>
        FirstIndexOfUnique(syms + [symbol], symbol, i);
      case None =>
        FirstIndexOfUnique(syms + [symbol], symbol, |syms|);
    }
  }

  /** Repricing keeps the invariant and the listed symbols. */
  lemma UpdatePriceKeepsValid(st: State, symbol: string, newPrice: real)
    requires Valid(st)
    ensures Valid(UpdatePrice(st, symbol, newPrice))
    ensures StockSymbols(UpdatePrice(st, symbol, newPrice).catalog) == StockSymbols(st.catalog)
  {
    var r := UpdatePrice(st, symbol, newPrice);
    assert StockSymbols(r.catalog) == StockSymbols(st.catalog);
  }

  /** Repricing touches only the stock the lookup finds: its current price is
      the new price, its history is the bounded append, and every other stock
      and history, the portfolio and the log are as they were. */
  lemma UpdatePriceTouchesOnlyFound(st: State, symbol: string, newPrice: real)
    requires Valid(st)
    ensures var r := UpdatePrice(st, symbol, newPrice);
            && r.holdings == st.holdings && r.log == st.log
            && |r.catalog| == |st.catalog| && |r.histories| == |st.histories|
            && (forall j :: 0 <= j < |st.catalog| && Some(j) != StockIndex(st, symbol) ==>
                  r.catalog[j] == st.catalog[j] && r.histories[j] == st.histories[j])
            && (StockIndex(st, symbol).Some? ==>
                  var i := StockIndex(st, symbol).value;
                  && r.catalog[i].symbol == symbol
                  && r.catalog[i].currentPrice == newPrice
                  && r.catalog[i].quantityAvailable == st.catalog[i].quantityAvailable
                  && r.histories[i] == AppendBounded(st.histories[i], newPrice))
  {
  }

  /** Repricing `symbol` through `ps`, oldest first: a series of price
      updates, as consecutive calls make them. It models no source function of
      its own; it is what the lemmas below quantify over. */
  function Reprice(st: State, symbol: string, ps: seq<real>): (r: State)
    requires |st.histories| == |st.catalog|
    ensures |r.histories| == |r.catalog| == |st.catalog|
    decreases |ps|
  {
    if ps == [] then st
    else Reprice(UpdatePrice(st, symbol, ps[0]), symbol, ps[1..])
  }

  /** However many updates a listed stock receives, its history holds exactly
      the latest HistoryLen of all the prices it has had, oldest first, and its
      current price is the last update. */
  lemma RepricingKeepsLatest(st: State, symbol: string, ps: seq<real>)
    requires |st.histories| == |st.catalog| && StockIndex(st, symbol).Some?
    requires |st.histories[StockIndex(st, symbol).value]| <= HistoryLen && ps != []
    ensures var i := StockIndex(st, symbol).value;
            var r := Reprice(st, symbol, ps);
            && r.histories[i] == Window(st.histories[i] + ps)
            && r.catalog[i].currentPrice == ps[|ps| - 1]
  {
    RepriceFollowsHistory(st, symbol, ps);
    UpdatesKeepLatest(st.histories[StockIndex(st, symbol).value], ps);
  }

  /** Repricing a listed stock through `ps` applies the updates to its history
      one by one, the lookup keeps finding it, and its current price is the
      last of them. */
  lemma {:induction false} RepriceFollowsHistory(st: State, symbol: string, ps: seq<real>)
    requires |st.histories| == |st.catalog| && StockIndex(st, symbol).Some?
    ensures var i := StockIndex(st, symbol).value;
            var r := Reprice(st, symbol, ps);
            && StockIndex(r, symbol) == Some(i)
            && r.histories[i] == ApplyUpdates(st.histories[i], ps)
            && (ps != [] ==> r.catalog[i].currentPrice == ps[|ps| - 1])
    decreases |ps|
  {
    if ps != [] {
      var st' := UpdatePrice(st, symbol, ps[0]);
      RepriceStep(st, symbol, ps[0]);
      RepriceFollowsHistory(st', symbol, ps[1..]);
    }
  }

  /** One repricing of a listed stock, as the induction above uses it: the
      lookup still finds it, and only its price and history change. */
  lemma RepriceStep(st: State, symbol: string, p: real)
    requires |st.histories| == |st.catalog| && StockIndex(st, symbol).Some?
    ensures var i := StockIndex(st, symbol).value;
            var r := UpdatePrice(st, symbol, p);
            && StockIndex(r, symbol) == Some(i)
            && r.histories[i] == AppendBounded(st.histories[i], p)
            && r.catalog[i].currentPrice == p
  {
    var r := UpdatePrice(st, symbol, p);
    assert StockSymbols(r.catalog) == StockSymbols(st.catalog);
  }

  /** The parts of the state a successful buy produces. */
  lemma BuyResult(st: State, symbol: string, quantity: int, now: int)
    requires Valid(st) && quantity > 0 && BuyStock(st, symbol, quantity, now).Some?
    ensures var i := StockIndex(st, symbol).value;
            var s := st.catalog[i];
            var r := BuyStock(st, symbol, quantity, now).value;
            && i < |st.catalog|
            && r.catalog == st.catalog[i := s.(quantityAvailable := s.quantityAvailable - quantity)]
            && r.holdings == Filled(st.holdings, symbol, quantity, s.currentPrice).value
            && r.log == Logged(st.log, Transaction(symbol, Buy, quantity, s.currentPrice, now))
            && r.histories == st.histories
  {
  }

  /** A buy logged while the log has room ends the log with a record whose
      type code is 'B', for the symbol and quantity bought at the current price. */
  lemma BuyLogsCodeB(st: State, symbol: string, quantity: int, now: int)
    requires Valid(st) && quantity > 0 && BuyStock(st, symbol, quantity, now).Some?
    requires |st.log| < MaxTransactions
    ensures var r := BuyStock(st, symbol, quantity, now).value;
            var t := r.log[|r.log| - 1];
            && |r.log| == |st.log| + 1
            && t.side.Code() == 'B'
            && t.symbol == symbol && t.quantity == quantity
            && t.price == st.catalog[StockIndex(st, symbol).value].currentPrice
  {
    BuyResult(st, symbol, quantity, now);
  }

  /** A successful buy keeps the invariant and leaves the histories and the
      listed symbols alone. */
  lemma BuyKeepsValid(st: State, symbol: string, quantity: int, now: int)
    requires Valid(st) && quantity > 0 && BuyStock(st, symbol, quantity, now).Some?
    ensures var r := BuyStock(st, symbol, quantity, now).value;
            && Valid(r)
            && r.histories == st.histories
            && StockSymbols(r.catalog) == StockSymbols(st.catalog)
  {
    var r := BuyStock(st, symbol, quantity, now).value;
    var hs := st.holdings;
    assert StockSymbols(r.catalog) == StockSymbols(st.catalog);
    if HoldingIndex(st, symbol).None? {
      assert HoldingSymbols(r.holdings) == HoldingSymbols(hs) + [symbol];
    } else {
      assert HoldingSymbols(r.holdings) == HoldingSymbols(hs);
    }
  }

  /** A successful buy only moves shares from the market to the portfolio:
      for every symbol, shares available plus shares held stay the same. */
  lemma BuyConservesSupply(st: State, symbol: string, quantity: int, now: int)
    requires Valid(st) && quantity > 0 && BuyStock(st, symbol, quantity, now).Some?
    ensures var r := BuyStock(st, symbol, quantity, now).value;
            forall x :: Supply(r.catalog, r.holdings, x) == Supply(st.catalog, st.holdings, x)
  {
    var r := BuyStock(st, symbol, quantity, now).value;
    var i := StockIndex(st, symbol).value;
    var cat, hs := st.catalog, st.holdings;
    var s := cat[i];
    var k := HoldingIndex(st, symbol);
    var h := if k.Some? then Averaged(hs[k.value], quantity, s.currentPrice)
             else Averaged(Holding(symbol, 0, 0.0), quantity, s.currentPrice);
    assert r.holdings == if k.Some? then hs[k.value := h] else hs + [h];
    forall x
      ensures Supply(r.catalog, r.holdings, x) == Supply(cat, hs, x)
    {
      AvailableAfterUpdate(cat, i, r.catalog[i], x);
      if k.None? {
        assert r.holdings[..|hs|] == hs;
      } else {
        HeldAfterUpdate(hs, k.value, h, x);
      }
    }
  }

  /** A buy adds the price paid to the symbol's cost basis: the worth of the
      holding at its average cost grows by exactly the worth of the shares
      bought at the current price. */
  lemma BuyPaysCurrentPrice(st: State, symbol: string, quantity: int, now: int)
    requires Valid(st) && quantity > 0 && BuyStock(st, symbol, quantity, now).Some?
    ensures var r := BuyStock(st, symbol, quantity, now).value;
            var price := st.catalog[StockIndex(st, symbol).value].currentPrice;
            var k' := HoldingIndex(r, symbol);
            && k'.Some?
            && Worth(r.holdings[k'.value].buyPrice, r.holdings[k'.value].quantity)
               == (match HoldingIndex(st, symbol)
                   case Some(k) => Worth(st.holdings[k].buyPrice, st.holdings[k].quantity)
                   case None => 0.0)
                  + Worth(price, quantity)
  {
    var r := BuyStock(st, symbol, quantity, now).value;
    var hs := st.holdings;
    match HoldingIndex(st, symbol)
    case Some(k) =>
      assert HoldingSymbols(r.holdings) == HoldingSymbols(hs);
    case None =>
      assert HoldingSymbols(r.holdings) == HoldingSymbols(hs) + [symbol];
      FirstIndexOfUnique(HoldingSymbols(r.holdings), symbol, |hs|);
  }

  /** A buy raises the portfolio's total cost basis by exactly what was paid:
      the shares bought at the current price. */
  lemma BuyAddsToCostBasis(st: State, symbol: string, quantity: int, now: int)
    requires Valid(st) && quantity > 0 && BuyStock(st, symbol, quantity, now).Some?
    ensures var r := BuyStock(st, symbol, quantity, now).value;
            var price := st.catalog[StockIndex(st, symbol).value].currentPrice;
            TotalCost(r.catalog, r.holdings) == TotalCost(st.catalog, st.holdings) + Worth(price, quantity)
  {
    var r := BuyStock(st, symbol, quantity, now).value;
    var i := StockIndex(st, symbol).value;
    var cat, hs := st.catalog, st.holdings;
    var price := cat[i].currentPrice;
    BuyResult(st, symbol, quantity, now);
    assert StockSymbols(r.catalog) == StockSymbols(cat);
    TotalCostSameSymbols(r.catalog, cat, r.holdings);
    match HoldingIndex(st, symbol)
    case Some(k) =>
      var h := Averaged(hs[k], quantity, price);
      TotalCostAfterUpdate(cat, hs, k, h);
      ListedHoldingFigures(cat, h, i);
      ListedHoldingFigures(cat, hs[k], i);
    case None =>
      var h := Averaged(Holding(symbol, 0, 0.0), quantity, price);
      assert r.holdings == hs + [h];
      assert (hs + [h])[..|hs|] == hs;
      ListedHoldingFigures(cat, h, i);
  }

  /** The parts of the state a successful sell produces. */
  lemma SellResult(st: State, symbol: string, quantity: int, now: int)
    requires SellStock(st, symbol, quantity, now).Some?
    ensures var i := StockIndex(st, symbol).value;
            var k := HoldingIndex(st, symbol).value;
            var s := st.catalog[i];
            var r := SellStock(st, symbol, quantity, now).value;
            && i < |st.catalog| && k < |st.holdings|
            && r.catalog == st.catalog[i := s.(quantityAvailable := s.quantityAvailable + quantity)]
            && r.holdings == Sold(st.holdings, k, quantity)
            && r.log == Logged(st.log, Transaction(symbol, Sell, quantity, s.currentPrice, now))
            && r.histories == st.histories
  {
  }

  /** A sell logged while the log has room ends the log with a record whose
      type code is 'S', for the symbol and quantity sold at the current price. */
  lemma SellLogsCodeS(st: State, symbol: string, quantity: int, now: int)
    requires SellStock(st, symbol, quantity, now).Some?
    requires |st.log| < MaxTransactions
    ensures var r := SellStock(st, symbol, quantity, now).value;
            var t := r.log[|r.log| - 1];
            && |r.log| == |st.log| + 1
            && t.side.Code() == 'S'
            && t.symbol == symbol && t.quantity == quantity
            && t.price == st.catalog[StockIndex(st, symbol).value].currentPrice
  {
    SellResult(st, symbol, quantity, now);
  }

  /** A successful sell of a positive quantity keeps the invariant and leaves
      the histories and the listed symbols alone. */
  lemma SellKeepsValid(st: State, symbol: string, quantity: int, now: int)
    requires Valid(st) && quantity > 0 && SellStock(st, symbol, quantity, now).Some?
    ensures var r := SellStock(st, symbol, quantity, now).value;
            && Valid(r)
            && r.histories == st.histories
            && StockSymbols(r.catalog) == StockSymbols(st.catalog)
  {
    var r := SellStock(st, symbol, quantity, now).value;
    var k := HoldingIndex(st, symbol).value;
    var hs := st.holdings;
    assert StockSymbols(r.catalog) == StockSymbols(st.catalog);
    if hs[k].quantity == quantity {
      RemoveSwapKeepsInvariant(StockSymbols(st.catalog), hs, k);
    } else {
      assert HoldingSymbols(r.holdings) == HoldingSymbols(hs);
    }
  }

  /** Selling a whole holding removes it, and only it: the symbol is no longer
      held and every other holding is still there. */
  lemma SellOutRemovesHolding(st: State, symbol: string, quantity: int, now: int)
    requires Valid(st) && SellStock(st, symbol, quantity, now).Some?
    requires st.holdings[HoldingIndex(st, symbol).value].quantity == quantity
    ensures var r := SellStock(st, symbol, quantity, now).value;
            var k := HoldingIndex(st, symbol).value;
            && symbol !in HoldingSymbols(r.holdings)
            && multiset(r.holdings) == multiset(st.holdings) - multiset{st.holdings[k]}
  {
    var k := HoldingIndex(st, symbol).value;
    RemoveSwapKeepsInvariant(StockSymbols(st.catalog), st.holdings, k);
    RemoveSwapMultiset(st.holdings, k);
  }

  /** A successful sell only moves shares from the portfolio back to the
      market: for every symbol, shares available plus shares held stay the
      same. */
  lemma SellConservesSupply(st: State, symbol: string, quantity: int, now: int)
    requires SellStock(st, symbol, quantity, now).Some?
    ensures var r := SellStock(st, symbol, quantity, now).value;
            forall x :: Supply(r.catalog, r.holdings, x) == Supply(st.catalog, st.holdings, x)
  {
    var r := SellStock(st, symbol, quantity, now).value;
    var k := HoldingIndex(st, symbol).value;
    var i := StockIndex(st, symbol).value;
    var cat, hs := st.catalog, st.holdings;
    forall x
      ensures Supply(r.catalog, r.holdings, x) == Supply(cat, hs, x)
    {
      AvailableAfterUpdate(cat, i, r.catalog[i], x);
      if hs[k].quantity == quantity {
        HeldAfterRemoveSwap(hs, k, x);
      } else {
        HeldAfterUpdate(hs, k, hs[k].(quantity := hs[k].quantity - quantity), x);
      }
    }
  }

  /** Buying a symbol not held opens one new holding at the end of the
      portfolio, at the current price, which the lookup then finds; the stock
      stays where it was. */
  lemma BuyOpensHolding(st: State, symbol: string, quantity: int, now: int)
    requires Valid(st) && quantity > 0 && HoldingIndex(st, symbol).None?
    requires BuyStock(st, symbol, quantity, now).Some?
    ensures var i := StockIndex(st, symbol).value;
            var s := st.catalog[i];
            var r := BuyStock(st, symbol, quantity, now).value;
            && r.holdings == st.holdings + [Holding(symbol, quantity, s.currentPrice)]
            && HoldingIndex(r, symbol) == Some(|st.holdings|)
            && StockIndex(r, symbol) == Some(i)
            && r.catalog == st.catalog[i := s.(quantityAvailable := s.quantityAvailable - quantity)]
  {
    var r := BuyStock(st, symbol, quantity, now).value;
    var i := StockIndex(st, symbol).value;
    BuyResult(st, symbol, quantity, now);
    FreshHoldingAtMarket(symbol, quantity, st.catalog[i].currentPrice);
    assert StockSymbols(r.catalog) == StockSymbols(st.catalog);
    assert HoldingSymbols(r.holdings) == HoldingSymbols(st.holdings) + [symbol];
    FirstIndexOfUnique(HoldingSymbols(r.holdings), symbol, |st.holdings|);
  }

  /** Buying shares of a symbol not held and then selling all of them restores
      the catalog and the portfolio exactly; only the log remembers. */
  lemma BuyThenSellRestores(st: State, symbol: string, quantity: int, t1: int, t2: int)
    requires Valid(st) && quantity > 0 && HoldingIndex(st, symbol).None?
    requires BuyStock(st, symbol, quantity, t1).Some?
    ensures var mid := BuyStock(st, symbol, quantity, t1).value;
            var r := SellStock(mid, symbol, quantity, t2);
            && r.Some?
            && r.value.catalog == st.catalog
            && r.value.holdings == st.holdings
  {
    var mid := BuyStock(st, symbol, quantity, t1).value;
    BuyOpensHolding(st, symbol, quantity, t1);
    var i := StockIndex(st, symbol).value;
    assert mid.catalog[i := st.catalog[i]] == st.catalog;
    assert RemoveSwap(mid.holdings, |st.holdings|) == st.holdings;
  }
}
