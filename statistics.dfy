/** The portfolio figures the reports accumulate: per holding, the current
    value (market price times shares) and the cost basis (average cost times
    shares), both taken as 0 for a holding whose stock the lookup does not
    find; and their sums over the portfolio. */
module Statistics {
  import opened Records

  /** The totals the statistics report prints; the overall profit or loss is
      their difference. */
  datatype Stats = Stats(totalValue: real, totalCost: real)

  function HoldingValue(cat: seq<Stock>, h: Holding): (r: real)
    ensures h.symbol !in StockSymbols(cat) ==> r == 0.0
  {
    match FirstIndexOf(StockSymbols(cat), h.symbol)
    case Some(i) => Worth(cat[i].currentPrice, h.quantity)
    case None => 0.0
  }

  function HoldingCost(cat: seq<Stock>, h: Holding): (r: real)
    ensures h.symbol !in StockSymbols(cat) ==> r == 0.0
  {
    match FirstIndexOf(StockSymbols(cat), h.symbol)
    case Some(_) => Worth(h.buyPrice, h.quantity)
    case None => 0.0
  }

  /** The figures of a holding whose stock the lookup finds at position `i`. */
  lemma ListedHoldingFigures(cat: seq<Stock>, h: Holding, i: nat)
    requires FirstIndexOf(StockSymbols(cat), h.symbol) == Some(i)
    ensures HoldingValue(cat, h) == Worth(cat[i].currentPrice, h.quantity)
    ensures HoldingCost(cat, h) == Worth(h.buyPrice, h.quantity)
  {
  }

  /** The total current value of the holdings, first to last; holdings whose
      stock the lookup does not find add nothing. */
  function TotalValue(cat: seq<Stock>, hs: seq<Holding>): real
    decreases |hs|
  {
    if hs == [] then 0.0 else TotalValue(cat, hs[..|hs| - 1]) + HoldingValue(cat, hs[|hs| - 1])
  }

  /** The total cost basis of the holdings, first to last; holdings whose
      stock the lookup does not find add nothing. */
  function TotalCost(cat: seq<Stock>, hs: seq<Holding>): real
    decreases |hs|
  {
    if hs == [] then 0.0 else TotalCost(cat, hs[..|hs| - 1]) + HoldingCost(cat, hs[|hs| - 1])
  }

  /** The sum of the per-holding profits and losses, as the portfolio report
      accumulates it: exactly total value minus total cost basis. */
  function TotalProfitLoss(cat: seq<Stock>, hs: seq<Holding>): (r: real)
    ensures r == TotalValue(cat, hs) - TotalCost(cat, hs)
    decreases |hs|
  {
    if hs == [] then 0.0
    else TotalProfitLoss(cat, hs[..|hs| - 1]) + (HoldingValue(cat, hs[|hs| - 1]) - HoldingCost(cat, hs[|hs| - 1]))
  }

  /** Extending a prefix of the portfolio by one holding adds that holding's
      figures to each running total. */
  lemma TotalsStep(cat: seq<Stock>, hs: seq<Holding>, k: nat)
    requires k < |hs|
    ensures TotalValue(cat, hs[..k + 1]) == TotalValue(cat, hs[..k]) + HoldingValue(cat, hs[k])
    ensures TotalCost(cat, hs[..k + 1]) == TotalCost(cat, hs[..k]) + HoldingCost(cat, hs[k])
    ensures TotalProfitLoss(cat, hs[..k + 1]) == TotalProfitLoss(cat, hs[..k]) + (HoldingValue(cat, hs[k]) - HoldingCost(cat, hs[k]))
  {
    assert hs[..k + 1][..k] == hs[..k];
  }

  /** Replacing holding `k` changes the total cost basis by the difference of
      the two holdings' costs. */
  lemma {:induction false} TotalCostAfterUpdate(cat: seq<Stock>, hs: seq<Holding>, k: nat, h: Holding)
    requires k < |hs|
    ensures TotalCost(cat, hs[k := h]) == TotalCost(cat, hs) - HoldingCost(cat, hs[k]) + HoldingCost(cat, h)
    decreases |hs|
  {
    var n := |hs|;
    if k == n - 1 {
      assert hs[k := h][..n - 1] == hs[..n - 1];
    } else {
      assert hs[k := h][..n - 1] == hs[..n - 1][k := h];
      TotalCostAfterUpdate(cat, hs[..n - 1], k, h);
    }
  }

  /** The total cost basis depends on the catalog only through its symbols. */
  lemma {:induction false} TotalCostSameSymbols(cat: seq<Stock>, cat': seq<Stock>, hs: seq<Holding>)
    requires StockSymbols(cat) == StockSymbols(cat')
    ensures TotalCost(cat, hs) == TotalCost(cat', hs)
    decreases |hs|
  {
    if hs != [] {
      TotalCostSameSymbols(cat, cat', hs[..|hs| - 1]);
    }
  }
}
