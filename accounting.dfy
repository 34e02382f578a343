/** The bookkeeping rules of the trading engine, stated on sequences: the
    weighted-average cost of a holding, the unordered removal of an emptied
    holding, the capped transaction log, the invariant the portfolio keeps, and
    the supply of each symbol that buys and sells conserve. */
module Accounting {
  import opened Records

  /** The holding after buying `q` more shares at `price`: the quantities add
      up and the average cost is re-weighted by quantity. */
  function Averaged(h: Holding, q: int, price: real): (r: Holding)
    requires h.quantity >= 0 && q > 0
    ensures r.symbol == h.symbol && r.quantity == h.quantity + q
    ensures Worth(r.buyPrice, r.quantity) == Worth(h.buyPrice, h.quantity) + Worth(price, q)
  {
    var totalCost := Worth(h.buyPrice, h.quantity) + Worth(price, q);
    Holding(h.symbol, h.quantity + q, totalCost / (h.quantity + q) as real)
  }

  /** A holding opened by a buy costs exactly the price paid. */
  lemma FreshHoldingAtMarket(symbol: string, q: int, price: real)
    requires q > 0
    ensures Averaged(Holding(symbol, 0, 0.0), q, price) == Holding(symbol, q, price)
  {
  }

  /** Two buys at different prices leave the quantity-weighted average of the
      two fills as the cost. */
  lemma TwoFillsAverage(symbol: string, q1: int, p1: real, q2: int, p2: real)
    requires q1 > 0 && q2 > 0
    ensures Averaged(Averaged(Holding(symbol, 0, 0.0), q1, p1), q2, p2)
            == Holding(symbol, q1 + q2, (p1 * q1 as real + p2 * q2 as real) / (q1 + q2) as real)
  {
    FreshHoldingAtMarket(symbol, q1, p1);
  }

  /** The unordered removal of position `k`: the last element moves into the
      hole and the sequence shrinks by one. */
  function RemoveSwap<T>(s: seq<T>, k: nat): (r: seq<T>)
    requires k < |s|
    ensures |r| == |s| - 1
    ensures forall j :: 0 <= j < |r| && j != k ==> r[j] == s[j]
    ensures k < |r| ==> r[k] == s[|s| - 1]
  {
    s[k := s[|s| - 1]][..|s| - 1]
  }

  /** What the removal keeps: every element but the removed one, in any order. */
  lemma RemoveSwapMultiset<T>(s: seq<T>, k: nat)
    requires k < |s|
    ensures multiset(RemoveSwap(s, k)) == multiset(s) - multiset{s[k]}
  {
    var n := |s|;
    var t := s[k := s[n - 1]];
    assert t == t[..n - 1] + [t[n - 1]];
    assert multiset(t) == multiset(t[..n - 1]) + multiset{s[n - 1]};
    assert s == s[..k] + [s[k]] + s[k + 1..];
    assert t == s[..k] + [s[n - 1]] + s[k + 1..];
  }

  /** The portfolio after selling `q` of the `k`-th holding's shares: a holding
      that reaches zero is removed, otherwise its quantity drops. */
  function Sold(hs: seq<Holding>, k: nat, q: int): (r: seq<Holding>)
    requires k < |hs|
    ensures hs[k].quantity == q ==> r == RemoveSwap(hs, k)
    ensures hs[k].quantity != q ==>
              && |r| == |hs| && r[k] == Holding(hs[k].symbol, hs[k].quantity - q, hs[k].buyPrice)
              && forall j :: 0 <= j < |hs| && j != k ==> r[j] == hs[j]
  {
    if hs[k].quantity == q then RemoveSwap(hs, k)
    else hs[k := hs[k].(quantity := hs[k].quantity - q)]
  }

  /** The log after a trade: the record is appended while there is room and
      silently dropped once the log is full. */
  function Logged(log: seq<Transaction>, t: Transaction): (r: seq<Transaction>)
    ensures |log| < MaxTransactions ==> r == log + [t]
    ensures |log| >= MaxTransactions ==> r == log
  {
    if |log| < MaxTransactions then log + [t] else log
  }

  /** The log never outgrows its capacity and never rewrites a record. */
  lemma LoggedKeepsHistory(log: seq<Transaction>, t: Transaction)
    requires |log| <= MaxTransactions
    ensures |Logged(log, t)| <= MaxTransactions
    ensures Logged(log, t)[..|log|] == log
    ensures |Logged(log, t)| == |log| + 1 <==> |log| < MaxTransactions
  {
  }

  /** What the engine maintains about the portfolio, given the symbols of the
      catalog: no holding is empty, each refers to a listed stock, and no
      symbol is held twice. */
  ghost predicate PortfolioInvariant(listed: seq<string>, hs: seq<Holding>)
  {
    (forall k :: 0 <= k < |hs| ==> hs[k].quantity > 0 && hs[k].symbol in listed)
    && (forall k, l :: 0 <= k < l < |hs| ==> hs[k].symbol != hs[l].symbol)
  }

  /** Emptying and removing a holding keeps the invariant, and its symbol is
      no longer held. */
  lemma RemoveSwapKeepsInvariant(listed: seq<string>, hs: seq<Holding>, k: nat)
    requires k < |hs| && PortfolioInvariant(listed, hs)
    ensures PortfolioInvariant(listed, RemoveSwap(hs, k))
    ensures hs[k].symbol !in HoldingSymbols(RemoveSwap(hs, k))
  {
    var r := RemoveSwap(hs, k);
    var n := |hs|;
    assert forall j :: 0 <= j < |r| ==> r[j] == if j == k then hs[n - 1] else hs[j];
  }

  /** Shares of `x` in one holding. */
  function Contribution(h: Holding, x: string): int
  {
    if h.symbol == x then h.quantity else 0
  }

  /** Shares of `x` over all holdings. */
  function Held(hs: seq<Holding>, x: string): int
    decreases |hs|
  {
    if hs == [] then 0 else Held(hs[..|hs| - 1], x) + Contribution(hs[|hs| - 1], x)
  }

  /** Replacing one holding changes the total by the difference it makes. */
  lemma {:induction false} HeldAfterUpdate(hs: seq<Holding>, k: nat, h: Holding, x: string)
    requires k < |hs|
    ensures Held(hs[k := h], x) == Held(hs, x) - Contribution(hs[k], x) + Contribution(h, x)
    decreases |hs|
  {
    var n := |hs|;
    if k == n - 1 {
      assert hs[k := h][..n - 1] == hs[..n - 1];
    } else {
      assert hs[k := h][..n - 1] == hs[..n - 1][k := h];
      HeldAfterUpdate(hs[..n - 1], k, h, x);
    }
  }

  /** Removing a holding takes exactly its shares out of the total. */
  lemma HeldAfterRemoveSwap(hs: seq<Holding>, k: nat, x: string)
    requires k < |hs|
    ensures Held(RemoveSwap(hs, k), x) == Held(hs, x) - Contribution(hs[k], x)
  {
    var n := |hs|;
    var t := hs[k := hs[n - 1]];
    HeldAfterUpdate(hs, k, hs[n - 1], x);
    assert t[..n - 1] == RemoveSwap(hs, k);
  }

  /** With no symbol held twice, the shares of `x` are those of the one holding
      that lookup finds, or none. */
  lemma {:induction false} HeldIsHoldingQuantity(hs: seq<Holding>, x: string)
    requires forall k, l :: 0 <= k < l < |hs| ==> hs[k].symbol != hs[l].symbol
    ensures Held(hs, x) == match FirstIndexOf(HoldingSymbols(hs), x)
                           case Some(k) => hs[k].quantity
                           case None => 0
    decreases |hs|
  {
    if hs != [] {
      var n := |hs|;
      var init := hs[..n - 1];
      HeldIsHoldingQuantity(init, x);
      assert HoldingSymbols(hs) == HoldingSymbols(init) + [hs[n - 1].symbol];
      if hs[n - 1].symbol == x {
        assert x !in HoldingSymbols(init);
        FirstIndexOfUnique(HoldingSymbols(hs), x, n - 1);
      } else {
        match FirstIndexOf(HoldingSymbols(init), x)
        case Some(k) =>
          FirstIndexOfUnique(HoldingSymbols(hs), x, k);
        case None =>
          assert x !in HoldingSymbols(hs);
      }
    }
  }

  /** Shares of `x` still available on the market: those of the first listed
      stock with that symbol, the one every lookup finds. */
  function Available(cat: seq<Stock>, x: string): int
  {
    match FirstIndexOf(StockSymbols(cat), x)
    case Some(i) => cat[i].quantityAvailable
    case None => 0
  }

  /** Rewriting the stock a lookup finds, symbol kept, changes the availability
      of that symbol only. */
  lemma AvailableAfterUpdate(cat: seq<Stock>, i: nat, s: Stock, x: string)
    requires i < |cat| && s.symbol == cat[i].symbol
    requires FirstIndexOf(StockSymbols(cat), s.symbol) == Some(i)
    ensures Available(cat[i := s], x) == if x == s.symbol then s.quantityAvailable else Available(cat, x)
  {
    assert StockSymbols(cat[i := s]) == StockSymbols(cat);
  }

  /** The conserved quantity of a symbol: shares on the market plus shares held. */
  function Supply(cat: seq<Stock>, hs: seq<Holding>, x: string): int
  {
    Available(cat, x) + Held(hs, x)
  }
}
