/** The records of the stock simulator: the catalog entry (Stock), the portfolio
    entry (Holding) and the log entry (Transaction), the fixed capacities of the
    three tables, and the first-match symbol search both tables use. */
module Records {

  /** Size of the symbol buffers, terminating NUL included: symbols hold at most
      MaxSymbol - 1 characters. */
  const MaxSymbol: nat := 10
  /** Capacity of the catalog, and also of the portfolio. */
  const MaxStocks: nat := 100
  /** Capacity of the transaction log. */
  const MaxTransactions: nat := 1000
  /** Number of prices a stock's history keeps. */
  const HistoryLen: nat := 30

  datatype Option<T> = None | Some(value: T)

  /** A catalog entry without its price history, which the ledger keeps in a
      fixed buffer of its own; `historyCount` says how much of it is in use. */
  datatype Stock = Stock(symbol: string, currentPrice: real, quantityAvailable: int, historyCount: int)

  /** A position in one stock: shares owned and their weighted-average cost. */
  datatype Holding = Holding(symbol: string, quantity: int, buyPrice: real)

  /** The 'B' and 'S' codes of the log. */
  datatype Side = Buy | Sell {
    function Code(): (c: char)
      ensures c == 'B' <==> this == Buy
      ensures c == 'S' <==> this == Sell
    {
      match this
      case Buy => 'B'
      case Sell => 'S'
    }
  }

  /** One executed trade; `timestamp` is whatever clock value the caller supplies. */
  datatype Transaction = Transaction(symbol: string, side: Side, quantity: int, price: real, timestamp: int)

  /** The worth of `quantity` shares at `price` each. */
  function Worth(price: real, quantity: int): real
  {
    price * quantity as real
  }

  function StockSymbols(cat: seq<Stock>): (syms: seq<string>)
    ensures |syms| == |cat|
    ensures forall i :: 0 <= i < |cat| ==> syms[i] == cat[i].symbol
  {
    seq(|cat|, i requires 0 <= i < |cat| => cat[i].symbol)
  }

  function HoldingSymbols(hs: seq<Holding>): (syms: seq<string>)
    ensures |syms| == |hs|
    ensures forall k :: 0 <= k < |hs| ==> syms[k] == hs[k].symbol
  {
    seq(|hs|, k requires 0 <= k < |hs| => hs[k].symbol)
  }

  /** The linear search of both lookups: the lowest position holding `x`, or
      None when no position does. */
  function FirstIndexOf(syms: seq<string>, x: string): (r: Option<nat>)
    ensures r.None? <==> x !in syms
    ensures r.Some? ==> r.value < |syms| && syms[r.value] == x
    ensures r.Some? ==> forall j :: 0 <= j < r.value ==> syms[j] != x
  {
    if |syms| == 0 then None
    else if syms[0] == x then Some(0)
    else
      match FirstIndexOf(syms[1..], x)
      case None => None
      case Some(i) => Some(i + 1)
  }

  /** The ensures of FirstIndexOf pin its result down: any position that holds
      `x` and has no `x` before it is the one it returns. */
  lemma FirstIndexOfUnique(syms: seq<string>, x: string, i: nat)
    requires i < |syms| && syms[i] == x
    requires forall j :: 0 <= j < i ==> syms[j] != x
    ensures FirstIndexOf(syms, x) == Some(i)
  {
  }
}
