/** A stock's bounded price history and the two figures the market-trend report
    derives from it: the change since the oldest stored price and the
    adjacent-pair trend string. */
module PriceHistory {
  import opened Records

  /** The history after one more price: appended while there is room, otherwise
      the oldest price is dropped to make room at the newest end. */
  function AppendBounded(h: seq<real>, p: real): (r: seq<real>)
    ensures |r| == if |h| < HistoryLen then |h| + 1 else |h|
    ensures r[|r| - 1] == p
    ensures |h| < HistoryLen ==> r[..|h|] == h
    ensures |h| >= HistoryLen ==> r[..|r| - 1] == h[1..]
  {
    if |h| < HistoryLen then h + [p] else h[1..] + [p]
  }

  /** The most recent HistoryLen entries of `s`, oldest first. */
  function Window(s: seq<real>): (w: seq<real>)
    ensures |w| == if |s| <= HistoryLen then |s| else HistoryLen
    ensures w == s[|s| - |w|..]
  {
    if |s| <= HistoryLen then s else s[|s| - HistoryLen..]
  }

  /** The history after a series of price updates, applied oldest first. */
  function ApplyUpdates(h: seq<real>, ps: seq<real>): seq<real>
    decreases |ps|
  {
    if ps == [] then h else ApplyUpdates(AppendBounded(h, ps[0]), ps[1..])
  }

  /** One bounded append keeps exactly the latest prices. */
  lemma AppendIsWindow(h: seq<real>, p: real)
    requires |h| <= HistoryLen
    ensures AppendBounded(h, p) == Window(h + [p])
  {
    if |h| == HistoryLen {
      assert (h + [p])[|h + [p]| - HistoryLen..] == h[1..] + [p];
    }
  }

  /** Trimming early does not change which prices are the latest ones. */
  lemma WindowOfWindow(s: seq<real>, t: seq<real>)
    ensures Window(Window(s) + t) == Window(s + t)
  {
    var w := Window(s);
    var k := |s| - |w|;
    assert s == s[..k] + w;
    assert s + t == s[..k] + (w + t);
    var n := |Window(s + t)|;
    assert n <= |w + t|;
    assert Window(w + t) == (w + t)[|w + t| - n..];
    assert (s + t)[|s + t| - n..] == (w + t)[|w + t| - n..];
  }

  /** Any number of updates leaves exactly the last min(n, HistoryLen) prices of
      everything recorded, oldest first. */
  lemma {:induction false} UpdatesKeepLatest(h: seq<real>, ps: seq<real>)
    requires |h| <= HistoryLen
    ensures ApplyUpdates(h, ps) == Window(h + ps)
    decreases |ps|
  {
    if ps == [] {
      assert h + ps == h;
    } else {
      var h', rest := AppendBounded(h, ps[0]), ps[1..];
      calc {
        ApplyUpdates(h, ps);
        ApplyUpdates(h', rest);
        { UpdatesKeepLatest(h', rest); }
        Window(h' + rest);
        { AppendIsWindow(h, ps[0]); }
        Window(Window(h + [ps[0]]) + rest);
        { WindowOfWindow(h + [ps[0]], rest); }
        Window(h + [ps[0]] + rest);
        { assert h + [ps[0]] + rest == h + ps; }
        Window(h + ps);
      }
    }
  }

  /** A stock listed at `p0` and then repriced HistoryLen or more times keeps
      only the last HistoryLen new prices: the listing price is gone. */
  lemma ListingPriceEvicted(p0: real, ps: seq<real>)
    requires |ps| >= HistoryLen
    ensures ApplyUpdates([p0], ps) == ps[|ps| - HistoryLen..]
  {
    UpdatesKeepLatest([p0], ps);
    assert ([p0] + ps)[|ps| + 1 - HistoryLen..] == ps[|ps| - HistoryLen..];
  }

  /** The report's change column: current price minus the oldest stored price,
      or 0 while only one price is stored. */
  function PriceChange(h: seq<real>, currentPrice: real): (r: real)
    ensures |h| <= 1 ==> r == 0.0
    ensures |h| > 1 ==> h[0] + r == currentPrice
  {
    if |h| > 1 then currentPrice - h[0] else 0.0
  }

  /** After listing at `p0` and repricing through `ps`, the change column is the
      latest price minus the price HistoryLen - 1 updates earlier, or minus the
      listing price when fewer updates have happened. */
  lemma ChangeOverWindow(p0: real, ps: seq<real>)
    requires |ps| > 0
    ensures var all := [p0] + ps;
            var first := if |all| <= HistoryLen then 0 else |all| - HistoryLen;
            PriceChange(ApplyUpdates([p0], ps), ps[|ps| - 1]) == ps[|ps| - 1] - all[first]
  {
    var all := [p0] + ps;
    var first := if |all| <= HistoryLen then 0 else |all| - HistoryLen;
    UpdatesKeepLatest([p0], ps);
    var w := Window(all);
    assert |w| > 1;
    assert w[0] == all[first];
  }

  /** One trend character: '+' for a rise, '-' for a fall, '=' otherwise. */
  function TrendChar(prev: real, cur: real): (c: char)
    ensures c == '+' <==> cur > prev
    ensures c == '-' <==> cur < prev
    ensures c == '=' <==> cur == prev
  {
    if cur > prev then '+' else if cur < prev then '-' else '='
  }

  /** The trend string: one character per adjacent pair of stored prices. */
  function Trend(h: seq<real>): (t: seq<char>)
    ensures |t| == if |h| == 0 then 0 else |h| - 1
    ensures forall j :: 0 <= j < |t| ==> t[j] == TrendChar(h[j], h[j + 1])
    decreases |h|
  {
    if |h| < 2 then [] else Trend(h[..|h| - 1]) + [TrendChar(h[|h| - 2], h[|h| - 1])]
  }
}
