/**
 The moving-average strategy over a daily price series: a price path built
 as 50,000 plus the running sum of the daily changes, its 20- and 50-day
 simple moving averages, and a Bullish/Bearish signal from their crossover.
 The daily changes are an input (the script draws them at random).
 */
module Quant {
  import opened Base

  /** The price before the first change. */
  const StartPrice: real := 50000.0

  // ---------------------------------------------------------------------------
  // Price path: the start price plus the running sum of the daily changes
  // ---------------------------------------------------------------------------

  /** The price path: each day's price is the start price plus every change up to that day. */
  method PricePath(changes: seq<real>) returns (prices: seq<real>)
    ensures |prices| == |changes|
    ensures forall i :: 0 <= i < |changes| ==> prices[i] == StartPrice + Sum(changes[..i + 1])
  {
    prices := [];
    var acc := StartPrice;
    var i := 0;
    while i < |changes|
      invariant 0 <= i <= |changes|
      invariant |prices| == i
      invariant acc == StartPrice + Sum(changes[..i])
      invariant forall k :: 0 <= k < i ==> prices[k] == StartPrice + Sum(changes[..k + 1])
    {
      SumSnoc(changes, i);
      acc := acc + changes[i];
      prices := prices + [acc];
      i := i + 1;
    }
  }

  /** Consecutive prices differ by that day's change; the first is the start price plus the first change. */
  lemma PriceSteps(changes: seq<real>, prices: seq<real>)
    requires |prices| == |changes|
    requires forall i :: 0 <= i < |changes| ==> prices[i] == StartPrice + Sum(changes[..i + 1])
    ensures |changes| > 0 ==> prices[0] == StartPrice + changes[0]
    ensures forall i :: 1 <= i < |changes| ==> prices[i] - prices[i - 1] == changes[i]
  {
    if |changes| > 0 {
      assert changes[..1][1..] == [];
      assert Sum(changes[..1]) == changes[0];
    }
    forall i | 1 <= i < |changes| ensures prices[i] - prices[i - 1] == changes[i] {
      SumSnoc(changes, i);
    }
  }

  // ---------------------------------------------------------------------------
  // Moving average over a fixed window, missing until the window is full
  // ---------------------------------------------------------------------------

  /**
   The `w`-day simple moving average on day `i`: the mean of the prices of
   days `i - w + 1` to `i`, missing while fewer than `w` days have passed.
   */
  function WindowMean(xs: seq<real>, i: nat, w: nat): (m: Option<real>)
    requires w >= 1 && i < |xs|
    ensures m.None? <==> i + 1 < w
  {
    if i + 1 < w then None else Some(Sum(xs[i + 1 - w..i + 1]) / w as real)
  }

  /** The moving-average column as a whole. */
  function Rolling(xs: seq<real>, w: nat): (r: seq<Option<real>>)
    requires w >= 1
    ensures |r| == |xs|
    ensures forall i :: 0 <= i < |xs| ==> r[i] == WindowMean(xs, i, w)
  {
    seq(|xs|, i requires 0 <= i < |xs| => WindowMean(xs, i, w))
  }

  /** A window grows by its next value. */
  lemma SumSliceSnoc(xs: seq<real>, a: nat, b: nat)
    requires a <= b < |xs|
    ensures Sum(xs[a..b + 1]) == Sum(xs[a..b]) + xs[b]
  {
    var s := xs[a..b + 1];
    SumSnoc(s, b - a);
    assert s[..b - a] == xs[a..b];
    assert s[..b - a + 1] == s;
  }

  /** A window shrinks by its first value. */
  lemma SumSliceDropFirst(xs: seq<real>, a: nat, b: nat)
    requires a < b <= |xs|
    ensures Sum(xs[a + 1..b]) == Sum(xs[a..b]) - xs[a]
  {
    assert xs[a..b][1..] == xs[a + 1..b];
  }

  /**
   The moving average computed the way a rolling window is: a running sum
   that gains the newest value each day and loses the value that falls out
   of the window.
   */
  method RollingMean(xs: seq<real>, w: nat) returns (r: seq<Option<real>>)
    requires w >= 1
    ensures r == Rolling(xs, w)
  {
    r := [];
    var sum := 0.0;
    var lo := 0;
    var i := 0;
    while i < |xs|
      invariant 0 <= lo <= i <= |xs|
      invariant i - lo == Min(i, w)
      invariant sum == Sum(xs[lo..i])
      invariant |r| == i
      invariant forall k :: 0 <= k < i ==> r[k] == WindowMean(xs, k, w)
    {
      SumSliceSnoc(xs, lo, i);
      sum := sum + xs[i];
      if i + 1 - lo > w {
        SumSliceDropFirst(xs, lo, i + 1);
        sum := sum - xs[lo];
        lo := lo + 1;
      }
      r := r + [if i + 1 < w then None else Some(sum / w as real)];
      i := i + 1;
    }
  }

  // ---------------------------------------------------------------------------
  // Crossover signal: bullish while the short average is above the long one
  // ---------------------------------------------------------------------------

  datatype Signal = Bullish | Bearish

  /** One day's signal; a comparison involving a missing average is false, so it reads Bearish. */
  function Crossover(fast: Option<real>, slow: Option<real>): Signal {
    if fast.Some? && slow.Some? && fast.value > slow.value then Bullish else Bearish
  }

  function Signals(fast: seq<Option<real>>, slow: seq<Option<real>>): (r: seq<Signal>)
    requires |fast| == |slow|
    ensures |r| == |fast|
    ensures forall i :: 0 <= i < |fast| ==>
              (r[i] == Bullish <==> fast[i].Some? && slow[i].Some? && fast[i].value > slow[i].value)
  {
    seq(|fast|, i requires 0 <= i < |fast| => Crossover(fast[i], slow[i]))
  }

  /** Until the slow window has filled, every day is Bearish. */
  lemma EarlySignalsBearish(prices: seq<real>, fastW: nat, slowW: nat, i: nat)
    requires 1 <= fastW && 1 <= slowW && i < |prices| && i + 1 < slowW
    ensures Signals(Rolling(prices, fastW), Rolling(prices, slowW))[i] == Bearish
  {
  }

  /**
   Once both windows have filled, the signal is Bullish exactly when the
   fast average is above the slow one.
   */
  lemma LateSignals(prices: seq<real>, i: nat)
    requires 49 <= i < |prices|
    ensures Signals(Rolling(prices, 20), Rolling(prices, 50))[i] == Bullish <==>
              Sum(prices[i - 19..i + 1]) / 20.0 > Sum(prices[i - 49..i + 1]) / 50.0
  {
  }

  /**
   The whole strategy: the price path, both moving averages and the signal,
   one value per day; the first 49 days are Bearish.
   */
  method Strategy(changes: seq<real>) returns (prices: seq<real>, sma20: seq<Option<real>>,
                                               sma50: seq<Option<real>>, signal: seq<Signal>)
    ensures |prices| == |changes| && |sma20| == |changes| && |sma50| == |changes| && |signal| == |changes|
    ensures forall i :: 0 <= i < |changes| ==> prices[i] == StartPrice + Sum(changes[..i + 1])
    ensures forall i :: 0 <= i < |changes| ==> sma20[i] == WindowMean(prices, i, 20)
    ensures forall i :: 0 <= i < |changes| ==> sma50[i] == WindowMean(prices, i, 50)
    ensures forall i :: 0 <= i < |changes| && i < 49 ==> signal[i] == Bearish
    ensures forall i :: 0 <= i < |changes| ==>
              (signal[i] == Bullish <==> sma20[i].Some? && sma50[i].Some? && sma20[i].value > sma50[i].value)
  {
    prices := PricePath(changes);
    sma20 := RollingMean(prices, 20);
    sma50 := RollingMean(prices, 50);
    signal := Signals(sma20, sma50);
  }
}
