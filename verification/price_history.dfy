/** `simulation.LastTradeData`: a bounded window of recent prices per stock, simple moving
    averages over it, the averages stored at the last update, and the crossover signals.
    The source computes with `double`; the model computes with exact `real` values. */
module PriceHistory {
  import opened Results

  /** `new LastTradeData()` remembers this many prices per stock. */
  const DefaultCapacity: int := 10

  datatype History = History(
    capacity: int,                    // maxTradesRemembered
    windows: map<string, seq<int>>,   // lastTradeDataMap, oldest price first
    lastSma5: map<string, real>,      // lastSMA5Map
    lastSma10: map<string, real>)     // lastSMA10Map

  /** `new LastTradeData(maxTradesRemembered)`. */
  function NewHistory(capacity: int): (h: History)
    ensures h.capacity == capacity
    ensures h.windows == map[] && h.lastSma5 == map[] && h.lastSma10 == map[]
  {
    History(capacity, map[], map[], map[])
  }

  /** `new LastTradeData()`: ten prices per stock, nothing recorded yet. */
  function DefaultHistory(): (h: History)
    ensures h.capacity == 10 && Bounded(h)
    ensures h.windows == map[] && h.lastSma5 == map[] && h.lastSma10 == map[]
  {
    NewHistory(DefaultCapacity)
  }

  /** The prices recorded for `stock`, oldest first; none if it has no entry. */
  function Window(h: History, stock: string): seq<int> {
    if stock in h.windows then h.windows[stock] else []
  }

  /** The capacity is not negative and no window holds more prices than it. */
  ghost predicate Bounded(h: History) {
    h.capacity >= 0 && forall s :: s in h.windows ==> |h.windows[s]| <= h.capacity
  }

  /** The `n` newest elements of `s` (all of `s` when it has fewer). */
  function Last(s: seq<int>, n: nat): (r: seq<int>)
    ensures |r| == if n < |s| then n else |s|
    ensures r == s[|s| - |r|..]
  {
    if n < |s| then s[|s| - n..] else s
  }

  /** `addTradeData`: append the price; when the window has grown past the capacity, drop its
      oldest entry (one entry, by `remove(0)`). */
  function AddTradeData(h: History, stock: string, price: int): (h': History)
    ensures h'.capacity == h.capacity && h'.lastSma5 == h.lastSma5 && h'.lastSma10 == h.lastSma10
    ensures h'.windows.Keys == h.windows.Keys + {stock}
    ensures forall s :: s in h.windows && s != stock ==> h'.windows[s] == h.windows[s]
    ensures Bounded(h) ==> Bounded(h')
    ensures Bounded(h) ==> h'.windows[stock] == Last(Window(h, stock) + [price], h.capacity)
  {
    h.(windows := h.windows[stock := Grow(Window(h, stock), price, h.capacity)])
  }

  /** One window after `addTradeData`: the price appended, and the oldest entry dropped when
      that makes it longer than `capacity`. */
  function Grow(window: seq<int>, price: int, capacity: int): (w: seq<int>)
    ensures 0 <= capacity && |window| <= capacity ==> w == Last(window + [price], capacity)
  {
    var grown := window + [price];
    if |grown| > capacity then grown[1..] else grown
  }

  /** `addTradeData` for each price of `prices` in turn. */
  function AddAllTradeData(h: History, stock: string, prices: seq<int>): History
    decreases |prices|
  {
    if |prices| == 0 then h else AddAllTradeData(AddTradeData(h, stock, prices[0]), stock, prices[1..])
  }

  /** The window is first-in first-out: after any run of prices it holds exactly the
      `capacity` newest of everything recorded, in arrival order. */
  lemma {:induction false} WindowKeepsNewest(h: History, stock: string, prices: seq<int>)
    requires Bounded(h)
    ensures Bounded(AddAllTradeData(h, stock, prices))
    ensures AddAllTradeData(h, stock, prices).capacity == h.capacity
    ensures stock in h.windows || |prices| > 0 ==> stock in AddAllTradeData(h, stock, prices).windows
    ensures Window(AddAllTradeData(h, stock, prices), stock) == Last(Window(h, stock) + prices, h.capacity)
    decreases |prices|
  {
    if |prices| == 0 {
      assert Window(h, stock) + prices == Window(h, stock);
    } else {
      var h1 := AddTradeData(h, stock, prices[0]);
      assert Window(h1, stock) == Last(Window(h, stock) + [prices[0]], h.capacity);
      WindowKeepsNewest(h1, stock, prices[1..]);
      NewestStep(Window(h, stock), prices, h.capacity);
    }
  }

  /** The window after the first price, then the rest, is the window after all of them. */
  lemma NewestStep(w: seq<int>, prices: seq<int>, n: nat)
    requires |prices| > 0
    ensures Last(Last(w + [prices[0]], n) + prices[1..], n) == Last(w + prices, n)
  {
    LastOfLast(w + [prices[0]], prices[1..], n);
    assert w + [prices[0]] + prices[1..] == w + prices;
  }

  /** Trimming before appending does not change the newest `n`. */
  lemma LastOfLast(x: seq<int>, y: seq<int>, n: nat)
    ensures Last(Last(x, n) + y, n) == Last(x + y, n)
  {
    var lx := Last(x, n);
    var left := Last(lx + y, n);
    var right := Last(x + y, n);
    assert |left| == |right|;
    forall i | 0 <= i < |left|
      ensures left[i] == right[i]
    {
      var j := |lx + y| - |left| + i;
      var k := |x + y| - |right| + i;
      if j < |lx| {
        assert (lx + y)[j] == lx[j] == x[|x| - |lx| + j];
      } else {
        assert (lx + y)[j] == y[j - |lx|];
      }
    }
  }

  function Sum(s: seq<int>): int {
    if |s| == 0 then 0 else s[0] + Sum(s[1..])
  }

  /** The average of `s`, 0 for no data (`average().orElse(0)`). */
  function Mean(s: seq<int>): real {
    if |s| == 0 then 0.0 else Sum(s) as real / |s| as real
  }

  /** `getSMA(stock, n)`: 0 for a stock without data, otherwise the average of its `n` newest
      prices, or of all of them when it has fewer. */
  function Sma(h: History, stock: string, n: nat): (r: real)
    ensures stock !in h.windows || n == 0 || |h.windows[stock]| == 0 ==> r == 0.0
  {
    if stock !in h.windows then 0.0 else Mean(Last(h.windows[stock], n))
  }

  /** `getSMA(stock, n)` times the number of prices it averages is the sum of the `n` newest. */
  lemma SmaIsMean(h: History, stock: string, n: nat)
    requires stock in h.windows
    ensures Sma(h, stock, n) * |Last(h.windows[stock], n)| as real == Sum(Last(h.windows[stock], n)) as real
  {
    MeanTimesLength(Last(h.windows[stock], n));
  }

  /** The mean times the number of prices is their sum. */
  lemma MeanTimesLength(s: seq<int>)
    ensures Mean(s) * |s| as real == Sum(s) as real
  {
    if |s| > 0 {
      DivTimes(Sum(s) as real, |s| as real);
    }
  }

  lemma DivTimes(x: real, k: real)
    requires k > 0.0
    ensures x / k * k == x
  {
  }

  lemma DivWithin(x: real, k: real, lo: real, hi: real)
    requires k > 0.0 && lo * k <= x <= hi * k
    ensures lo <= x / k <= hi
  {
    DivTimes(x, k);
  }

  /** Bounds on the sum carry over to the mean. */
  lemma MeanWithin(s: seq<int>, lo: int, hi: int)
    requires |s| > 0 && lo * |s| <= Sum(s) <= hi * |s|
    ensures lo as real <= Mean(s) <= hi as real
  {
    RealProduct(lo, |s|);
    RealProduct(hi, |s|);
    DivWithin(Sum(s) as real, |s| as real, lo as real, hi as real);
  }

  lemma RealProduct(a: int, b: int)
    ensures (a * b) as real == a as real * b as real
  {
  }

  lemma {:induction false} SumBounds(s: seq<int>, lo: int, hi: int)
    requires forall i :: 0 <= i < |s| ==> lo <= s[i] <= hi
    ensures lo * |s| <= Sum(s) <= hi * |s|
    decreases |s|
  {
    if |s| > 0 {
      SumBounds(s[1..], lo, hi);
    }
  }

  /** A moving average lies between the least and the greatest recorded price. */
  lemma SmaWithinPrices(h: History, stock: string, n: nat, lo: int, hi: int)
    requires stock in h.windows && n > 0 && |h.windows[stock]| > 0
    requires forall i :: 0 <= i < |h.windows[stock]| ==> lo <= h.windows[stock][i] <= hi
    ensures lo as real <= Sma(h, stock, n) <= hi as real
  {
    var w := h.windows[stock];
    var used := Last(w, n);
    assert forall i :: 0 <= i < |used| ==> used[i] == w[|w| - |used| + i];
    SumBounds(used, lo, hi);
    MeanWithin(used, lo, hi);
  }

  /** `updateSMA`: store the current SMA5 and SMA10 of every stock that has data; entries of
      other stocks stay as they were. */
  function UpdateSma(h: History): (h': History)
    ensures h'.capacity == h.capacity && h'.windows == h.windows
    ensures h'.lastSma5.Keys == h.lastSma5.Keys + h.windows.Keys
    ensures h'.lastSma10.Keys == h.lastSma10.Keys + h.windows.Keys
    ensures forall s :: s in h.windows ==> h'.lastSma5[s] == Sma(h, s, 5) && h'.lastSma10[s] == Sma(h, s, 10)
    ensures forall s :: s in h.lastSma5 && s !in h.windows ==> h'.lastSma5[s] == h.lastSma5[s]
    ensures forall s :: s in h.lastSma10 && s !in h.windows ==> h'.lastSma10[s] == h.lastSma10[s]
  {
    h.(lastSma5 := map s | s in h.lastSma5.Keys + h.windows.Keys ::
                    if s in h.windows then Sma(h, s, 5) else h.lastSma5[s],
       lastSma10 := map s | s in h.lastSma10.Keys + h.windows.Keys ::
                    if s in h.windows then Sma(h, s, 10) else h.lastSma10[s])
  }

  /** `checkIfSMABuySignal`: SMA5 has just risen above SMA10. Reading a stored value that
      `updateSMA` never wrote unboxes `null`. */
  function BuySignal(h: History, stock: string): (r: Result<bool>)
    ensures r.Success? <==> stock in h.lastSma5 && stock in h.lastSma10
    ensures r.Failure? ==> r.error == NullPointer
    ensures r.Success? ==>
      (r.value <==> Sma(h, stock, 5) > Sma(h, stock, 10) && h.lastSma5[stock] < h.lastSma10[stock])
  {
    if stock !in h.lastSma5 || stock !in h.lastSma10 then Failure(NullPointer)
    else Success(Sma(h, stock, 5) - Sma(h, stock, 10) > 0.0 && h.lastSma5[stock] - h.lastSma10[stock] < 0.0)
  }

  /** `checkIfSMASellSignal`: SMA5 has just fallen below SMA10. */
  function SellSignal(h: History, stock: string): (r: Result<bool>)
    ensures r.Success? <==> stock in h.lastSma5 && stock in h.lastSma10
    ensures r.Failure? ==> r.error == NullPointer
    ensures r.Success? ==>
      (r.value <==> Sma(h, stock, 5) < Sma(h, stock, 10) && h.lastSma5[stock] > h.lastSma10[stock])
  {
    if stock !in h.lastSma5 || stock !in h.lastSma10 then Failure(NullPointer)
    else Success(Sma(h, stock, 5) - Sma(h, stock, 10) < 0.0 && h.lastSma5[stock] - h.lastSma10[stock] > 0.0)
  }

  /** The two signals never fire together. */
  lemma SignalsExclusive(h: History, stock: string)
    requires stock in h.lastSma5 && stock in h.lastSma10
    ensures !(BuySignal(h, stock).value && SellSignal(h, stock).value)
  {
  }

  /** A crossover needs a new price: right after `updateSMA` the stored and current averages
      agree, so neither signal fires for a stock with data. */
  lemma NoSignalRightAfterUpdate(h: History, stock: string)
    requires stock in h.windows
    ensures BuySignal(UpdateSma(h), stock) == Success(false)
    ensures SellSignal(UpdateSma(h), stock) == Success(false)
  {
    var u := UpdateSma(h);
    SmaReadsWindowsOnly(h, u, stock, 5);
    SmaReadsWindowsOnly(h, u, stock, 10);
  }

  /** The averages depend on the recorded prices alone. */
  lemma SmaReadsWindowsOnly(h: History, h': History, stock: string, n: nat)
    requires h'.windows == h.windows
    ensures Sma(h', stock, n) == Sma(h, stock, n)
  {
  }

  /** The ten prices of the unit test, oldest first, and the eleventh that follows them. */
  function TestPrices(): seq<int> {
    [5, 9, 9, 9, 9, 6, 7, 8, 9, 10]
  }

  /** After the ten prices and an update, SMA10 is 8.1 and SMA5 is 8.0; one more price of 11
      lifts SMA5 to 9 and SMA10 to 8.7, a buy signal. */
  lemma ObservedBuySignal(h: History)
    requires h == UpdateSma(AddAllTradeData(DefaultHistory(), "Test", TestPrices()))
    ensures Sma(h, "Test", 10) == 8.1 && Sma(h, "Test", 5) == 8.0
    ensures BuySignal(AddTradeData(h, "Test", 11), "Test") == Success(true)
  {
    TestWindow(h);
    var next := AddTradeData(h, "Test", 11);
    TestNextWindow(h, next);
    CrossoverFires(h, next);
  }

  lemma CrossoverFires(h: History, next: History)
    requires "Test" in h.windows && h.windows["Test"] == TestPrices()
    requires "Test" in h.lastSma5 && "Test" in h.lastSma10
    requires h.lastSma5["Test"] == Sma(h, "Test", 5) && h.lastSma10["Test"] == Sma(h, "Test", 10)
    requires "Test" in next.windows && next.windows["Test"] == [9, 9, 9, 9, 6, 7, 8, 9, 10, 11]
    requires next.lastSma5 == h.lastSma5 && next.lastSma10 == h.lastSma10
    ensures Sma(h, "Test", 10) == 8.1 && Sma(h, "Test", 5) == 8.0
    ensures BuySignal(next, "Test") == Success(true)
  {
    TestAverages(h.windows["Test"]);
    TestAveragesAfter(next.windows["Test"]);
  }

  lemma TestWindow(h: History)
    requires h == UpdateSma(AddAllTradeData(DefaultHistory(), "Test", TestPrices()))
    ensures "Test" in h.windows && h.windows["Test"] == TestPrices() && Bounded(h) && h.capacity == 10
    ensures "Test" in h.lastSma5 && "Test" in h.lastSma10
    ensures h.lastSma5["Test"] == Sma(h, "Test", 5) && h.lastSma10["Test"] == Sma(h, "Test", 10)
  {
    FreshWindow(DefaultHistory(), "Test", TestPrices());
  }

  /** As many prices as the capacity, recorded for a stock without a window, fill its window
      exactly. */
  lemma FreshWindow(h: History, stock: string, ps: seq<int>)
    requires Bounded(h) && stock !in h.windows && 0 < |ps| == h.capacity
    ensures var a := AddAllTradeData(h, stock, ps);
      stock in a.windows && a.windows[stock] == ps && Bounded(a) && a.capacity == h.capacity
  {
    assert Window(h, stock) == [];
    assert Window(h, stock) + ps == ps;
    WindowKeepsNewest(h, stock, ps);
  }

  lemma TestNextWindow(h: History, next: History)
    requires "Test" in h.windows && h.windows["Test"] == TestPrices() && Bounded(h) && h.capacity == 10
    requires next == AddTradeData(h, "Test", 11)
    ensures "Test" in next.windows && next.windows["Test"] == [9, 9, 9, 9, 6, 7, 8, 9, 10, 11]
    ensures next.lastSma5 == h.lastSma5 && next.lastSma10 == h.lastSma10
  {
  }

  lemma TestAverages(ps: seq<int>)
    requires ps == TestPrices()
    ensures Mean(Last(ps, 10)) == 8.1 && Mean(Last(ps, 5)) == 8.0
  {
    SumsBefore();
    assert ps[0..] == ps;
    MeanOfLast(ps, 10, ps, 81);
    MeanOfLast(ps, 5, [6, 7, 8, 9, 10], 40);
  }

  lemma TestAveragesAfter(ps: seq<int>)
    requires ps == [9, 9, 9, 9, 6, 7, 8, 9, 10, 11]
    ensures Mean(Last(ps, 10)) == 8.7 && Mean(Last(ps, 5)) == 9.0
  {
    SumsAfter();
    assert ps[0..] == ps;
    MeanOfLast(ps, 10, ps, 87);
    MeanOfLast(ps, 5, [7, 8, 9, 10, 11], 45);
  }

  lemma SumsBefore()
    ensures Sum([5, 9, 9, 9, 9, 6, 7, 8, 9, 10]) == 81 && Sum([6, 7, 8, 9, 10]) == 40
  {
    assert Sum([6, 7, 8, 9, 10]) == 40;
  }

  lemma SumsAfter()
    ensures Sum([9, 9, 9, 9, 6, 7, 8, 9, 10, 11]) == 87 && Sum([7, 8, 9, 10, 11]) == 45
  {
    assert Sum([7, 8, 9, 10, 11]) == 45;
  }

  /** The mean of the newest `n` prices, from their sum. */
  lemma MeanOfLast(ps: seq<int>, n: nat, tail: seq<int>, total: int)
    requires 0 < n == |tail| <= |ps| && ps[|ps| - n..] == tail && Sum(tail) == total
    ensures Mean(Last(ps, n)) == total as real / n as real
  {
  }
}
