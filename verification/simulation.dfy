/** `simulation.StockExchangeSimulation`: the set-up from a parsed configuration and the
    round loop of `run`. The investors' trade decisions and the random shuffle are the two
    things the loop does not compute itself; they are parameters here. */
module Simulation {
  import opened Results
  import opened Requests
  import opened Ledger
  import opened Stocks
  import opened Matching
  import opened TradeSheet
  import opened PriceHistory
  import opened Investors
  import Parser

  /** What `makeTradeDecision(simulation)` may look at: the round, the stocks, the recorded
      prices and averages, and the deciding investor's own account. */
  datatype View = View(round: int, stocks: Registry, history: History, account: Account)

  /** The simulation between two rounds; `sheet` is the local `tradeRequestSheet` of `run`,
      and `issuer` is the request factory's id counter. */
  datatype World = World(
    round: int,
    totalRounds: int,
    market: Market,
    sheet: Sheet,
    issuer: Issuer,
    history: History)

  /** What every round keeps: the sheet fits the market, every request on it has an id the
      issuer has already handed out, and no price window is longer than its capacity. */
  ghost predicate Consistent(w: World) {
    && Fits(w.market, w.sheet)
    && IssuedBelow(w.sheet, w.issuer.nextId)
    && Bounded(w.history)
  }

  /** Every request on the sheet is for a positive quantity at a non-negative limit, and no
      investor has a negative balance or holding. */
  ghost predicate Solvent(w: World) {
    SheetWellPriced(w.sheet) && AllNonNegative(w.market.accounts)
  }

  // ----- recording prices -----

  /** `addTradeData(stock, stock.getLastPrice())` for every stock of `only` at once. */
  function RecordSome(h: History, reg: Registry, only: set<string>): History
    requires only <= reg.Keys
  {
    h.(windows := map s | s in h.windows.Keys + only ::
         if s in only then Grow(Window(h, s), reg[s].lastPrice, h.capacity) else h.windows[s])
  }

  /** Recording leaves the capacity and the stored averages alone, gives every recorded stock a
      window, leaves the other windows as they were, and keeps windows within the capacity,
      each recorded one holding its newest prices. */
  lemma RecordSomeFacts(h: History, reg: Registry, only: set<string>)
    requires only <= reg.Keys
    ensures var h' := RecordSome(h, reg, only);
      && h'.capacity == h.capacity && h'.lastSma5 == h.lastSma5 && h'.lastSma10 == h.lastSma10
      && h'.windows.Keys == h.windows.Keys + only
      && (forall s :: s in h.windows && s !in only ==> h'.windows[s] == h.windows[s])
    ensures Bounded(h) ==> Bounded(RecordSome(h, reg, only))
    ensures Bounded(h) ==> forall s :: s in only ==>
      RecordSome(h, reg, only).windows[s] == Last(Window(h, s) + [reg[s].lastPrice], h.capacity)
  {
    var h' := RecordSome(h, reg, only);
    if Bounded(h) {
      forall s | s in only
        ensures h'.windows[s] == Last(Window(h, s) + [reg[s].lastPrice], h.capacity)
      {
        assert |Window(h, s)| <= h.capacity;
      }
    }
  }

  /** The first loop of a round: every stock's last price is appended to its window. */
  function RecordPrices(h: History, reg: Registry): (h': History)
    ensures h'.capacity == h.capacity && h'.lastSma5 == h.lastSma5 && h'.lastSma10 == h.lastSma10
    ensures h'.windows.Keys == h.windows.Keys + reg.Keys
    ensures Bounded(h) ==> Bounded(h')
    ensures Bounded(h) ==> forall s :: s in reg ==> h'.windows[s] == Last(Window(h, s) + [reg[s].lastPrice], h.capacity)
  {
    RecordSomeFacts(h, reg, reg.Keys);
    RecordSome(h, reg, reg.Keys)
  }

  /** The loop as written: `addTradeData` for each identifier of `ids`, one after another. */
  function RecordEach(h: History, reg: Registry, ids: seq<string>): History
    requires forall i :: 0 <= i < |ids| ==> ids[i] in reg
    decreases |ids|
  {
    if |ids| == 0 then h
    else RecordEach(AddTradeData(h, ids[0], reg[ids[0]].lastPrice), reg, ids[1..])
  }

  /** Every identifier of `ids` is listed once. */
  ghost predicate Distinct(ids: seq<string>) {
    forall i, j :: 0 <= i < j < |ids| ==> ids[i] != ids[j]
  }

  /** The order in which `getStocks()` lists the stocks does not matter: walking any listing
      that names each stock once records the same history. */
  lemma RecordOrderIrrelevant(h: History, reg: Registry, ids: seq<string>)
    requires Distinct(ids) && (forall s :: s in reg <==> s in ids)
    ensures RecordEach(h, reg, ids) == RecordPrices(h, reg)
  {
    assert reg.Keys == set i | i in ids;
    RecordEachIsRecordSome(h, reg, ids);
  }

  lemma {:induction false} RecordEachIsRecordSome(h: History, reg: Registry, ids: seq<string>)
    requires Distinct(ids) && forall i :: 0 <= i < |ids| ==> ids[i] in reg
    ensures RecordEach(h, reg, ids) == RecordSome(h, reg, set i | i in ids)
    decreases |ids|
  {
    if |ids| == 0 {
      RecordNone(h, reg);
    } else {
      var x := ids[0];
      RecordEachIsRecordSome(AddTradeData(h, x, reg[x].lastPrice), reg, ids[1..]);
      HeadAndRest(ids);
      RecordStep(h, reg, x, set i | i in ids[1..]);
    }
  }

  /** Recording no stock changes nothing. */
  lemma RecordNone(h: History, reg: Registry)
    ensures RecordSome(h, reg, {}) == h
  {
    assert RecordSome(h, reg, {}).windows == h.windows;
  }

  /** The identifiers of a repeat-free listing are its head and, apart from it, its tail's. */
  lemma HeadAndRest(ids: seq<string>)
    requires |ids| > 0 && Distinct(ids)
    ensures Distinct(ids[1..])
    ensures ids[0] !in (set i | i in ids[1..])
    ensures (set i | i in ids) == (set i | i in ids[1..]) + {ids[0]}
  {
    forall j | 0 <= j < |ids| - 1
      ensures ids[1..][j] != ids[0]
    {
      assert ids[1..][j] == ids[j + 1];
    }
  }

  /** Recording `x` first and then the stocks of `rest` records the stocks of `rest + {x}`. */
  lemma RecordStep(h: History, reg: Registry, x: string, rest: set<string>)
    requires x in reg && rest <= reg.Keys && x !in rest
    ensures RecordSome(AddTradeData(h, x, reg[x].lastPrice), reg, rest) == RecordSome(h, reg, rest + {x})
  {
    var h1 := AddTradeData(h, x, reg[x].lastPrice);
    var a := RecordSome(h1, reg, rest);
    var b := RecordSome(h, reg, rest + {x});
    assert a.windows.Keys == b.windows.Keys;
    forall s | s in a.windows
      ensures a.windows[s] == b.windows[s]
    {
      if s in rest {
        assert Window(h1, s) == Window(h, s);
      }
    }
    assert a.windows == b.windows;
  }

  // ----- collecting decisions -----

  /** The view investor `investor` decides from. */
  function ViewOf(m: Market, history: History, round: int, investor: nat): View
    requires investor < |m.accounts|
  {
    View(round, m.stocks, history, m.accounts[investor])
  }

  /** The decision names a stock the exchange lists, or there is no decision. */
  predicate Listed(d: Option<Draft>, stocks: Registry) {
    d.Some? ==> d.value.stock in stocks
  }

  /** No decision, or a request for a listed stock, a positive quantity and a non-negative
      limit. The random strategy always asks for at least one share, but its limit is the last
      price moved by -5 to 4, so it can be negative once a price falls below 5. */
  predicate Sensible(d: Option<Draft>, listed: set<string>) {
    d.Some? ==> d.value.stock in listed && d.value.quantity > 0 && d.value.priceLimit >= 0
  }

  /** Whatever it is shown, the strategy decides sensibly. */
  ghost predicate AlwaysSensible(decide: View -> Option<Draft>, listed: set<string>) {
    forall v :: Sensible(decide(v), listed)
  }

  /** The second loop of a round: the investors of `order`, from position `from` on, are
      asked in turn; each request made is created with the next id and added to the sheet.
      A decision naming a stock the exchange does not list has no `Stock` object to trade in
      and fails, as `getStock` does, with `NoSuchElement`. */
  function Collect(m: Market, sheet: Sheet, issuer: Issuer, history: History, round: int,
                   decide: View -> Option<Draft>, order: seq<nat>, from: nat): (r: Result<(Sheet, Issuer)>)
    requires Fits(m, sheet) && IssuedBelow(sheet, issuer.nextId)
    requires forall i :: 0 <= i < |order| ==> order[i] < |m.accounts|
    ensures r.Success? ==> Fits(m, r.value.0) && IssuedBelow(r.value.0, r.value.1.nextId)
    ensures r.Success? ==> issuer.nextId <= r.value.1.nextId
    ensures r.Failure? ==> r.error == NoSuchElement
    ensures r.Success? <==> forall i :: from <= i < |order| ==> Listed(decide(ViewOf(m, history, round, order[i])), m.stocks)
    ensures SheetWellPriced(sheet) && (forall i :: from <= i < |order| ==>
              Sensible(decide(ViewOf(m, history, round, order[i])), m.stocks.Keys))
            ==> r.Success? && SheetWellPriced(r.value.0)
    decreases |order| - from
  {
    if from >= |order| then Success((sheet, issuer))
    else
      var investor := order[from];
      match decide(ViewOf(m, history, round, investor))
      case None => Collect(m, sheet, issuer, history, round, decide, order, from + 1)
      case Some(d) =>
        if d.stock !in m.stocks then Failure(NoSuchElement)
        else
          var next := Submit(m, sheet, issuer, investor, d, round);
          Collect(m, next.0, next.1, history, round, decide, order, from + 1)
  }

  /** `addRequest` of the request made from decision `d`: it gets the issuer's next id and is
      filed in the book of its stock and side; every other book stays as it was. */
  function Submit(m: Market, sheet: Sheet, issuer: Issuer, investor: nat, d: Draft, round: int): (r: (Sheet, Issuer))
    requires Fits(m, sheet) && IssuedBelow(sheet, issuer.nextId)
    requires investor < |m.accounts| && d.stock in m.stocks
    ensures Fits(m, r.0) && IssuedBelow(r.0, r.1.nextId)
    ensures r.1.nextId == issuer.nextId + 1
    ensures r.0.buys.Keys == sheet.buys.Keys + {d.stock} && r.0.sells.Keys == sheet.sells.Keys + {d.stock}
    ensures d.side == Buy ==> Create(issuer, investor, d, round).request in r.0.buys[d.stock]
    ensures d.side == Sell ==> Create(issuer, investor, d, round).request in r.0.sells[d.stock]
    ensures forall k :: k in sheet.buys && k != d.stock ==> r.0.buys[k] == sheet.buys[k]
    ensures forall k :: k in sheet.sells && k != d.stock ==> r.0.sells[k] == sheet.sells[k]
    ensures SheetWellPriced(sheet) && d.quantity > 0 && d.priceLimit >= 0 ==> SheetWellPriced(r.0)
  {
    var issued := Create(issuer, investor, d, round);
    AddRequestKeepsWellFormed(sheet, issued.request, |m.accounts|);
    var added := AddRequest(sheet, issued.request);
    var book := if d.side == Buy then added.buys[d.stock] else added.sells[d.stock];
    assert issued.request in multiset(book);
    (added, issued.issuer)
  }

  /** The number of requests the investors of `order[from..]` make. */
  function Wanted(m: Market, history: History, round: int, decide: View -> Option<Draft>,
                  order: seq<nat>, from: nat): nat
    requires forall i :: 0 <= i < |order| ==> order[i] < |m.accounts|
    decreases |order| - from
  {
    if from >= |order| then 0
    else (if decide(ViewOf(m, history, round, order[from])).Some? then 1 else 0)
         + Wanted(m, history, round, decide, order, from + 1)
  }

  /** Each request made takes exactly one id, and a round in which nobody wants to trade
      leaves the sheet as it was. */
  lemma {:induction false} CollectCountsRequests(m: Market, sheet: Sheet, issuer: Issuer, history: History, round: int,
                                                 decide: View -> Option<Draft>, order: seq<nat>, from: nat)
    requires Fits(m, sheet) && IssuedBelow(sheet, issuer.nextId)
    requires forall i :: 0 <= i < |order| ==> order[i] < |m.accounts|
    requires Collect(m, sheet, issuer, history, round, decide, order, from).Success?
    ensures Collect(m, sheet, issuer, history, round, decide, order, from).value.1.nextId
            == issuer.nextId + Wanted(m, history, round, decide, order, from)
    ensures Wanted(m, history, round, decide, order, from) == 0 ==>
            Collect(m, sheet, issuer, history, round, decide, order, from).value == (sheet, issuer)
    decreases |order| - from
  {
    if from < |order| {
      var investor := order[from];
      match decide(ViewOf(m, history, round, investor))
      case None =>
        CollectCountsRequests(m, sheet, issuer, history, round, decide, order, from + 1);
      case Some(d) =>
        var next := Submit(m, sheet, issuer, investor, d, round);
        CollectCountsRequests(m, next.0, next.1, history, round, decide, order, from + 1);
    }
  }

  // ----- one round and the loop -----

  /** One pass of the `while` loop of `run`: record the stocks' prices, collect the
      decisions in the shuffled `order`, realise the trades, update the averages, and move
      to the next round. */
  function Round(w: World, decide: View -> Option<Draft>, order: seq<nat>): (r: Result<World>)
    requires Consistent(w) && IsPermutation(order, |w.market.accounts|)
    ensures r.Success? ==> Consistent(r.value)
    ensures r.Success? ==> r.value.round == w.round + 1 && r.value.totalRounds == w.totalRounds
    ensures r.Success? ==> SameHolders(w.market.accounts, r.value.market.accounts)
    ensures r.Success? ==> Conserved(w.market.accounts, r.value.market.accounts)
    ensures r.Success? ==> r.value.market.stocks.Keys == w.market.stocks.Keys
    ensures r.Success? ==>
      && |w.market.trades| <= |r.value.market.trades|
      && r.value.market.trades[..|w.market.trades|] == w.market.trades
      && FairFrom(r.value.market.trades, |w.market.trades|)
    ensures r.Success? ==> forall s :: s in w.market.stocks ==>
      s in r.value.history.windows && s in r.value.history.lastSma5 && s in r.value.history.lastSma10
    ensures r.Success? ==> forall s :: s in w.market.stocks ==>
      r.value.history.windows[s] == Last(Window(w.history, s) + [w.market.stocks[s].lastPrice], w.history.capacity)
    ensures r.Success? ==> forall s :: s in w.market.stocks ==>
      r.value.history.lastSma5[s] == PriceHistory.Sma(r.value.history, s, 5) && r.value.history.lastSma10[s] == PriceHistory.Sma(r.value.history, s, 10)
    ensures Solvent(w) && AlwaysSensible(decide, w.market.stocks.Keys) ==> r.Success? && Solvent(r.value)
  {
    PermutationInRange(order, |w.market.accounts|);
    var recorded := RecordPrices(w.history, w.market.stocks);
    var submitted :- Collect(w.market, w.sheet, w.issuer, recorded, w.round, decide, order, 0);
    HistoryStep(w.history, w.market.stocks);
    Settle(w, recorded, submitted)
  }

  /** The end of a round: `realiseSubmittedTrades` on the filled sheet, then `updateSMA` on the
      prices recorded at the start of the round, then `round++`. */
  function Settle(w: World, recorded: History, submitted: (Sheet, Issuer)): (r: Result<World>)
    requires Fits(w.market, submitted.0) && IssuedBelow(submitted.0, submitted.1.nextId)
    requires Bounded(recorded)
    ensures r.Success? ==> Consistent(r.value)
    ensures r.Success? ==> r.value.round == w.round + 1 && r.value.totalRounds == w.totalRounds
    ensures r.Success? ==> r.value.history == UpdateSma(recorded)
    ensures r.Success? ==> SameHolders(w.market.accounts, r.value.market.accounts)
    ensures r.Success? ==> Conserved(w.market.accounts, r.value.market.accounts)
    ensures r.Success? ==> r.value.market.stocks.Keys == w.market.stocks.Keys
    ensures r.Success? ==>
      && |w.market.trades| <= |r.value.market.trades|
      && r.value.market.trades[..|w.market.trades|] == w.market.trades
      && FairFrom(r.value.market.trades, |w.market.trades|)
    ensures SheetWellPriced(submitted.0) && AllNonNegative(w.market.accounts) ==> r.Success? && Solvent(r.value)
  {
    var realised :- RealiseSubmittedTrades(w.market, submitted.0, w.round);
    Success(World(w.round + 1, w.totalRounds, realised.0, realised.1, submitted.1, UpdateSma(recorded)))
  }

  /** What a round does to the price history: each listed stock's window gains its last
      price, and the stored averages are the averages of the new windows. */
  lemma HistoryStep(h: History, reg: Registry)
    requires Bounded(h)
    ensures Bounded(UpdateSma(RecordPrices(h, reg)))
    ensures forall s :: s in reg ==>
      var u := UpdateSma(RecordPrices(h, reg));
      && s in u.windows && s in u.lastSma5 && s in u.lastSma10
      && u.windows[s] == Last(Window(h, s) + [reg[s].lastPrice], h.capacity)
      && u.lastSma5[s] == PriceHistory.Sma(u, s, 5) && u.lastSma10[s] == PriceHistory.Sma(u, s, 10)
  {
    var recorded := RecordPrices(h, reg);
    var u := UpdateSma(recorded);
    forall s | s in reg
      ensures u.lastSma5[s] == PriceHistory.Sma(u, s, 5) && u.lastSma10[s] == PriceHistory.Sma(u, s, 10)
    {
      SmaReadsWindowsOnly(recorded, u, s, 5);
      SmaReadsWindowsOnly(recorded, u, s, 10);
    }
  }

  /** The entries of a permutation of `0..n-1` are below `n`. */
  lemma PermutationInRange(order: seq<nat>, n: nat)
    requires IsPermutation(order, n)
    ensures forall i :: 0 <= i < |order| ==> order[i] < n
  {
    forall i | 0 <= i < |order|
      ensures order[i] < n
    {
      assert order[i] in multiset(order);
      RangeBelow(n, order[i]);
    }
  }

  /** Only numbers below `n` are in `Range(n)`. */
  lemma RangeBelow(n: nat, p: nat)
    requires p in multiset(Range(n))
    ensures p < n
  {
    assert p in Range(n);
  }

  /** `run`: rounds are played while `round < totalRounds`; round `k` shuffles the investors
      by `shuffle(k)`. The investors, the money and the shares are the same at the end as at
      the start, every trade logged on the way is fair, and the invariant still holds. */
  function Run(w: World, decide: View -> Option<Draft>, shuffle: int -> seq<nat>): (r: Result<World>)
    requires Consistent(w)
    requires forall k :: IsPermutation(shuffle(k), |w.market.accounts|)
    ensures r.Success? ==> Consistent(r.value)
    ensures r.Success? ==> r.value.round == (if w.round < w.totalRounds then w.totalRounds else w.round)
    ensures r.Success? ==> r.value.totalRounds == w.totalRounds
    ensures r.Success? ==> SameHolders(w.market.accounts, r.value.market.accounts)
    ensures r.Success? ==> Conserved(w.market.accounts, r.value.market.accounts)
    ensures r.Success? ==> r.value.market.stocks.Keys == w.market.stocks.Keys
    ensures r.Success? ==>
      && |w.market.trades| <= |r.value.market.trades|
      && r.value.market.trades[..|w.market.trades|] == w.market.trades
      && FairFrom(r.value.market.trades, |w.market.trades|)
    ensures Solvent(w) && AlwaysSensible(decide, w.market.stocks.Keys) ==> r.Success? && Solvent(r.value)
    decreases w.totalRounds - w.round
  {
    if w.round >= w.totalRounds then Success(w)
    else
      var next :- Round(w, decide, shuffle(w.round));
      var r := Run(next, decide, shuffle);
      RunChains(w, next, r);
      r
  }

  /** A round followed by the rest of the run keeps what each of them keeps. */
  lemma RunChains(w: World, next: World, r: Result<World>)
    requires SameHolders(w.market.accounts, next.market.accounts) && Conserved(w.market.accounts, next.market.accounts)
    requires |w.market.trades| <= |next.market.trades| && next.market.trades[..|w.market.trades|] == w.market.trades
    requires FairFrom(next.market.trades, |w.market.trades|)
    requires r.Success? ==>
      && SameHolders(next.market.accounts, r.value.market.accounts)
      && Conserved(next.market.accounts, r.value.market.accounts)
      && |next.market.trades| <= |r.value.market.trades|
      && r.value.market.trades[..|next.market.trades|] == next.market.trades
      && FairFrom(r.value.market.trades, |next.market.trades|)
    ensures r.Success? ==>
      && SameHolders(w.market.accounts, r.value.market.accounts)
      && Conserved(w.market.accounts, r.value.market.accounts)
      && |w.market.trades| <= |r.value.market.trades|
      && r.value.market.trades[..|w.market.trades|] == w.market.trades
      && FairFrom(r.value.market.trades, |w.market.trades|)
  {
    if r.Success? {
      var t1, t2, t3 := w.market.trades, next.market.trades, r.value.market.trades;
      assert t3[..|t1|] == t3[..|t2|][..|t1|];
      FairAcross(t1, t2, t3);
    }
  }

  // ----- set-up -----

  /** `new StockExchangeSimulation(totalRounds, parser)` and the fresh sheet of `run`: stocks
      from the price map, investors from the configuration, no prices recorded, round 0. */
  function Setup(c: Parser.Config, totalRounds: int, issuer: Issuer): (r: Result<World>)
    ensures r.Success? <==> c.portfolio.Keys <= c.prices.Keys
    ensures r.Failure? ==> r.error == NoSuchElement
    ensures r.Success? ==> Consistent(r.value) && r.value.round == 0 && r.value.totalRounds == totalRounds
    ensures r.Success? ==> |r.value.market.accounts| == Max0(c.randomCount) + Max0(c.smaCount)
    ensures r.Success? ==> r.value.market.stocks.Keys == c.prices.Keys
    ensures r.Success? ==> TotalCash(r.value.market.accounts) == (Max0(c.randomCount) + Max0(c.smaCount)) * c.cash
    ensures r.Success? ==> forall s :: s in c.portfolio ==>
      TotalShares(r.value.market.accounts, s) == (Max0(c.randomCount) + Max0(c.smaCount)) * c.portfolio[s]
    ensures r.Success? && c.cash >= 0 && (forall s :: s in c.portfolio ==> c.portfolio[s] >= 0) ==> Solvent(r.value)
  {
    var reg := FromPriceMap(c.prices);
    var roster :- FromConfig(reg, c);
    UniformTotals(roster.accounts, c.cash, c.portfolio);
    UniformNonNegative(roster.accounts, c.cash, c.portfolio);
    Success(World(0, totalRounds, Market(roster.accounts, reg, []), EmptySheet(), issuer, DefaultHistory()))
  }

  /** Investors who all start with the same non-negative cash and holdings owe nothing. */
  lemma UniformNonNegative(accounts: seq<Account>, cash: int, portfolio: map<string, int>)
    requires forall i :: 0 <= i < |accounts| ==> accounts[i].balance == cash && accounts[i].portfolio == portfolio
    ensures cash >= 0 && (forall s :: s in portfolio ==> portfolio[s] >= 0) ==> AllNonNegative(accounts)
  {
  }

  /** The invariant of the simulation tests, for money: however the investors decide and
      however they are shuffled, after the whole run the investors together hold exactly the
      cash they were configured with. */
  lemma MoneyConstant(c: Parser.Config, totalRounds: int, issuer: Issuer,
                      decide: View -> Option<Draft>, shuffle: int -> seq<nat>, start: World, end: World)
    requires Setup(c, totalRounds, issuer) == Success(start)
    requires forall k :: IsPermutation(shuffle(k), Max0(c.randomCount) + Max0(c.smaCount))
    requires Run(start, decide, shuffle) == Success(end)
    ensures TotalCash(end.market.accounts) == (Max0(c.randomCount) + Max0(c.smaCount)) * c.cash
  {
    assert TotalCash(end.market.accounts) == TotalCash(start.market.accounts);
  }

  /** The same for the shares of each configured stock. */
  lemma SharesConstant(c: Parser.Config, totalRounds: int, issuer: Issuer,
                       decide: View -> Option<Draft>, shuffle: int -> seq<nat>, start: World, end: World, stock: string)
    requires Setup(c, totalRounds, issuer) == Success(start)
    requires forall k :: IsPermutation(shuffle(k), Max0(c.randomCount) + Max0(c.smaCount))
    requires Run(start, decide, shuffle) == Success(end)
    requires stock in c.portfolio
    ensures TotalShares(end.market.accounts, stock) == (Max0(c.randomCount) + Max0(c.smaCount)) * c.portfolio[stock]
  {
    assert TotalShares(end.market.accounts, stock) == TotalShares(start.market.accounts, stock);
  }

  /** A run from the set-up plays every round: it ends at `totalRounds`, or at 0 when that is
      not positive. */
  lemma AllRoundsPlayed(c: Parser.Config, totalRounds: int, issuer: Issuer,
                        decide: View -> Option<Draft>, shuffle: int -> seq<nat>, start: World, end: World)
    requires Setup(c, totalRounds, issuer) == Success(start)
    requires forall k :: IsPermutation(shuffle(k), Max0(c.randomCount) + Max0(c.smaCount))
    requires Run(start, decide, shuffle) == Success(end)
    ensures end.round == Max0(totalRounds)
  {
    assert start.round == 0 && start.totalRounds == totalRounds;
  }

  /** A run from the set-up of a configuration with no negative cash or holding, in which the
      investors always decide sensibly, succeeds: it plays every round, nobody ever owes cash
      or shares, and the investors end with the cash and shares they were configured with. */
  lemma SensibleRun(c: Parser.Config, totalRounds: int, issuer: Issuer,
                    decide: View -> Option<Draft>, shuffle: int -> seq<nat>, start: World)
    requires Setup(c, totalRounds, issuer) == Success(start)
    requires forall k :: IsPermutation(shuffle(k), Max0(c.randomCount) + Max0(c.smaCount))
    requires c.cash >= 0 && forall s :: s in c.portfolio ==> c.portfolio[s] >= 0
    requires AlwaysSensible(decide, c.prices.Keys)
    ensures Run(start, decide, shuffle).Success?
    ensures var end := Run(start, decide, shuffle).value;
      && AllNonNegative(end.market.accounts)
      && end.round == Max0(totalRounds)
      && TotalCash(end.market.accounts) == (Max0(c.randomCount) + Max0(c.smaCount)) * c.cash
      && forall s :: s in c.portfolio ==>
           TotalShares(end.market.accounts, s) == (Max0(c.randomCount) + Max0(c.smaCount)) * c.portfolio[s]
  {
    var end := Run(start, decide, shuffle).value;
    MoneyConstant(c, totalRounds, issuer, decide, shuffle, start, end);
    AllRoundsPlayed(c, totalRounds, issuer, decide, shuffle, start, end);
    forall s | s in c.portfolio
      ensures TotalShares(end.market.accounts, s) == (Max0(c.randomCount) + Max0(c.smaCount)) * c.portfolio[s]
    {
      SharesConstant(c, totalRounds, issuer, decide, shuffle, start, end, s);
    }
  }

  /** A configuration the parser accepts always sets up a simulation. */
  lemma ParsedConfigSetsUp(lines: seq<string>, totalRounds: int, issuer: Issuer)
    requires Parser.Parse(lines).Success?
    ensures Setup(Parser.Parse(lines).value, totalRounds, issuer).Success?
  {
  }
}
