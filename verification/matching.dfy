/** The matching sweep of `TradeRequestSheet` for one stock: `checkForTradesForStock`,
    `realiseTrade` and `removeRequestIfCancelledDueToInsufficientFunds`.
    The sweep iterates over copies of the two books; a copy's entries are the very request
    objects of the live books, so everything but the remaining quantity is read from the
    copy and the remaining quantity is read from the live book, where the request is found
    by its id. */
module Matching {
  import opened Results
  import opened Requests
  import opened Ledger
  import opened Stocks
  import opened OrderBook
  import SortedList

  /** A realised trade, as the event log would report it. */
  datatype Trade = Trade(
    buyId: nat, sellId: nat,
    buyer: nat, seller: nat,
    quantity: int, price: int,
    buyLimit: int, sellLimit: int)

  /** The state one stock's sweep works on: every investor's account, the traded stock,
      its two live books, and the trades realised so far. */
  datatype Session = Session(
    accounts: seq<Account>,
    stock: Stock,
    buys: seq<Request>,
    sells: seq<Request>,
    trades: seq<Trade>)

  /** `Math.min`. */
  function Min(a: int, b: int): (m: int)
    ensures m <= a && m <= b && (m == a || m == b)
  {
    if a <= b then a else b
  }

  /** Both books are valid for the session's stock and its investors. */
  ghost predicate Valid(s: Session) {
    && ValidBook(s.buys, Buy, s.stock.identifier, |s.accounts|)
    && ValidBook(s.sells, Sell, s.stock.identifier, |s.accounts|)
  }

  /** Positive quantities and non-negative limits on both books: the requests investors make. */
  ghost predicate WellPriced(s: Session) {
    Positive(s.buys) && Positive(s.sells) && NonNegativeLimits(s.buys) && NonNegativeLimits(s.sells)
  }

  /** A trade respects both limits and clears at the limit of the older (lower-id) request. */
  predicate Fair(t: Trade) {
    && t.sellLimit <= t.price <= t.buyLimit
    && t.price == (if t.buyId < t.sellId then t.buyLimit else t.sellLimit)
  }

  /** Every trade from position `k` on is fair. */
  ghost predicate FairFrom(trades: seq<Trade>, k: nat) {
    forall j :: k <= j < |trades| ==> Fair(trades[j])
  }

  /** The parts of a request that never change: all but the remaining quantity. */
  predicate SameRequest(x: Request, y: Request) {
    && x.id == y.id && x.investor == y.investor && x.stock == y.stock
    && x.side == y.side && x.priceLimit == y.priceLimit && x.expiry == y.expiry
  }

  /** The copied entry `x` is the same request as any live entry with its id. */
  ghost predicate Tracked(x: Request, live: seq<Request>) {
    forall y :: y in live && y.id == x.id ==> SameRequest(x, y)
  }

  /** Every entry of a copy is tracked by the live book. */
  ghost predicate TrackedAll(copy: seq<Request>, live: seq<Request>) {
    forall x :: x in copy ==> Tracked(x, live)
  }

  /** Every request of book `b` is a request of book `a`, perhaps with a smaller quantity:
      the sweep only removes requests and reduces quantities. */
  ghost predicate Descends(a: seq<Request>, b: seq<Request>) {
    forall y :: y in b ==> Origin(a, y)
  }

  /** `a` lists the request `y`, perhaps with another remaining quantity. */
  ghost predicate Origin(a: seq<Request>, y: Request) {
    0 <= Locate(a, y.id) && SameRequest(a[Locate(a, y.id)], y)
  }

  /** What every part of the sweep guarantees: the same investors, cash and shares conserved,
      the same stock with its last-trade round untouched, the trade log only extended, the
      stock's last price that of the last trade (or the stock unchanged when nothing traded),
      and books that only lose requests or quantity. */
  ghost predicate Step(a: Session, b: Session) {
    && SameHolders(a.accounts, b.accounts)
    && Conserved(a.accounts, b.accounts)
    && b.stock.identifier == a.stock.identifier
    && b.stock.lastTradeRound == a.stock.lastTradeRound
    && |a.trades| <= |b.trades|
    && b.trades[..|a.trades|] == a.trades
    && (|b.trades| == |a.trades| ==> b.stock == a.stock)
    && (|b.trades| > |a.trades| ==> b.stock.lastPrice == b.trades[|b.trades| - 1].price)
    && Descends(a.buys, b.buys)
    && Descends(a.sells, b.sells)
  }

  lemma StepReflexive(a: Session)
    requires DistinctIds(a.buys) && DistinctIds(a.sells)
    ensures Step(a, a)
  {
    assert a.trades[..|a.trades|] == a.trades;
    DescendsOfPart(a.buys, a.buys);
    DescendsOfPart(a.sells, a.sells);
  }

  /** A book without repeated ids descends from every book it is a part of. */
  lemma DescendsOfPart(a: seq<Request>, b: seq<Request>)
    requires DistinctIds(a)
    requires forall y :: y in b ==> y in a
    ensures Descends(a, b)
  {
    forall y | y in b
      ensures Origin(a, y)
    {
      var j :| 0 <= j < |a| && a[j] == y;
      LocateAt(a, j);
    }
  }

  lemma StepTransitive(a: Session, b: Session, c: Session)
    requires Step(a, b) && Step(b, c)
    ensures Step(a, c)
    ensures FairFrom(b.trades, |a.trades|) && FairFrom(c.trades, |b.trades|) ==> FairFrom(c.trades, |a.trades|)
  {
    assert c.trades[..|a.trades|] == c.trades[..|b.trades|][..|a.trades|];
    DescendsTransitive(a.buys, b.buys, c.buys);
    DescendsTransitive(a.sells, b.sells, c.sells);
    if FairFrom(b.trades, |a.trades|) && FairFrom(c.trades, |b.trades|) {
      forall j | |a.trades| <= j < |c.trades|
        ensures Fair(c.trades[j])
      {
        if j < |b.trades| {
          assert c.trades[j] == c.trades[..|b.trades|][j];
        }
      }
    }
  }

  lemma DescendsTransitive(a: seq<Request>, b: seq<Request>, c: seq<Request>)
    requires Descends(a, b) && Descends(b, c)
    ensures Descends(a, c)
  {
    forall z | z in c
      ensures Origin(a, z)
    {
      var y := b[Locate(b, z.id)];
      assert y in b;
    }
  }

  /** A copy stays tracked while the live book descends. */
  lemma TrackedAllDescends(copy: seq<Request>, a: seq<Request>, b: seq<Request>)
    requires Descends(a, b)
    ensures TrackedAll(copy, a) ==> TrackedAll(copy, b)
  {
    if TrackedAll(copy, a) {
      forall x, z | x in copy && z in b && z.id == x.id
        ensures SameRequest(x, z)
      {
        var y := a[Locate(a, z.id)];
        assert y in a;
      }
    }
  }

  /** A copy of a book without repeated ids is tracked by it. */
  lemma CopyIsTracked(s: seq<Request>, key: Request -> int)
    requires DistinctIds(s)
    ensures TrackedAll(SortedList.Copy(s, key), s)
  {
    var c := SortedList.Copy(s, key);
    forall x, y | x in c && y in s && y.id == x.id
      ensures SameRequest(x, y)
    {
      assert x in multiset(c);
      var i :| 0 <= i < |s| && s[i] == x;
      var j :| 0 <= j < |s| && s[j] == y;
      assert i == j;
    }
  }

  /** The request is still in the book. */
  predicate Listed(s: seq<Request>, id: nat) {
    id in Ids(s)
  }

  /** In a valid session, the requests at `bi` and `si` are a buy and a sell of the session's
      stock by known investors, in books without repeated ids. */
  lemma Members(sess: Session, bi: nat, si: nat)
    requires Valid(sess) && bi < |sess.buys| && si < |sess.sells|
    ensures Belongs(sess.buys[bi], Buy, sess.stock.identifier, |sess.accounts|)
    ensures Belongs(sess.sells[si], Sell, sess.stock.identifier, |sess.accounts|)
    ensures DistinctIds(sess.buys) && DistinctIds(sess.sells)
  {
    assert sess.buys[bi] in sess.buys && sess.sells[si] in sess.sells;
  }

  /** `canBuyStock` / `canSellStock` for a request's own remaining quantity at its own limit,
      by an investor of the population. */
  predicate CanCover(accounts: seq<Account>, r: Request) {
    && r.investor < |accounts|
    && if IsBuy(r) then CanBuy(accounts[r.investor], r.quantity, r.priceLimit)
       else CanSell(accounts[r.investor], r.stock, r.quantity)
  }

  /** `removeRequestIfCancelledDueToInsufficientFunds`: the request at position `i` is removed,
      and `true` returned, iff its investor can no longer cover it. */
  function CancelIfUncovered(accounts: seq<Account>, book: seq<Request>, i: nat): (r: (seq<Request>, bool))
    requires i < |book| && DistinctIds(book)
    ensures r.1 <==> !CanCover(accounts, book[i])
    ensures r.1 ==> !Listed(r.0, book[i].id) && forall x :: x in r.0 <==> x in book && x.id != book[i].id
    ensures !r.1 ==> r.0 == book
  {
    if CanCover(accounts, book[i]) then (book, false)
    else
      LocateAt(book, i);
      (RemoveRequest(book, book[i].id), true)
  }

  /** The quantity `realiseTrade` moves: the smaller remaining quantity. */
  function TradeQuantity(sess: Session, bi: nat, si: nat): int
    requires bi < |sess.buys| && si < |sess.sells|
  {
    Min(sess.buys[bi].quantity, sess.sells[si].quantity)
  }

  /** The price `realiseTrade` clears at: the older request's limit. */
  function TradePrice(sess: Session, bi: nat, si: nat): int
    requires bi < |sess.buys| && si < |sess.sells|
  {
    ChooseOlderPrice(sess.buys[bi], sess.sells[si])
  }

  /** The buyer can pay for, and the seller holds, the traded quantity at the clearing price. */
  predicate CanSettle(sess: Session, bi: nat, si: nat)
    requires bi < |sess.buys| && si < |sess.sells|
  {
    var b := sess.buys[bi];
    var s := sess.sells[si];
    && b.investor < |sess.accounts| && s.investor < |sess.accounts|
    && CanBuy(sess.accounts[b.investor], TradeQuantity(sess, bi, si), TradePrice(sess, bi, si))
    && CanSell(sess.accounts[s.investor], s.stock, TradeQuantity(sess, bi, si))
  }

  /** A trade's result: the new session and whether the buy request is gone from its book. */
  datatype Outcome = Outcome(session: Session, buyDone: bool)

  /** `realiseTrade` for the live buy at `bi` and the live sell at `si`: settle when the buyer
      can pay and the seller can deliver, cancel uncovered requests otherwise. Every outcome
      keeps the books valid and conserves cash and shares; a trade between a compatible pair
      is fair; on well-priced books it never fails and keeps accounts non-negative. */
  function RealiseTrade(sess: Session, bi: nat, si: nat): (r: Result<Outcome>)
    requires Valid(sess) && bi < |sess.buys| && si < |sess.sells|
    ensures r.Success? ==> Valid(r.value.session) && Step(sess, r.value.session)
    ensures r.Success? && Compatible(sess.buys[bi], sess.sells[si]) ==> FairFrom(r.value.session.trades, |sess.trades|)
    ensures WellPriced(sess) ==> r.Success? && WellPriced(r.value.session)
    ensures r.Success? && WellPriced(sess) && AllNonNegative(sess.accounts) ==> AllNonNegative(r.value.session.accounts)
  {
    if CanSettle(sess, bi, si) then Settled(sess, bi, si) else Cancelled(sess, bi, si)
  }

  /** The settling branch of `realiseTrade`: buyer pays and receives, seller delivers and is
      paid, both requests are reduced or removed, and the stock's last price becomes the
      clearing price while its last-trade round is written back unchanged. */
  function Settled(sess: Session, bi: nat, si: nat): (r: Result<Outcome>)
    requires Valid(sess) && bi < |sess.buys| && si < |sess.sells|
    ensures r.Success? ==> Valid(r.value.session) && Step(sess, r.value.session)
    ensures r.Success? && Compatible(sess.buys[bi], sess.sells[si]) ==> FairFrom(r.value.session.trades, |sess.trades|)
    ensures WellPriced(sess) && CanSettle(sess, bi, si) ==> r.Success? && WellPriced(r.value.session)
    ensures r.Success? && WellPriced(sess) && AllNonNegative(sess.accounts) ==> AllNonNegative(r.value.session.accounts)
  {
    Members(sess, bi, si);
    var b := sess.buys[bi];
    var s := sess.sells[si];
    var q := TradeQuantity(sess, bi, si);
    var p := TradePrice(sess, bi, si);
    SettleSucceeds(sess, bi, si);
    var accounts :- Settle(sess.accounts, b.investor, s.investor, sess.stock.identifier, q, p);
    // q is the smaller remaining quantity, so neither reduction can throw (SettleSucceeds)
    var buys := ReduceOrRemove(sess.buys, bi, q).value;
    var sells := ReduceOrRemove(sess.sells, si, q).value;
    var t := Session(accounts, UpdateLastTransaction(sess.stock, p, sess.stock.lastTradeRound), buys, sells,
                     sess.trades + [Trade(b.id, s.id, b.investor, s.investor, q, p, b.priceLimit, s.priceLimit)]);
    SettledBooks(sess, bi, si, t);
    SettledStep(sess, bi, si, t);
    Success(Outcome(t, !Listed(buys, b.id)))
  }

  /** On well-priced books a settleable trade moves a positive quantity at a non-negative
      price, so settlement succeeds; the reductions never exceed a remaining quantity. */
  lemma SettleSucceeds(sess: Session, bi: nat, si: nat)
    requires Valid(sess) && bi < |sess.buys| && si < |sess.sells|
    ensures DistinctIds(sess.buys) && ReduceOrRemove(sess.buys, bi, TradeQuantity(sess, bi, si)).Success?
    ensures DistinctIds(sess.sells) && ReduceOrRemove(sess.sells, si, TradeQuantity(sess, bi, si)).Success?
    ensures WellPriced(sess) && CanSettle(sess, bi, si) ==>
      Settle(sess.accounts, sess.buys[bi].investor, sess.sells[si].investor, sess.stock.identifier,
             TradeQuantity(sess, bi, si), TradePrice(sess, bi, si)).Success?
  {
    Members(sess, bi, si);
    if WellPriced(sess) && CanSettle(sess, bi, si) {
      assert sess.buys[bi] in sess.buys && sess.sells[si] in sess.sells;
      var q := TradeQuantity(sess, bi, si);
      var p := TradePrice(sess, bi, si);
      assert q > 0 && p >= 0;
      assert q * p >= 0;
    }
  }

  /** The books after a settled trade are valid, descend from the old ones, and stay well priced. */
  lemma SettledBooks(sess: Session, bi: nat, si: nat, t: Session)
    requires Valid(sess) && bi < |sess.buys| && si < |sess.sells|
    requires |t.accounts| == |sess.accounts| && t.stock.identifier == sess.stock.identifier
    requires ReduceOrRemove(sess.buys, bi, TradeQuantity(sess, bi, si)).Success?
    requires ReduceOrRemove(sess.sells, si, TradeQuantity(sess, bi, si)).Success?
    requires t.buys == ReduceOrRemove(sess.buys, bi, TradeQuantity(sess, bi, si)).value
    requires t.sells == ReduceOrRemove(sess.sells, si, TradeQuantity(sess, bi, si)).value
    ensures Valid(t)
    ensures Descends(sess.buys, t.buys) && Descends(sess.sells, t.sells)
    ensures WellPriced(sess) ==> WellPriced(t)
  {
    var q := TradeQuantity(sess, bi, si);
    ReduceOrRemoveKeepsValid(sess.buys, bi, q, Buy, sess.stock.identifier, |sess.accounts|);
    ReduceOrRemoveKeepsValid(sess.sells, si, q, Sell, sess.stock.identifier, |sess.accounts|);
    ReduceOrRemoveDescends(sess.buys, bi, q);
    ReduceOrRemoveDescends(sess.sells, si, q);
  }

  /** A settled trade is one step: accounts conserved, one fair trade logged (when the pair is
      compatible), the stock's last price that trade's price. */
  lemma SettledStep(sess: Session, bi: nat, si: nat, t: Session)
    requires bi < |sess.buys| && si < |sess.sells|
    requires SameHolders(sess.accounts, t.accounts) && Conserved(sess.accounts, t.accounts)
    requires Descends(sess.buys, t.buys) && Descends(sess.sells, t.sells)
    requires t.stock == UpdateLastTransaction(sess.stock, TradePrice(sess, bi, si), sess.stock.lastTradeRound)
    requires var b := sess.buys[bi];
             var s := sess.sells[si];
             t.trades == sess.trades + [Trade(b.id, s.id, b.investor, s.investor, TradeQuantity(sess, bi, si),
                                              TradePrice(sess, bi, si), b.priceLimit, s.priceLimit)]
    ensures Step(sess, t)
    ensures Compatible(sess.buys[bi], sess.sells[si]) ==> FairFrom(t.trades, |sess.trades|)
  {
    assert t.trades[..|sess.trades|] == sess.trades;
    if Compatible(sess.buys[bi], sess.sells[si]) {
      OlderPriceWithinLimits(sess.buys[bi], sess.sells[si]);
    }
  }

  lemma ReduceOrRemoveDescends(s: seq<Request>, i: nat, amount: int)
    requires i < |s| && DistinctIds(s)
    requires ReduceOrRemove(s, i, amount).Success?
    ensures Descends(s, ReduceOrRemove(s, i, amount).value)
  {
    var r := ReduceOrRemove(s, i, amount).value;
    forall y | y in r
      ensures Origin(s, y)
    {
      if s[i].quantity == amount {
        var j :| 0 <= j < |s| && s[j] == y;
        LocateAt(s, j);
      } else {
        var j :| 0 <= j < |r| && r[j] == y;
        LocateAt(s, j);
      }
    }
  }

  /** The cancelling branch of `realiseTrade`: the sell is checked first, then the buy. */
  function Cancelled(sess: Session, bi: nat, si: nat): (r: Result<Outcome>)
    requires Valid(sess) && bi < |sess.buys| && si < |sess.sells|
    ensures r.Success? && Valid(r.value.session) && Step(sess, r.value.session)
    ensures r.value.session.trades == sess.trades
    ensures WellPriced(sess) ==> WellPriced(r.value.session)
  {
    Members(sess, bi, si);
    var sells := CancelIfUncovered(sess.accounts, sess.sells, si).0;
    var buys := CancelIfUncovered(sess.accounts, sess.buys, bi);
    CancelKeepsValid(sess.accounts, sess.buys, bi, Buy, sess.stock.identifier);
    CancelKeepsValid(sess.accounts, sess.sells, si, Sell, sess.stock.identifier);
    var t := Session(sess.accounts, sess.stock, buys.0, sells, sess.trades);
    BooksOnlyStep(sess, t);
    Success(Outcome(t, buys.1))
  }

  /** A change of the books alone, each only losing requests or quantity, is a step. */
  lemma BooksOnlyStep(a: Session, b: Session)
    requires b.accounts == a.accounts && b.stock == a.stock && b.trades == a.trades
    requires Descends(a.buys, b.buys) && Descends(a.sells, b.sells)
    ensures Step(a, b)
  {
    assert b.trades[..|a.trades|] == a.trades;
  }

  /** Cancelling keeps a valid book valid and only removes. */
  lemma CancelKeepsValid(accounts: seq<Account>, book: seq<Request>, i: nat, side: Side, stock: string)
    requires i < |book| && ValidBook(book, side, stock, |accounts|)
    ensures ValidBook(CancelIfUncovered(accounts, book, i).0, side, stock, |accounts|)
    ensures Descends(book, CancelIfUncovered(accounts, book, i).0)
    ensures Positive(book) ==> Positive(CancelIfUncovered(accounts, book, i).0)
    ensures NonNegativeLimits(book) ==> NonNegativeLimits(CancelIfUncovered(accounts, book, i).0)
  {
    var r := CancelIfUncovered(accounts, book, i).0;
    RemoveKeepsValid(book, book[i].id, side, stock, |accounts|);
    DescendsOfPart(book, r);
  }

  /** What a successful settled trade returns, spelled out. */
  lemma SettledOutcome(sess: Session, bi: nat, si: nat)
    requires Valid(sess) && bi < |sess.buys| && si < |sess.sells|
    requires CanSettle(sess, bi, si) && RealiseTrade(sess, bi, si).Success?
    ensures var b := sess.buys[bi];
            var s := sess.sells[si];
            var q := TradeQuantity(sess, bi, si);
            var p := TradePrice(sess, bi, si);
            && DistinctIds(sess.buys) && DistinctIds(sess.sells)
            && b.investor < |sess.accounts| && s.investor < |sess.accounts| && s.stock == sess.stock.identifier
            && Settle(sess.accounts, b.investor, s.investor, s.stock, q, p).Success?
            && ReduceOrRemove(sess.buys, bi, q).Success?
            && ReduceOrRemove(sess.sells, si, q).Success?
            && var buys := ReduceOrRemove(sess.buys, bi, q).value;
               RealiseTrade(sess, bi, si).value == Outcome(
                 Session(Settle(sess.accounts, b.investor, s.investor, s.stock, q, p).value,
                         UpdateLastTransaction(sess.stock, p, sess.stock.lastTradeRound),
                         buys, ReduceOrRemove(sess.sells, si, q).value,
                         sess.trades + [Trade(b.id, s.id, b.investor, s.investor, q, p, b.priceLimit, s.priceLimit)]),
                 !Listed(buys, b.id))
  {
    Members(sess, bi, si);
    SettleSucceeds(sess, bi, si);
  }

  /** A settled trade reduces or removes the two requests by the traded quantity. */
  lemma RealiseTradeBooks(sess: Session, bi: nat, si: nat)
    requires Valid(sess) && bi < |sess.buys| && si < |sess.sells|
    requires CanSettle(sess, bi, si) && RealiseTrade(sess, bi, si).Success?
    ensures DistinctIds(sess.buys) && DistinctIds(sess.sells)
    ensures ReduceOrRemove(sess.buys, bi, TradeQuantity(sess, bi, si)).Success?
    ensures ReduceOrRemove(sess.sells, si, TradeQuantity(sess, bi, si)).Success?
    ensures RealiseTrade(sess, bi, si).value.session.buys == ReduceOrRemove(sess.buys, bi, TradeQuantity(sess, bi, si)).value
    ensures RealiseTrade(sess, bi, si).value.session.sells == ReduceOrRemove(sess.sells, si, TradeQuantity(sess, bi, si)).value
  {
    SettledOutcome(sess, bi, si);
  }

  /** A settled trade moves `min` of the two remaining quantities at the older request's
      limit, logs it, and makes that price the stock's last price, keeping its last-trade round. */
  lemma RealiseTradeLogsTrade(sess: Session, bi: nat, si: nat)
    requires Valid(sess) && bi < |sess.buys| && si < |sess.sells|
    requires CanSettle(sess, bi, si) && RealiseTrade(sess, bi, si).Success?
    ensures var b := sess.buys[bi];
            var s := sess.sells[si];
            var t := RealiseTrade(sess, bi, si).value.session;
            && t.trades == sess.trades + [Trade(b.id, s.id, b.investor, s.investor, Min(b.quantity, s.quantity),
                                                ChooseOlderPrice(b, s), b.priceLimit, s.priceLimit)]
            && t.stock.lastPrice == ChooseOlderPrice(b, s)
            && t.stock.lastTradeRound == sess.stock.lastTradeRound
  {
    SettledOutcome(sess, bi, si);
  }

  /** In a settled trade between two investors the buyer pays quantity × price and receives the
      shares, and the seller delivers them and is paid. */
  lemma RealiseTradeMovesCashAndShares(sess: Session, bi: nat, si: nat)
    requires Valid(sess) && bi < |sess.buys| && si < |sess.sells|
    requires CanSettle(sess, bi, si) && RealiseTrade(sess, bi, si).Success?
    requires sess.buys[bi].investor != sess.sells[si].investor
    ensures var b := sess.buys[bi];
            var s := sess.sells[si];
            var q := Min(b.quantity, s.quantity);
            var p := ChooseOlderPrice(b, s);
            var t := RealiseTrade(sess, bi, si).value.session;
            && t.accounts[b.investor].balance == sess.accounts[b.investor].balance - q * p
            && t.accounts[s.investor].balance == sess.accounts[s.investor].balance + q * p
            && Holding(t.accounts[b.investor], s.stock) == Holding(sess.accounts[b.investor], s.stock) + q
            && Holding(t.accounts[s.investor], s.stock) == Holding(sess.accounts[s.investor], s.stock) - q
  {
    SettledOutcome(sess, bi, si);
  }

  /** After a settled trade the filled side leaves its book and the other keeps its place
      with the traded quantity taken off; the buy counts as done iff it was filled. */
  lemma RealiseTradeFillsOrReduces(sess: Session, bi: nat, si: nat)
    requires Valid(sess) && bi < |sess.buys| && si < |sess.sells|
    requires CanSettle(sess, bi, si) && RealiseTrade(sess, bi, si).Success?
    ensures var b := sess.buys[bi];
            var s := sess.sells[si];
            var o := RealiseTrade(sess, bi, si).value;
            var t := o.session;
            && (b.quantity <= s.quantity ==> !Listed(t.buys, b.id))
            && (b.quantity > s.quantity ==> |t.buys| == |sess.buys| && t.buys[bi].quantity == b.quantity - s.quantity)
            && (s.quantity <= b.quantity ==> !Listed(t.sells, s.id))
            && (s.quantity > b.quantity ==> |t.sells| == |sess.sells| && t.sells[si].quantity == s.quantity - b.quantity)
            && (o.buyDone <==> b.quantity <= s.quantity)
  {
    SettledOutcome(sess, bi, si);
    var q := TradeQuantity(sess, bi, si);
    ReduceOrRemoveListing(sess.buys, bi, q);
    ReduceOrRemoveListing(sess.sells, si, q);
  }

  /** Whether the request survives `reduceQuantityOrRemove`. */
  lemma ReduceOrRemoveListing(s: seq<Request>, i: nat, amount: int)
    requires i < |s| && DistinctIds(s) && ReduceOrRemove(s, i, amount).Success?
    ensures s[i].quantity == amount ==> !Listed(ReduceOrRemove(s, i, amount).value, s[i].id)
    ensures s[i].quantity > amount ==> Listed(ReduceOrRemove(s, i, amount).value, s[i].id)
  {
    var r := ReduceOrRemove(s, i, amount).value;
    if s[i].quantity == amount {
      assert forall k :: 0 <= k < |r| ==> r[k] in r && r[k].id != s[i].id;
    } else {
      assert Ids(r)[i] == s[i].id;
    }
  }

  /** Settlement of a settleable pair fails only when the cost quantity × price is negative. */
  lemma RealiseTradeFailsOnlyOnNegativeCost(sess: Session, bi: nat, si: nat)
    requires Valid(sess) && bi < |sess.buys| && si < |sess.sells|
    requires CanSettle(sess, bi, si) && TradeQuantity(sess, bi, si) >= 0
    ensures RealiseTrade(sess, bi, si).Success? <==> TradeQuantity(sess, bi, si) * TradePrice(sess, bi, si) >= 0
  {
    Members(sess, bi, si);
    SettleSucceeds(sess, bi, si);
  }

  /** A cancelled trade: nothing is settled, and each side leaves its book iff its investor
      cannot cover its own whole remaining quantity at its own limit; the buy counts as done
      iff it was cancelled. */
  lemma RealiseTradeCancels(sess: Session, bi: nat, si: nat)
    requires Valid(sess) && bi < |sess.buys| && si < |sess.sells|
    requires !CanSettle(sess, bi, si)
    ensures RealiseTrade(sess, bi, si).Success?
    ensures var b := sess.buys[bi];
            var s := sess.sells[si];
            var o := RealiseTrade(sess, bi, si).value;
            var t := o.session;
            && t.accounts == sess.accounts && t.stock == sess.stock && t.trades == sess.trades
            && (Listed(t.buys, b.id) <==> CanCover(sess.accounts, b))
            && (Listed(t.sells, s.id) <==> CanCover(sess.accounts, s))
            && (forall x :: x in t.buys <==> x in sess.buys && (x.id != b.id || CanCover(sess.accounts, b)))
            && (forall x :: x in t.sells <==> x in sess.sells && (x.id != s.id || CanCover(sess.accounts, s)))
            && (o.buyDone <==> !CanCover(sess.accounts, b))
  {
    Members(sess, bi, si);
    var b := sess.buys[bi];
    var s := sess.sells[si];
    var t := RealiseTrade(sess, bi, si).value.session;
    assert t.buys == CancelIfUncovered(sess.accounts, sess.buys, bi).0;
    assert t.sells == CancelIfUncovered(sess.accounts, sess.sells, si).0;
    assert Listed(sess.buys, b.id) && Listed(sess.sells, s.id) by {
      assert Ids(sess.buys)[bi] == b.id && Ids(sess.sells)[si] == s.id;
    }
  }

  /** Chaining two stretches of the sweep. */
  lemma Chain(a: Session, b: Session, r: Result<Session>)
    requires Step(a, b)
    requires r.Success? ==> Step(b, r.value)
    ensures r.Success? ==> Step(a, r.value)
    ensures r.Success? && FairFrom(b.trades, |a.trades|) && FairFrom(r.value.trades, |b.trades|) ==>
      FairFrom(r.value.trades, |a.trades|)
  {
    if r.Success? {
      StepTransitive(a, b, r.value);
    }
  }

  /** One pass of the inner loop body for a compatible pair taken from the copies. The pair is
      skipped when either request has already left its live book (`indexOf` gives -1, `subList`
      throws IndexOutOfBoundsException and the loop continues) or when either side's
      `considerTrade` refuses, the buy seeing the live sells from the candidate on and the sell
      seeing the live buys from the candidate on; otherwise the trade is realised. */
  function MatchPair(sess: Session, buy: Request, sell: Request): (r: Result<Session>)
    requires Valid(sess)
    ensures r.Success? ==> Valid(r.value) && Step(sess, r.value)
    ensures r.Success? && Tracked(buy, sess.buys) && Tracked(sell, sess.sells) && Compatible(buy, sell) ==>
      FairFrom(r.value.trades, |sess.trades|)
    ensures WellPriced(sess) ==> r.Success? && WellPriced(r.value)
    ensures r.Success? && WellPriced(sess) && AllNonNegative(sess.accounts) ==> AllNonNegative(r.value.accounts)
    ensures !Listed(sess.buys, buy.id) || !Listed(sess.sells, sell.id) ==> r == Success(sess)
  {
    StepReflexive(sess);
    var si := Locate(sess.sells, sell.id);
    var bi := Locate(sess.buys, buy.id);
    if si < 0 || bi < 0 then Success(sess)
    else if !ConsiderTrade(sess.buys[bi], sess.sells[si..]) || !ConsiderTrade(sess.sells[si], sess.buys[bi..]) then
      Success(sess)
    else
      assert sess.buys[bi] in sess.buys && sess.sells[si] in sess.sells;
      var o :- RealiseTrade(sess, bi, si);
      Success(o.session)
  }

  /** The inner loop: the buy `buy` against a copy of the sells, stopping at the first sell
      whose limit is above the buy's. */
  function SweepSells(sess: Session, buy: Request, sells: seq<Request>): (r: Result<Session>)
    requires Valid(sess)
    ensures r.Success? ==> Valid(r.value) && Step(sess, r.value)
    ensures r.Success? && Tracked(buy, sess.buys) && TrackedAll(sells, sess.sells) ==>
      FairFrom(r.value.trades, |sess.trades|)
    ensures WellPriced(sess) ==> r.Success? && WellPriced(r.value)
    ensures r.Success? && WellPriced(sess) && AllNonNegative(sess.accounts) ==> AllNonNegative(r.value.accounts)
    decreases |sells|
  {
    StepReflexive(sess);
    if |sells| == 0 then Success(sess)
    else if buy.priceLimit >= sells[0].priceLimit then
      assert sells[0] in sells;
      var next :- MatchPair(sess, buy, sells[0]);
      StillTracked(sess, next, buy, sells);
      var r := SweepSells(next, buy, sells[1..]);
      Chain(sess, next, r);
      r
    else
      Success(sess)
  }

  /** After one pass of the inner loop, the buy and the rest of the sell copy are still tracked. */
  lemma StillTracked(sess: Session, next: Session, buy: Request, sells: seq<Request>)
    requires Step(sess, next) && |sells| > 0
    ensures Tracked(buy, sess.buys) ==> Tracked(buy, next.buys)
    ensures TrackedAll(sells, sess.sells) ==> TrackedAll(sells[1..], next.sells)
  {
    TrackedAllDescends([buy], sess.buys, next.buys);
    assert Tracked(buy, sess.buys) ==> TrackedAll([buy], sess.buys);
    assert TrackedAll([buy], next.buys) ==> Tracked(buy, next.buys) by {
      assert buy in [buy];
    }
    TrackedAllDescends(sells[1..], sess.sells, next.sells);
    assert TrackedAll(sells, sess.sells) ==> TrackedAll(sells[1..], sess.sells) by {
      assert forall x :: x in sells[1..] ==> x in sells;
    }
  }

  /** The outer loop: each buy of a copy of the buys, in order, against a fresh copy of the
      live sells. */
  function SweepBuys(sess: Session, buys: seq<Request>): (r: Result<Session>)
    requires Valid(sess)
    ensures r.Success? ==> Valid(r.value) && Step(sess, r.value)
    ensures r.Success? && TrackedAll(buys, sess.buys) ==> FairFrom(r.value.trades, |sess.trades|)
    ensures WellPriced(sess) ==> r.Success? && WellPriced(r.value)
    ensures r.Success? && WellPriced(sess) && AllNonNegative(sess.accounts) ==> AllNonNegative(r.value.accounts)
    decreases |buys|
  {
    StepReflexive(sess);
    if |buys| == 0 then Success(sess)
    else
      var sells := SortedList.Copy(sess.sells, SellKey);
      CopyIsTracked(sess.sells, SellKey);
      assert buys[0] in buys;
      var next :- SweepSells(sess, buys[0], sells);
      TrackedAllDescends(buys[1..], sess.buys, next.buys);
      assert TrackedAll(buys, sess.buys) ==> TrackedAll(buys[1..], sess.buys) by {
        assert forall x :: x in buys[1..] ==> x in buys;
      }
      var r := SweepBuys(next, buys[1..]);
      Chain(sess, next, r);
      r
  }

  /** One pass of the inner loop, then the rest of the copy. */
  lemma SweepSellsStep(sess: Session, buy: Request, sells: seq<Request>)
    requires Valid(sess) && |sells| > 0 && Compatible(buy, sells[0])
    requires MatchPair(sess, buy, sells[0]).Success?
    ensures SweepSells(sess, buy, sells) == SweepSells(MatchPair(sess, buy, sells[0]).value, buy, sells[1..])
  {
  }

  /** The inner loop over a single sell the buy can afford is that one pass. */
  lemma SweepOfOneSell(sess: Session, buy: Request, sell: Request)
    requires Valid(sess) && Compatible(buy, sell)
    ensures SweepSells(sess, buy, [sell]) == MatchPair(sess, buy, sell)
  {
    var first := MatchPair(sess, buy, sell);
    if first.Success? {
      assert [sell][1..] == [];
      assert SweepSells(first.value, buy, []) == Success(first.value);
    }
  }

  /** The outer loop over a single buy is the inner loop for that buy. */
  lemma SweepOfOneBuy(sess: Session, buy: Request)
    requires Valid(sess)
    ensures SweepBuys(sess, [buy]) == SweepSells(sess, buy, SortedList.Copy(sess.sells, SellKey))
  {
    var first := SweepSells(sess, buy, SortedList.Copy(sess.sells, SellKey));
    if first.Success? {
      assert [buy][1..] == [];
      assert SweepBuys(first.value, []) == Success(first.value);
    }
  }

  /** `checkForTradesForStock`: every buy of a copy of the buy book, best limit first, against
      the sells. Every outcome keeps the books valid, conserves cash and every stock's shares,
      keeps the investors, only removes requests or reduces quantities, logs only fair trades,
      leaves the stock's last price at the last trade's price (or the stock untouched) and its
      last-trade round as it was. On well-priced books it never throws and keeps every account
      non-negative. */
  function CheckForTradesForStock(sess: Session): (r: Result<Session>)
    requires Valid(sess)
    ensures r.Success? ==> Valid(r.value) && Step(sess, r.value) && FairFrom(r.value.trades, |sess.trades|)
    ensures WellPriced(sess) ==> r.Success? && WellPriced(r.value)
    ensures r.Success? && WellPriced(sess) && AllNonNegative(sess.accounts) ==> AllNonNegative(r.value.accounts)
  {
    CopyIsTracked(sess.buys, BuyKey);
    SweepBuys(sess, SortedList.Copy(sess.buys, BuyKey))
  }

  /** The inner loop's `break`: once a sell priced above the buy's limit is reached, no later
      sell of the copy is ever looked at, so the sweep over the whole copy is the sweep over
      the sells before that one. */
  lemma SweepStopsAtFirstDearerSell(sess: Session, buy: Request, sells: seq<Request>, k: nat)
    requires Valid(sess)
    requires k < |sells| && buy.priceLimit < sells[k].priceLimit
    ensures SweepSells(sess, buy, sells) == SweepSells(sess, buy, sells[..k])
  {
    SuffixStops(sess, buy, sells, 0, k);
    assert sells[0..] == sells && sells[0..k] == sells[..k];
  }

  /** The same from position `j` on: the sells from `j` sweep like the sells from `j` to `k`. */
  lemma {:induction false} SuffixStops(sess: Session, buy: Request, sells: seq<Request>, j: nat, k: nat)
    requires Valid(sess)
    requires j <= k < |sells| && buy.priceLimit < sells[k].priceLimit
    ensures SweepSells(sess, buy, sells[j..]) == SweepSells(sess, buy, sells[j..k])
    decreases k - j
  {
    if j == k {
      SweepSellsHalts(sess, buy, sells[j..]);
      SweepSellsHalts(sess, buy, sells[j..k]);
    } else if !Compatible(buy, sells[j]) {
      SweepSellsHalts(sess, buy, sells[j..]);
      SweepSellsHalts(sess, buy, sells[j..k]);
    } else if MatchPair(sess, buy, sells[j]).Failure? {
      SweepSellsFails(sess, buy, sells[j..]);
      SweepSellsFails(sess, buy, sells[j..k]);
    } else {
      var next := MatchPair(sess, buy, sells[j]).value;
      SuffixStops(next, buy, sells, j + 1, k);
      DropOne(sells, j, k);
      SweepSellsShift(sess, buy, sells[j..], sells[j..k]);
    }
  }

  lemma DropOne(s: seq<Request>, j: nat, k: nat)
    requires j < k <= |s|
    ensures s[j..][0] == s[j] && s[j..k][0] == s[j]
    ensures s[j..][1..] == s[j + 1..] && s[j..k][1..] == s[j + 1..k]
  {
  }

  /** Two lists with the same head sweep alike when their tails do after the head's match. */
  lemma SweepSellsShift(sess: Session, buy: Request, a: seq<Request>, b: seq<Request>)
    requires Valid(sess) && |a| > 0 && |b| > 0 && a[0] == b[0]
    requires Compatible(buy, a[0]) && MatchPair(sess, buy, a[0]).Success?
    requires SweepSells(MatchPair(sess, buy, a[0]).value, buy, a[1..])
          == SweepSells(MatchPair(sess, buy, a[0]).value, buy, b[1..])
    ensures SweepSells(sess, buy, a) == SweepSells(sess, buy, b)
  {
    SweepSellsStep(sess, buy, a);
    SweepSellsStep(sess, buy, b);
  }

  lemma SweepSellsHalts(sess: Session, buy: Request, sells: seq<Request>)
    requires Valid(sess)
    requires |sells| == 0 || !Compatible(buy, sells[0])
    ensures SweepSells(sess, buy, sells) == Success(sess)
  {
  }

  lemma SweepSellsFails(sess: Session, buy: Request, sells: seq<Request>)
    requires Valid(sess) && |sells| > 0 && Compatible(buy, sells[0])
    requires MatchPair(sess, buy, sells[0]).Failure?
    ensures SweepSells(sess, buy, sells) == Failure(MatchPair(sess, buy, sells[0]).error)
  {
  }
}
