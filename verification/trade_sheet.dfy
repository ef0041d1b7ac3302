/** `stocks.TradeRequestSheet` as a whole: the buy map and the sell map, keyed by stock
    identifier, `addRequest`, `checkForTrades` over every stock, `removeExpiredRequests`, and
    `realiseSubmittedTrades`, which does the two in that order. */
module TradeSheet {
  import opened Results
  import opened Requests
  import opened Ledger
  import opened Stocks
  import opened OrderBook
  import opened Matching
  import SortedList

  /** The two maps, plus the order in which stocks were first given books. Java walks the
      `HashMap` key set in an unspecified order; the sweep below is proved for every walk, and
      `order` is the one the model uses for a round. */
  datatype Sheet = Sheet(order: seq<string>, buys: map<string, seq<Request>>, sells: map<string, seq<Request>>)

  /** `new TradeRequestSheet()`. */
  function EmptySheet(): (s: Sheet)
    ensures s.buys == map[] && s.sells == map[] && s.order == []
  {
    Sheet([], map[], map[])
  }

  /** The book kept under `stock`, or a new empty one. */
  function BookOf(books: map<string, seq<Request>>, stock: string): (b: seq<Request>)
    ensures stock in books ==> b == books[stock]
    ensures stock !in books ==> b == []
  {
    if stock in books then books[stock] else []
  }

  /** No stock is listed twice. */
  ghost predicate NoRepeats(order: seq<string>) {
    forall i, j :: 0 <= i < j < |order| ==> order[i] != order[j]
  }

  /** Every book of the map is a valid book of `side` for the stock it is filed under. */
  ghost predicate AllValid(books: map<string, seq<Request>>, side: Side, investors: nat) {
    forall k :: k in books ==> ValidBook(books[k], side, k, investors)
  }

  /** Every book of the map holds positive quantities at non-negative limits. */
  ghost predicate AllPriced(books: map<string, seq<Request>>) {
    forall k :: k in books ==> Positive(books[k]) && NonNegativeLimits(books[k])
  }

  /** Every request of the map has an id below `bound`. */
  ghost predicate AllBelow(books: map<string, seq<Request>>, bound: nat) {
    forall k :: k in books ==> IdsBelow(books[k], bound)
  }

  /** The sheet's invariant: both maps have the same stocks (the comment at
      `removeExpiredRequests` relies on this), `order` lists each of them once, and every book
      is a valid book of its side for its own stock, among `investors` investors. */
  ghost predicate WellFormed(sheet: Sheet, investors: nat) {
    && sheet.buys.Keys == sheet.sells.Keys
    && (forall k :: k in sheet.buys <==> k in sheet.order)
    && NoRepeats(sheet.order)
    && AllValid(sheet.buys, Buy, investors)
    && AllValid(sheet.sells, Sell, investors)
  }

  /** Every request on the sheet has an id below `bound`. */
  ghost predicate IssuedBelow(sheet: Sheet, bound: nat) {
    AllBelow(sheet.buys, bound) && AllBelow(sheet.sells, bound)
  }

  /** Every book holds positive quantities at non-negative limits. */
  ghost predicate SheetWellPriced(sheet: Sheet) {
    AllPriced(sheet.buys) && AllPriced(sheet.sells)
  }

  /** Changing one stock's book, or giving a new stock a book, keeps each book-wide property
      the new book has. */
  lemma ChangeKeeps(books: map<string, seq<Request>>, after: map<string, seq<Request>>, k: string,
                    side: Side, investors: nat, bound: nat)
    requires after.Keys == books.Keys + {k}
    requires forall j :: j in books && j != k ==> after[j] == books[j]
    ensures AllValid(books, side, investors) && ValidBook(after[k], side, k, investors) ==> AllValid(after, side, investors)
    ensures AllPriced(books) && Positive(after[k]) && NonNegativeLimits(after[k]) ==> AllPriced(after)
    ensures AllBelow(books, bound) && IdsBelow(after[k], bound) ==> AllBelow(after, bound)
  {
  }

  /** A bound on ids holds for every larger bound. */
  lemma AllBelowRaise(books: map<string, seq<Request>>, bound: nat, bound': nat)
    requires AllBelow(books, bound) && bound <= bound'
    ensures AllBelow(books, bound')
  {
  }

  /** `putIfAbsent(stock, new SortedList<>(…))`: the stock has a book afterwards. */
  function Open(books: map<string, seq<Request>>, stock: string): (b: map<string, seq<Request>>)
    ensures b.Keys == books.Keys + {stock}
    ensures b[stock] == BookOf(books, stock)
    ensures forall k :: k in books && k != stock ==> b[k] == books[k]
  {
    books[stock := BookOf(books, stock)]
  }

  /** `get(stock).add(request)` after the `putIfAbsent`. */
  function FileIn(books: map<string, seq<Request>>, r: Request, key: Request -> int): (b: map<string, seq<Request>>)
    ensures b.Keys == books.Keys + {r.stock}
    ensures b[r.stock] == SortedList.Add(BookOf(books, r.stock), r, key)
    ensures forall k :: k in books && k != r.stock ==> b[k] == books[k]
  {
    books[r.stock := SortedList.Add(BookOf(books, r.stock), r, key)]
  }

  /** `addRequest`: make sure both books exist for the request's stock (`putIfAbsent` on both
      maps), then `add` the request to the book of its side. */
  function AddRequest(sheet: Sheet, r: Request): (s: Sheet)
    ensures s.buys.Keys == sheet.buys.Keys + {r.stock} && s.sells.Keys == sheet.sells.Keys + {r.stock}
    ensures forall k :: k in sheet.buys && k != r.stock ==> s.buys[k] == sheet.buys[k]
    ensures forall k :: k in sheet.sells && k != r.stock ==> s.sells[k] == sheet.sells[k]
  {
    var order := if r.stock in sheet.buys then sheet.order else sheet.order + [r.stock];
    if IsBuy(r) then Sheet(order, FileIn(sheet.buys, r, KeyFor(r.side)), Open(sheet.sells, r.stock))
    else Sheet(order, Open(sheet.buys, r.stock), FileIn(sheet.sells, r, KeyFor(r.side)))
  }

  /** The book `addRequest` files the request in, afterwards. */
  function Filed(sheet: Sheet, r: Request): (b: seq<Request>)
    ensures multiset(b) == multiset(BookOf(if IsBuy(r) then sheet.buys else sheet.sells, r.stock)) + multiset{r}
  {
    SortedList.Add(BookOf(if IsBuy(r) then sheet.buys else sheet.sells, r.stock), r, KeyFor(r.side))
  }

  /** The request lands in the book of its own side, which gains exactly it; the book of the
      other side exists afterwards and is unchanged (empty if it is new). */
  lemma AddRequestFiles(sheet: Sheet, r: Request)
    ensures var s := AddRequest(sheet, r);
      && (IsBuy(r) ==> s.buys[r.stock] == Filed(sheet, r) && s.sells[r.stock] == BookOf(sheet.sells, r.stock))
      && (IsSell(r) ==> s.sells[r.stock] == Filed(sheet, r) && s.buys[r.stock] == BookOf(sheet.buys, r.stock))
      && (IsBuy(r) ==> r in s.buys[r.stock] && |s.buys[r.stock]| == |BookOf(sheet.buys, r.stock)| + 1)
      && (IsSell(r) ==> r in s.sells[r.stock] && |s.sells[r.stock]| == |BookOf(sheet.sells, r.stock)| + 1)
  {
    var s := AddRequest(sheet, r);
    assert r in multiset(Filed(sheet, r));
  }

  /** Adding a freshly issued request by a known investor keeps the sheet well formed, keeps
      its ids below the issuer's next id, and keeps it well priced when the request is. */
  lemma AddRequestKeepsWellFormed(sheet: Sheet, r: Request, investors: nat)
    requires WellFormed(sheet, investors) && IssuedBelow(sheet, r.id)
    requires r.investor < investors
    ensures WellFormed(AddRequest(sheet, r), investors)
    ensures IssuedBelow(AddRequest(sheet, r), r.id + 1)
    ensures SheetWellPriced(sheet) && r.quantity > 0 && r.priceLimit >= 0 ==> SheetWellPriced(AddRequest(sheet, r))
  {
    AddRequestKeepsOrder(sheet, r);
    AllBelowRaise(sheet.buys, r.id, r.id + 1);
    AllBelowRaise(sheet.sells, r.id, r.id + 1);
    if IsBuy(r) {
      BookOfKeeps(sheet.buys, r.stock, Buy, investors, r.id);
      AddKeepsValid(BookOf(sheet.buys, r.stock), r, r.side, r.stock, investors);
      FileInKeeps(sheet.buys, r, r.side, investors, r.id + 1);
      OpenKeeps(sheet.sells, r.stock, Sell, investors, r.id + 1);
    } else {
      BookOfKeeps(sheet.sells, r.stock, Sell, investors, r.id);
      AddKeepsValid(BookOf(sheet.sells, r.stock), r, r.side, r.stock, investors);
      FileInKeeps(sheet.sells, r, r.side, investors, r.id + 1);
      OpenKeeps(sheet.buys, r.stock, Buy, investors, r.id + 1);
    }
  }

  /** The book a stock has, or the empty book it is given, has every book-wide property. */
  lemma BookOfKeeps(books: map<string, seq<Request>>, stock: string, side: Side, investors: nat, bound: nat)
    ensures AllValid(books, side, investors) ==> ValidBook(BookOf(books, stock), side, stock, investors)
    ensures AllPriced(books) ==> Positive(BookOf(books, stock)) && NonNegativeLimits(BookOf(books, stock))
    ensures AllBelow(books, bound) ==> IdsBelow(BookOf(books, stock), bound)
  {
  }

  /** Opening a book for a stock keeps every book-wide property: the new book is empty. */
  lemma OpenKeeps(books: map<string, seq<Request>>, stock: string, side: Side, investors: nat, bound: nat)
    ensures AllValid(books, side, investors) ==> AllValid(Open(books, stock), side, investors)
    ensures AllPriced(books) ==> AllPriced(Open(books, stock))
    ensures AllBelow(books, bound) ==> AllBelow(Open(books, stock), bound)
  {
    var b := Open(books, stock);
    if stock !in books {
      assert b[stock] == [];
    }
  }

  /** Filing a request keeps each book-wide property the grown book has. */
  lemma FileInKeeps(books: map<string, seq<Request>>, r: Request, side: Side, investors: nat, bound: nat)
    ensures var grown := SortedList.Add(BookOf(books, r.stock), r, KeyFor(side));
      && (AllValid(books, side, investors) && ValidBook(grown, side, r.stock, investors) ==>
          AllValid(FileIn(books, r, KeyFor(side)), side, investors))
      && (AllPriced(books) && Positive(grown) && NonNegativeLimits(grown) ==> AllPriced(FileIn(books, r, KeyFor(side))))
      && (AllBelow(books, bound) && IdsBelow(grown, bound) ==> AllBelow(FileIn(books, r, KeyFor(side)), bound))
  {
  }

  /** A stock gets a place in `order` exactly when it first gets books. */
  lemma AddRequestKeepsOrder(sheet: Sheet, r: Request)
    requires sheet.buys.Keys == sheet.sells.Keys
    requires forall k :: k in sheet.buys <==> k in sheet.order
    requires NoRepeats(sheet.order)
    ensures var s := AddRequest(sheet, r);
      && s.buys.Keys == s.sells.Keys
      && (forall k :: k in s.buys <==> k in s.order)
      && NoRepeats(s.order)
  {
    var s := AddRequest(sheet, r);
    if r.stock !in sheet.buys {
      assert s.order == sheet.order + [r.stock];
      forall i, j | 0 <= i < j < |s.order|
        ensures s.order[i] != s.order[j]
      {
        if j == |sheet.order| {
          assert s.order[i] == sheet.order[i] && sheet.order[i] in sheet.order;
        }
      }
    }
  }

  /** The shared state the sweep of every stock works on. `trades` is the event log of
      realised trades. */
  datatype Market = Market(accounts: seq<Account>, stocks: Registry, trades: seq<Trade>)

  /** A well-formed sheet whose stocks are all registered under their own identifiers. */
  ghost predicate Fits(m: Market, sheet: Sheet) {
    && WellFormed(sheet, |m.accounts|)
    && WellKeyed(m.stocks)
    && (forall k :: k in sheet.buys ==> k in m.stocks)
  }

  /** What a stretch of `checkForTrades` guarantees: the same investors, cash and shares
      conserved, the same stocks with their last-trade rounds untouched, the trade log only
      extended, the same stocks on the sheet, and books that only lose requests or quantity. */
  ghost predicate Advance(m: Market, sheet: Sheet, m': Market, sheet': Sheet) {
    && SameHolders(m.accounts, m'.accounts)
    && Conserved(m.accounts, m'.accounts)
    && m'.stocks.Keys == m.stocks.Keys
    && (forall k :: k in m.stocks ==> m'.stocks[k].identifier == m.stocks[k].identifier)
    && (forall k :: k in m.stocks ==> m'.stocks[k].lastTradeRound == m.stocks[k].lastTradeRound)
    && |m.trades| <= |m'.trades| && m'.trades[..|m.trades|] == m.trades
    && sheet'.order == sheet.order
    && sheet'.buys.Keys == sheet.buys.Keys && sheet'.sells.Keys == sheet.sells.Keys
    && (forall k :: k in sheet.buys ==> Descends(sheet.buys[k], sheet'.buys[k]))
    && (forall k :: k in sheet.sells ==> Descends(sheet.sells[k], sheet'.sells[k]))
  }

  lemma AdvanceReflexive(m: Market, sheet: Sheet)
    requires Fits(m, sheet)
    ensures Advance(m, sheet, m, sheet)
  {
    assert m.trades[..|m.trades|] == m.trades;
    forall k | k in sheet.buys
      ensures Descends(sheet.buys[k], sheet.buys[k])
    {
      DescendsOfPart(sheet.buys[k], sheet.buys[k]);
    }
    forall k | k in sheet.sells
      ensures Descends(sheet.sells[k], sheet.sells[k])
    {
      DescendsOfPart(sheet.sells[k], sheet.sells[k]);
    }
  }

  lemma AdvanceTransitive(m1: Market, s1: Sheet, m2: Market, s2: Sheet, m3: Market, s3: Sheet)
    requires Advance(m1, s1, m2, s2) && Advance(m2, s2, m3, s3)
    ensures Advance(m1, s1, m3, s3)
  {
    assert m3.trades[..|m1.trades|] == m3.trades[..|m2.trades|][..|m1.trades|];
    forall k | k in s1.buys
      ensures Descends(s1.buys[k], s3.buys[k])
    {
      DescendsTransitive(s1.buys[k], s2.buys[k], s3.buys[k]);
    }
    forall k | k in s1.sells
      ensures Descends(s1.sells[k], s3.sells[k])
    {
      DescendsTransitive(s1.sells[k], s2.sells[k], s3.sells[k]);
    }
  }

  /** The sweep state for stock `k`. */
  function SessionFor(m: Market, sheet: Sheet, k: string): (sess: Session)
    requires k in m.stocks && k in sheet.buys && k in sheet.sells
    ensures sess.accounts == m.accounts && sess.stock == m.stocks[k] && sess.trades == m.trades
    ensures sess.buys == sheet.buys[k] && sess.sells == sheet.sells[k]
  {
    Session(m.accounts, m.stocks[k], sheet.buys[k], sheet.sells[k], m.trades)
  }

  /** Writing the result of stock `k`'s sweep back into the market and the sheet. */
  function WriteBack(m: Market, sheet: Sheet, k: string, after: Session): (r: (Market, Sheet))
    ensures r.0 == Market(after.accounts, m.stocks[k := after.stock], after.trades)
    ensures r.1 == sheet.(buys := sheet.buys[k := after.buys], sells := sheet.sells[k := after.sells])
  {
    (Market(after.accounts, m.stocks[k := after.stock], after.trades),
     sheet.(buys := sheet.buys[k := after.buys], sells := sheet.sells[k := after.sells]))
  }

  /** Stock `k`'s sweep, written back, keeps the market fitting the sheet. */
  lemma WriteBackFits(m: Market, sheet: Sheet, k: string, after: Session)
    requires Fits(m, sheet) && k in sheet.buys
    requires Valid(after) && Step(SessionFor(m, sheet, k), after)
    ensures Fits(WriteBack(m, sheet, k, after).0, WriteBack(m, sheet, k, after).1)
    ensures SheetWellPriced(sheet) && WellPriced(after) ==> SheetWellPriced(WriteBack(m, sheet, k, after).1)
  {
    var (m', sheet') := WriteBack(m, sheet, k, after);
    assert after.stock.identifier == k;
    assert |after.accounts| == |m.accounts|;
    WriteBackBooks(sheet, k, after.buys, after.sells, |m.accounts|);
    assert WellKeyed(m'.stocks);
  }

  /** Replacing one listed stock's two books by valid books keeps the sheet well formed. */
  lemma WriteBackBooks(sheet: Sheet, k: string, buys: seq<Request>, sells: seq<Request>, investors: nat)
    requires WellFormed(sheet, investors) && k in sheet.buys
    requires ValidBook(buys, Buy, k, investors) && ValidBook(sells, Sell, k, investors)
    ensures WellFormed(sheet.(buys := sheet.buys[k := buys], sells := sheet.sells[k := sells]), investors)
    ensures SheetWellPriced(sheet) && Positive(buys) && NonNegativeLimits(buys) && Positive(sells) && NonNegativeLimits(sells) ==>
      SheetWellPriced(sheet.(buys := sheet.buys[k := buys], sells := sheet.sells[k := sells]))
  {
    assert sheet.buys[k := buys].Keys == sheet.buys.Keys;
    assert sheet.sells[k := sells].Keys == sheet.sells.Keys;
    ChangeKeeps(sheet.buys, sheet.buys[k := buys], k, Buy, investors, 0);
    ChangeKeeps(sheet.sells, sheet.sells[k := sells], k, Sell, investors, 0);
  }

  /** Stock `k`'s sweep, written back, advances the market and the sheet. */
  lemma WriteBackAdvances(m: Market, sheet: Sheet, k: string, after: Session)
    requires Fits(m, sheet) && k in sheet.buys
    requires Valid(after) && Step(SessionFor(m, sheet, k), after)
    ensures Advance(m, sheet, WriteBack(m, sheet, k, after).0, WriteBack(m, sheet, k, after).1)
  {
    var (m', sheet') := WriteBack(m, sheet, k, after);
    forall key | key in sheet.buys
      ensures Descends(sheet.buys[key], sheet'.buys[key])
    {
      if key != k {
        DescendsOfPart(sheet.buys[key], sheet.buys[key]);
      }
    }
    forall key | key in sheet.sells
      ensures Descends(sheet.sells[key], sheet'.sells[key])
    {
      if key != k {
        DescendsOfPart(sheet.sells[key], sheet.sells[key]);
      }
    }
  }

  /** What `checkForTrades` guarantees from `(m, sheet)` to `next`. */
  ghost predicate Swept(m: Market, sheet: Sheet, next: (Market, Sheet)) {
    && Fits(next.0, next.1)
    && Advance(m, sheet, next.0, next.1)
    && FairFrom(next.0.trades, |m.trades|)
  }

  /** `checkForTradesForStock` for stock `k`, written back. */
  function SweepStock(m: Market, sheet: Sheet, k: string): (r: Result<(Market, Sheet)>)
    requires Fits(m, sheet) && k in sheet.buys
    ensures r.Success? ==> Swept(m, sheet, r.value)
    ensures SheetWellPriced(sheet) ==> r.Success? && SheetWellPriced(r.value.1)
    ensures r.Success? && SheetWellPriced(sheet) && AllNonNegative(m.accounts) ==> AllNonNegative(r.value.0.accounts)
  {
    SessionForValid(m, sheet, k);
    var after :- CheckForTradesForStock(SessionFor(m, sheet, k));
    WriteBackFits(m, sheet, k, after);
    WriteBackAdvances(m, sheet, k, after);
    Success(WriteBack(m, sheet, k, after))
  }

  /** The loop of `checkForTrades`: `checkForTradesForStock` for each stock of `walk` from
      position `from` on, the result of each feeding the next. */
  function CheckForTrades(m: Market, sheet: Sheet, walk: seq<string>, from: nat): (r: Result<(Market, Sheet)>)
    requires Fits(m, sheet)
    requires forall i :: 0 <= i < |walk| ==> walk[i] in sheet.buys
    ensures r.Success? ==> Swept(m, sheet, r.value)
    ensures SheetWellPriced(sheet) ==> r.Success? && SheetWellPriced(r.value.1)
    ensures r.Success? && SheetWellPriced(sheet) && AllNonNegative(m.accounts) ==> AllNonNegative(r.value.0.accounts)
    decreases |walk| - from
  {
    if from >= |walk| then
      AdvanceReflexive(m, sheet);
      Success((m, sheet))
    else
      var next :- SweepStock(m, sheet, walk[from]);
      SweptKeepsStocks(m, sheet, next);
      var r := CheckForTrades(next.0, next.1, walk, from + 1);
      Chained(m, sheet, next, r);
      r
  }

  /** The sweep state of a listed stock is valid, and well priced on a well-priced sheet. */
  lemma SessionForValid(m: Market, sheet: Sheet, k: string)
    requires Fits(m, sheet) && k in sheet.buys
    ensures k in m.stocks && k in sheet.sells
    ensures Valid(SessionFor(m, sheet, k))
    ensures SheetWellPriced(sheet) ==> WellPriced(SessionFor(m, sheet, k))
  {
  }

  /** A swept sheet fits its market and lists the same stocks. */
  lemma SweptKeepsStocks(m: Market, sheet: Sheet, next: (Market, Sheet))
    requires Swept(m, sheet, next)
    ensures Fits(next.0, next.1)
    ensures next.1.buys.Keys == sheet.buys.Keys
  {
  }

  /** Two stretches of `checkForTrades` make one. */
  lemma Chained(m: Market, sheet: Sheet, next: (Market, Sheet), r: Result<(Market, Sheet)>)
    requires Swept(m, sheet, next)
    requires r.Success? ==> Swept(next.0, next.1, r.value)
    ensures r.Success? ==> Swept(m, sheet, r.value)
  {
    if r.Success? {
      AdvanceTransitive(m, sheet, next.0, next.1, r.value.0, r.value.1);
      FairAcross(m.trades, next.0.trades, r.value.0.trades);
    }
  }

  /** Fair trades logged in two stretches are fair from the first stretch's start. */
  lemma FairAcross(t1: seq<Trade>, t2: seq<Trade>, t3: seq<Trade>)
    requires |t1| <= |t2| <= |t3| && t3[..|t2|] == t2
    requires FairFrom(t2, |t1|) && FairFrom(t3, |t2|)
    ensures FairFrom(t3, |t1|)
  {
    forall j | |t1| <= j < |t3|
      ensures Fair(t3[j])
    {
      if j < |t2| {
        assert t3[j] == t2[j];
      }
    }
  }

  /** `removeExpiredRequests`: each book of each stock keeps exactly its unexpired requests. */
  function RemoveExpired(sheet: Sheet, round: int): (s: Sheet)
    ensures s.order == sheet.order && s.buys.Keys == sheet.buys.Keys && s.sells.Keys == sheet.sells.Keys
    ensures forall k :: k in s.buys ==> s.buys[k] == Purge(sheet.buys[k], round)
    ensures forall k :: k in s.sells ==> s.sells[k] == Purge(sheet.sells[k], round)
  {
    Sheet(sheet.order,
          map k | k in sheet.buys :: Purge(sheet.buys[k], round),
          map k | k in sheet.sells :: Purge(sheet.sells[k], round))
  }

  /** After the purge no expired request is left and every unexpired one is; the sheet stays
      well formed, well priced and below the issuer's next id. */
  lemma RemoveExpiredKeepsWellFormed(sheet: Sheet, round: int, investors: nat, bound: nat)
    requires WellFormed(sheet, investors)
    ensures WellFormed(RemoveExpired(sheet, round), investors)
    ensures IssuedBelow(sheet, bound) ==> IssuedBelow(RemoveExpired(sheet, round), bound)
    ensures SheetWellPriced(sheet) ==> SheetWellPriced(RemoveExpired(sheet, round))
    ensures forall k, x :: k in sheet.buys ==> (x in RemoveExpired(sheet, round).buys[k] <==> x in sheet.buys[k] && !Expired(x, round))
    ensures forall k, x :: k in sheet.sells ==> (x in RemoveExpired(sheet, round).sells[k] <==> x in sheet.sells[k] && !Expired(x, round))
  {
    forall k | k in sheet.buys
      ensures ValidBook(Purge(sheet.buys[k], round), Buy, k, investors)
      ensures Positive(sheet.buys[k]) ==> Positive(Purge(sheet.buys[k], round))
      ensures NonNegativeLimits(sheet.buys[k]) ==> NonNegativeLimits(Purge(sheet.buys[k], round))
    {
      PurgeKeepsValid(sheet.buys[k], round, Buy, k, investors);
    }
    forall k | k in sheet.sells
      ensures ValidBook(Purge(sheet.sells[k], round), Sell, k, investors)
      ensures Positive(sheet.sells[k]) ==> Positive(Purge(sheet.sells[k], round))
      ensures NonNegativeLimits(sheet.sells[k]) ==> NonNegativeLimits(Purge(sheet.sells[k], round))
    {
      PurgeKeepsValid(sheet.sells[k], round, Sell, k, investors);
    }
  }

  /** `realiseSubmittedTrades`: match every stock (in the sheet's order), then purge expired
      requests. Cash and shares are conserved, the investors are the same, every logged trade
      is fair, no request left on the sheet is expired at `round`, and the stocks keep their
      last-trade rounds. No request is added, so ids stay below any bound they were below.
      On a well-priced sheet it never throws and keeps accounts non-negative. */
  function RealiseSubmittedTrades(m: Market, sheet: Sheet, round: int): (r: Result<(Market, Sheet)>)
    requires Fits(m, sheet)
    ensures r.Success? ==> Fits(r.value.0, r.value.1)
    ensures r.Success? ==>
      && SameHolders(m.accounts, r.value.0.accounts)
      && Conserved(m.accounts, r.value.0.accounts)
      && r.value.0.stocks.Keys == m.stocks.Keys
      && (forall k :: k in m.stocks ==> r.value.0.stocks[k].lastTradeRound == m.stocks[k].lastTradeRound)
      && |m.trades| <= |r.value.0.trades| && r.value.0.trades[..|m.trades|] == m.trades
      && FairFrom(r.value.0.trades, |m.trades|)
      && r.value.1.buys.Keys == sheet.buys.Keys
    ensures r.Success? ==>
      && (forall k, x :: k in r.value.1.buys && x in r.value.1.buys[k] ==> !Expired(x, round))
      && (forall k, x :: k in r.value.1.sells && x in r.value.1.sells[k] ==> !Expired(x, round))
    ensures SheetWellPriced(sheet) ==> r.Success? && SheetWellPriced(r.value.1)
    ensures r.Success? && SheetWellPriced(sheet) && AllNonNegative(m.accounts) ==> AllNonNegative(r.value.0.accounts)
    ensures r.Success? ==> forall bound: nat :: IssuedBelow(sheet, bound) ==> IssuedBelow(r.value.1, bound)
  {
    var matched :- CheckForTrades(m, sheet, sheet.order, 0);
    RemoveExpiredKeepsWellFormed(matched.1, round, |matched.0.accounts|, 0);
    SweptAndPurgedBelow(m, sheet, matched, round);
    Success((matched.0, RemoveExpired(matched.1, round)))
  }

  /** A descendant of a book holds only requests of that book, so its ids stay below any
      bound the book's ids were below. */
  lemma DescendsKeepsBelow(a: seq<Request>, b: seq<Request>, bound: nat)
    requires Descends(a, b) && IdsBelow(a, bound)
    ensures IdsBelow(b, bound)
  {
    forall y | y in b
      ensures y.id < bound
    {
      assert a[Locate(a, y.id)] in a;
    }
  }

  /** A sweep only shrinks books, so it keeps the sheet's ids below any bound. */
  lemma SweptKeepsBelow(m: Market, sheet: Sheet, next: (Market, Sheet), bound: nat)
    requires Swept(m, sheet, next) && IssuedBelow(sheet, bound)
    ensures IssuedBelow(next.1, bound)
  {
    forall k | k in next.1.buys
      ensures IdsBelow(next.1.buys[k], bound)
    {
      DescendsKeepsBelow(sheet.buys[k], next.1.buys[k], bound);
    }
    forall k | k in next.1.sells
      ensures IdsBelow(next.1.sells[k], bound)
    {
      DescendsKeepsBelow(sheet.sells[k], next.1.sells[k], bound);
    }
  }

  /** Sweeping and then purging adds no request: every id left was on the sheet before. */
  lemma SweptAndPurgedBelow(m: Market, sheet: Sheet, next: (Market, Sheet), round: int)
    requires Swept(m, sheet, next)
    ensures forall bound: nat :: IssuedBelow(sheet, bound) ==> IssuedBelow(RemoveExpired(next.1, round), bound)
  {
    forall bound: nat | IssuedBelow(sheet, bound)
      ensures IssuedBelow(RemoveExpired(next.1, round), bound)
    {
      SweptKeepsBelow(m, sheet, next, bound);
      RemoveExpiredKeepsWellFormed(next.1, round, |next.0.accounts|, bound);
    }
  }
}
