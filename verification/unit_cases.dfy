/** The sheet's unit tests, replayed on the model: each test's books and investors as a
    concrete session, and what the test asserts after the sweep, derived from the general
    scenarios. As in the tests' configuration file, every investor starts with 100000 in cash
    and 5 APL shares. */
module UnitCases {
  import opened Results
  import opened Requests
  import opened Ledger
  import opened Stocks
  import opened OrderBook
  import opened Matching
  import opened Scenarios

  /** Two investors with 100000 in cash and 5 APL shares each. */
  function TwoInvestors(): seq<Account> {
    [Account(0, RandomChoice, 100000, map["APL" := 5]), Account(1, RandomChoice, 100000, map["APL" := 5])]
  }

  /** The partial-trade test: investor 1 sells 2 at 140 (request 0), investor 0 buys 10 at 150
      (request 1), investor 1 sells 1 at 135 (request 2). */
  function PartialTradeSession(): Session {
    Session(TwoInvestors(), Stock("APL", 100, 0),
            [Request(1, 0, "APL", Buy, 150, 10, Indefinite)],
            [Request(2, 1, "APL", Sell, 135, 1, Indefinite), Request(0, 1, "APL", Sell, 140, 2, Indefinite)],
            [])
  }

  /** The buy keeps 7, the sell book empties, the stock last trades at the older sell's 140,
      the buyer pays 1 x 150 + 2 x 140 = 430 for 3 shares and the seller receives it for them. */
  lemma PartialTrade(sess: Session)
    requires sess == PartialTradeSession()
    ensures Valid(sess) && WellPriced(sess)
    ensures CheckForTradesForStock(sess).Success?
    ensures var after := CheckForTradesForStock(sess).value;
      && after.buys == [Request(1, 0, "APL", Buy, 150, 7, Indefinite)]
      && after.sells == []
      && after.stock.lastPrice == 140
      && |after.accounts| == 2
      && after.accounts[0].balance == 100000 - 430
      && after.accounts[1].balance == 100000 + 430
      && Holding(after.accounts[0], "APL") == 5 + 3
      && Holding(after.accounts[1], "APL") == 5 - 3
  {
    PartialTradeSetup();
    BuySweepsTwoSells(sess);
    var after := CheckForTradesForStock(sess).value;
    PartialTradeBooks(sess, after);
    PartialTradePaid(sess, after);
  }

  /** The books and the last price after the partial-trade sweep. */
  lemma PartialTradeBooks(sess: Session, after: Session)
    requires sess == PartialTradeSession() && TwoSellsBooks(sess, after)
    ensures after.buys == [Request(1, 0, "APL", Buy, 150, 7, Indefinite)]
    ensures after.sells == [] && after.stock.lastPrice == 140
  {
    assert ChooseOlderPrice(sess.buys[0], sess.sells[1]) == 140;
  }

  /** The buyer's payment after the partial-trade sweep, and the seller's receipt from the
      sweep's conservation of cash and shares. */
  lemma PartialTradePaid(sess: Session, after: Session)
    requires sess == PartialTradeSession()
    requires CheckForTradesForStock(sess).Success? && after == CheckForTradesForStock(sess).value
    requires TwoSellsPaid(sess, after)
    ensures |after.accounts| == 2
    ensures after.accounts[0].balance == 100000 - 430
    ensures after.accounts[1].balance == 100000 + 430
    ensures Holding(after.accounts[0], "APL") == 5 + 3
    ensures Holding(after.accounts[1], "APL") == 5 - 3
  {
    assert sess.accounts[0].balance == 100000;
    assert ChooseOlderPrice(sess.buys[0], sess.sells[0]) == 150;
    assert ChooseOlderPrice(sess.buys[0], sess.sells[1]) == 140;
    assert sess.sells[0].quantity * 150 + sess.sells[1].quantity * 140 == 430;
    TwoAccountTotals(sess.accounts, "APL");
    TwoAccountTotals(after.accounts, "APL");
  }

  /** The totals of two investors are their sums; with the sweep's conservation this gives the
      seller's side of a trade between them from the buyer's. */
  lemma TwoAccountTotals(accounts: seq<Account>, stock: string)
    requires |accounts| == 2
    ensures TotalCash(accounts) == accounts[0].balance + accounts[1].balance
    ensures TotalShares(accounts, stock) == Holding(accounts[0], stock) + Holding(accounts[1], stock)
  {
    assert accounts[..1][..0] == [];
    assert TotalCash(accounts[..1]) == accounts[0].balance;
    assert TotalShares(accounts[..1], stock) == Holding(accounts[0], stock);
  }

  lemma PartialTradeSetup()
    ensures TwoSellsSetup(PartialTradeSession())
  {
    PartialTradeValid();
  }

  lemma PartialTradeValid()
    ensures Valid(PartialTradeSession()) && WellPriced(PartialTradeSession())
  {
    var sess := PartialTradeSession();
    ValidPairBook(sess.sells[0], sess.sells[1], Sell, "APL", 2);
  }

  /** The simple-trade test: investor 0 buys 5 at up to 150 (request 0), investor 1 sells 5 at
      no less than 140 (request 1). */
  function SimpleTradeSession(): Session {
    Session(TwoInvestors(), Stock("APL", 100, 0),
            [Request(0, 0, "APL", Buy, 150, 5, Indefinite)],
            [Request(1, 1, "APL", Sell, 140, 5, Indefinite)],
            [])
  }

  /** Both books empty, the stock last trades at the older buy's 150, and the buyer pays the
      seller 5 x 150 = 750 for 5 shares. */
  lemma SimpleTrade(sess: Session)
    requires sess == SimpleTradeSession()
    ensures Valid(sess) && WellPriced(sess)
    ensures CheckForTradesForStock(sess).Success?
    ensures var after := CheckForTradesForStock(sess).value;
      && after.buys == [] && after.sells == []
      && after.stock.lastPrice == 150
      && after.trades == [Trade(0, 1, 0, 1, 5, 150, 150, 140)]
      && |after.accounts| == 2
      && after.accounts[0].balance == 100000 - 750
      && after.accounts[1].balance == 100000 + 750
      && Holding(after.accounts[0], "APL") == 5 + 5
      && Holding(after.accounts[1], "APL") == 5 - 5
  {
    SimpleTradeSetup();
    SinglePair(sess);
    SinglePairSweep(sess);
    var after := CheckForTradesForStock(sess).value;
    SimpleTradeBooks(sess, after);
    SimpleTradePaid(sess, after);
  }

  /** The books, the last price and the log after the simple-trade sweep. */
  lemma SimpleTradeBooks(sess: Session, after: Session)
    requires sess == SimpleTradeSession() && PairTraded(sess, after)
    ensures after.buys == [] && after.sells == [] && after.stock.lastPrice == 150
    ensures after.trades == [Trade(0, 1, 0, 1, 5, 150, 150, 140)]
  {
  }

  /** The buyer pays the seller 750 for the 5 shares. */
  lemma SimpleTradePaid(sess: Session, after: Session)
    requires sess == SimpleTradeSession() && Valid(sess) && CanSettle(sess, 0, 0)
    requires RealiseTrade(sess, 0, 0).Success? && after == RealiseTrade(sess, 0, 0).value.session
    ensures |after.accounts| == 2
    ensures after.accounts[0].balance == 100000 - 750
    ensures after.accounts[1].balance == 100000 + 750
    ensures Holding(after.accounts[0], "APL") == 5 + 5
    ensures Holding(after.accounts[1], "APL") == 5 - 5
  {
    RealiseTradeMovesCashAndShares(sess, 0, 0);
  }

  lemma SimpleTradeSetup()
    ensures Valid(SimpleTradeSession()) && WellPriced(SimpleTradeSession())
    ensures CanSettle(SimpleTradeSession(), 0, 0)
  {
  }

  /** The all-or-nothing fill test, with the buy and the sells placed by different investors:
      an all-or-nothing buy of 5 at 100 (request 0) against sells of 2 and 3 at 100
      (requests 1 and 2) fills completely and empties both books. */
  function AllOrNothingFillSession(): Session {
    Session(TwoInvestors(), Stock("APL", 100, 0),
            [Request(0, 0, "APL", Buy, 100, 5, AllOrNothing)],
            [Request(1, 1, "APL", Sell, 100, 2, Indefinite), Request(2, 1, "APL", Sell, 100, 3, Indefinite)],
            [])
  }

  lemma AllOrNothingFills(sess: Session)
    requires sess == AllOrNothingFillSession()
    ensures Valid(sess) && WellPriced(sess)
    ensures CheckForTradesForStock(sess).Success?
    ensures var after := CheckForTradesForStock(sess).value;
      after.buys == [] && after.sells == [] && after.stock.lastPrice == 100
  {
    AllOrNothingFillSetup();
    BuySweepsTwoSells(sess);
  }

  lemma AllOrNothingFillSetup()
    ensures TwoSellsSetup(AllOrNothingFillSession())
  {
    AllOrNothingFillValid();
  }

  lemma AllOrNothingFillValid()
    ensures Valid(AllOrNothingFillSession()) && WellPriced(AllOrNothingFillSession())
  {
    var sess := AllOrNothingFillSession();
    ValidPairBook(sess.sells[0], sess.sells[1], Sell, "APL", 2);
  }

  /** With the shipped stub, the same all-or-nothing buy refuses its first candidate although
      the two sells cover it exactly. If the sheet's `considerTrade(List)` delegates to the
      stub, the fill above cannot happen as written. */
  lemma AllOrNothingStubRefuses(sess: Session)
    requires sess == AllOrNothingFillSession()
    ensures ConsiderTrade(sess.buys[0], sess.sells)
    ensures !ConsiderTradeAsWritten(sess.buys[0], sess.sells)
  {
    var b := sess.buys[0];
    assert Liquidity(b, sess.sells[1..]) == 3 by {
      assert sess.sells[1..] == [sess.sells[1]];
      assert Liquidity(b, [sess.sells[1]]) == Contribution(b, sess.sells[1]) + Liquidity(b, []);
    }
  }

  /** The first all-or-nothing refusal test: a buy of 5 at 100 against a single sell of 2. */
  function TooFewSession(): Session {
    Session([Account(0, RandomChoice, 100000, map["APL" := 5])], Stock("APL", 100, 0),
            [Request(0, 0, "APL", Buy, 100, 5, AllOrNothing)],
            [Request(1, 0, "APL", Sell, 100, 2, Indefinite)],
            [])
  }

  /** Nothing trades, the purge deletes the buy and the sell book keeps its one request. */
  lemma AllOrNothingTooFew(sess: Session, round: int)
    requires sess == TooFewSession()
    ensures Valid(sess) && WellPriced(sess)
    ensures CheckForTradesForStock(sess) == Success(sess)
    ensures Purge(sess.buys, round) == []
    ensures |Purge(sess.sells, round)| == 1
  {
    TooFewSetup();
    UncoveredAllOrNothingBuy(sess, round);
    assert sess.sells[0] in Purge(sess.sells, round);
  }

  lemma TooFewSetup()
    ensures Valid(TooFewSession()) && WellPriced(TooFewSession())
    ensures Liquidity(TooFewSession().buys[0], TooFewSession().sells) == 2
  {
  }

  /** The second all-or-nothing refusal test: a buy of 5 at 100 against sells of 2 at 100 and
      2 at 150; the dearer sell does not count toward the 5. */
  function TooExpensiveSession(): Session {
    Session([Account(0, RandomChoice, 100000, map["APL" := 5])], Stock("APL", 100, 0),
            [Request(0, 0, "APL", Buy, 100, 5, AllOrNothing)],
            [Request(1, 0, "APL", Sell, 100, 2, Indefinite), Request(2, 0, "APL", Sell, 150, 2, Indefinite)],
            [])
  }

  /** Nothing trades, the purge deletes the buy and the sell book keeps both requests. */
  lemma AllOrNothingTooExpensive(sess: Session, round: int)
    requires sess == TooExpensiveSession()
    ensures Valid(sess) && WellPriced(sess)
    ensures CheckForTradesForStock(sess) == Success(sess)
    ensures Purge(sess.buys, round) == []
    ensures Purge(sess.sells, round) == sess.sells
  {
    TooExpensiveSetup();
    UncoveredAllOrNothingBuy(sess, round);
    TooExpensiveSellsStay(sess.sells, round);
  }

  /** Both sells of the second refusal test are indefinite, so the purge keeps them. */
  lemma TooExpensiveSellsStay(sells: seq<Request>, round: int)
    requires sells == TooExpensiveSession().sells
    ensures Purge(sells, round) == sells
  {
    assert !Expired(sells[0], round) && !Expired(sells[1], round);
    assert forall x :: x in sells ==> x == sells[0] || x == sells[1];
    PurgeOfUnexpired(sells, round);
  }

  lemma TooExpensiveSetup()
    ensures Valid(TooExpensiveSession()) && WellPriced(TooExpensiveSession())
    ensures Liquidity(TooExpensiveSession().buys[0], TooExpensiveSession().sells) == 2
  {
    var sess := TooExpensiveSession();
    ValidPairBook(sess.sells[0], sess.sells[1], Sell, "APL", 1);
    LiquidityOfTwo(sess.buys[0], sess.sells[0], sess.sells[1]);
  }
}
