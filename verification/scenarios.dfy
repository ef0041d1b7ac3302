/** The sheet's unit-test scenarios, replayed on the model of one stock's sweep. */
module Scenarios {
  import opened Results
  import opened Requests
  import opened Ledger
  import opened Stocks
  import opened OrderBook
  import opened Matching
  import SortedList

  /** A book of one buy facing a book of one sell, neither all-or-nothing, that the two
      investors can settle: the sweep realises exactly that one trade at the older request's
      limit, fills whichever side is smaller (both when equal) and leaves the other reduced. */
  lemma SinglePair(sess: Session)
    requires Valid(sess) && WellPriced(sess)
    requires |sess.buys| == 1 && |sess.sells| == 1
    requires Compatible(sess.buys[0], sess.sells[0])
    requires !sess.buys[0].expiry.AllOrNothing? && !sess.sells[0].expiry.AllOrNothing?
    requires CanSettle(sess, 0, 0)
    ensures CheckForTradesForStock(sess).Success?
    ensures PairTraded(sess, CheckForTradesForStock(sess).value)
  {
    SinglePairSweep(sess);
    SinglePairOutcome(sess);
  }

  /** `after` is `sess` after the one trade between its only buy and its only sell. */
  ghost predicate PairTraded(sess: Session, after: Session)
    requires |sess.buys| == 1 && |sess.sells| == 1
  {
    PairLogged(sess, after) && PairFilled(sess, after)
  }

  /** The trade is logged at the older request's limit, which becomes the stock's last price. */
  ghost predicate PairLogged(sess: Session, after: Session)
    requires |sess.buys| == 1 && |sess.sells| == 1
  {
    var b := sess.buys[0];
    var s := sess.sells[0];
    && after.trades == sess.trades + [Trade(b.id, s.id, b.investor, s.investor, Min(b.quantity, s.quantity),
                                            ChooseOlderPrice(b, s), b.priceLimit, s.priceLimit)]
    && after.stock.lastPrice == ChooseOlderPrice(b, s)
  }

  /** The smaller side is filled and leaves its book, the larger keeps the difference. */
  ghost predicate PairFilled(sess: Session, after: Session)
    requires |sess.buys| == 1 && |sess.sells| == 1
  {
    var b := sess.buys[0];
    var s := sess.sells[0];
    && (b.quantity <= s.quantity ==> after.buys == [])
    && (s.quantity <= b.quantity ==> after.sells == [])
    && (b.quantity > s.quantity ==> after.buys == [b.(quantity := b.quantity - s.quantity)])
    && (s.quantity > b.quantity ==> after.sells == [s.(quantity := s.quantity - b.quantity)])
  }

  lemma SinglePairOutcome(sess: Session)
    requires Valid(sess) && WellPriced(sess)
    requires |sess.buys| == 1 && |sess.sells| == 1
    requires CanSettle(sess, 0, 0)
    ensures RealiseTrade(sess, 0, 0).Success?
    ensures PairTraded(sess, RealiseTrade(sess, 0, 0).value.session)
  {
    RealiseTradeLogsTrade(sess, 0, 0);
    PairFills(sess);
  }

  lemma PairFills(sess: Session)
    requires Valid(sess) && WellPriced(sess)
    requires |sess.buys| == 1 && |sess.sells| == 1
    requires CanSettle(sess, 0, 0)
    ensures RealiseTrade(sess, 0, 0).Success?
    ensures PairFilled(sess, RealiseTrade(sess, 0, 0).value.session)
  {
    RealiseTradeBooks(sess, 0, 0);
    var q := TradeQuantity(sess, 0, 0);
    SingleReduced(sess.buys, q);
    SingleReduced(sess.sells, q);
  }

  /** A one-entry book after `reduceQuantityOrRemove`: empty when filled, else the entry reduced. */
  lemma SingleReduced(s: seq<Request>, amount: int)
    requires |s| == 1 && amount <= s[0].quantity
    ensures DistinctIds(s) && ReduceOrRemove(s, 0, amount).Success?
    ensures amount == s[0].quantity ==> ReduceOrRemove(s, 0, amount).value == []
    ensures amount < s[0].quantity ==> ReduceOrRemove(s, 0, amount).value == [s[0].(quantity := s[0].quantity - amount)]
  {
  }

  /** With one buy facing one compatible sell, the whole sweep is that pair's trade. */
  lemma SinglePairSweep(sess: Session)
    requires Valid(sess) && WellPriced(sess)
    requires |sess.buys| == 1 && |sess.sells| == 1
    requires Compatible(sess.buys[0], sess.sells[0])
    requires !sess.buys[0].expiry.AllOrNothing? && !sess.sells[0].expiry.AllOrNothing?
    ensures RealiseTrade(sess, 0, 0).Success?
    ensures CheckForTradesForStock(sess) == Success(RealiseTrade(sess, 0, 0).value.session)
  {
    OneBuySweep(sess);
    OneEntry(sess.sells);
    SweepOfOneSell(sess, sess.buys[0], sess.sells[0]);
    SinglePairMatch(sess);
  }

  /** With one buy, the outer loop is one inner sweep of that buy over the sells. */
  lemma OneBuySweep(sess: Session)
    requires Valid(sess) && |sess.buys| == 1
    ensures CheckForTradesForStock(sess) == SweepSells(sess, sess.buys[0], sess.sells)
  {
    CopiesAreBooks(sess);
    OneEntry(sess.buys);
    SweepOfOneBuy(sess, sess.buys[0]);
  }

  lemma SinglePairMatch(sess: Session)
    requires Valid(sess) && WellPriced(sess)
    requires |sess.buys| == 1 && |sess.sells| == 1
    requires !sess.buys[0].expiry.AllOrNothing? && !sess.sells[0].expiry.AllOrNothing?
    ensures RealiseTrade(sess, 0, 0).Success?
    ensures MatchPair(sess, sess.buys[0], sess.sells[0]) == Success(RealiseTrade(sess, 0, 0).value.session)
  {
    PairMatch(sess, sess.buys[0], sess.sells[0]);
  }

  /** One pass for the only buy and the only sell, found by id, both of which consider the trade. */
  lemma PairMatch(sess: Session, buy: Request, sell: Request)
    requires Valid(sess) && WellPriced(sess)
    requires |sess.buys| == 1 && |sess.sells| == 1
    requires buy.id == sess.buys[0].id && sell.id == sess.sells[0].id
    requires ConsiderTrade(sess.buys[0], sess.sells) && ConsiderTrade(sess.sells[0], sess.buys)
    ensures RealiseTrade(sess, 0, 0).Success?
    ensures MatchPair(sess, buy, sell) == Success(RealiseTrade(sess, 0, 0).value.session)
  {
    assert Locate(sess.buys, buy.id) == 0 && Locate(sess.sells, sell.id) == 0;
    assert sess.buys[0..] == sess.buys && sess.sells[0..] == sess.sells;
  }

  /** An all-or-nothing buy, alone in its book, whose usable opposite liquidity falls short of
      its quantity: every pass of the inner loop refuses, so the sweep changes nothing. */
  lemma {:induction false} UncoveredSweep(sess: Session, buy: Request, sells: seq<Request>)
    requires Valid(sess) && WellPriced(sess)
    requires sess.buys == [buy] && buy.expiry.AllOrNothing?
    requires Liquidity(buy, sess.sells) < buy.quantity
    ensures SweepSells(sess, buy, sells) == Success(sess)
    decreases |sells|
  {
    if |sells| > 0 && buy.priceLimit >= sells[0].priceLimit {
      UncoveredPass(sess, buy, sells[0]);
      UncoveredSweep(sess, buy, sells[1..]);
    }
  }

  lemma UncoveredPass(sess: Session, buy: Request, sell: Request)
    requires Valid(sess) && WellPriced(sess)
    requires sess.buys == [buy] && buy.expiry.AllOrNothing?
    requires Liquidity(buy, sess.sells) < buy.quantity
    ensures MatchPair(sess, buy, sell) == Success(sess)
  {
    var si := Locate(sess.sells, sell.id);
    if 0 <= si {
      assert Locate(sess.buys, buy.id) == 0;
      LiquidityOfSuffix(buy, sess.sells, si);
      assert !ConsiderTrade(sess.buys[0], sess.sells[si..]);
    }
  }

  /** The all-or-nothing tests that cannot fill: a lone all-or-nothing buy that the usable
      sells cannot cover does not trade, every sell is left untouched, and the end-of-round
      purge then deletes the buy while keeping every sell that has not expired. */
  lemma UncoveredAllOrNothingBuy(sess: Session, round: int)
    requires Valid(sess) && WellPriced(sess)
    requires |sess.buys| == 1 && sess.buys[0].expiry.AllOrNothing?
    requires Liquidity(sess.buys[0], sess.sells) < sess.buys[0].quantity
    ensures CheckForTradesForStock(sess) == Success(sess)
    ensures Purge(sess.buys, round) == []
    ensures forall x :: x in Purge(sess.sells, round) <==> x in sess.sells && !Expired(x, round)
  {
    var buy := sess.buys[0];
    OneEntry(sess.buys);
    SortedList.CopyOfSortedIsIdentity(sess.buys, BuyKey);
    UncoveredSweep(sess, buy, SortedList.Copy(sess.sells, SellKey));
    SweepOfOneBuy(sess, buy);
  }

  /** A lone buy facing two sells it can afford, neither all-or-nothing, whose quantities the
      buy covers (exactly, when it is all-or-nothing itself); the buyer is neither seller, can
      pay for both and the sellers hold what they offer. */
  ghost predicate TwoSellsSetup(sess: Session)
  {
    && Valid(sess) && WellPriced(sess)
    && |sess.buys| == 1 && |sess.sells| == 2
    && var b := sess.buys[0];
       var s1 := sess.sells[0];
       var s2 := sess.sells[1];
       && Compatible(b, s2)
       && !s1.expiry.AllOrNothing? && !s2.expiry.AllOrNothing?
       && b.quantity >= s1.quantity + s2.quantity
       && (b.expiry.AllOrNothing? ==> b.quantity == s1.quantity + s2.quantity)
       && b.investor != s1.investor && b.investor != s2.investor
       && b.investor < |sess.accounts|
       && sess.accounts[b.investor].balance
          >= s1.quantity * ChooseOlderPrice(b, s1) + s2.quantity * ChooseOlderPrice(b, s2)
       && s1.investor < |sess.accounts| && s2.investor < |sess.accounts|
       && Holding(sess.accounts[s1.investor], sess.stock.identifier)
          >= s1.quantity + (if s1.investor == s2.investor then s2.quantity else 0)
       && Holding(sess.accounts[s2.investor], sess.stock.identifier) >= s2.quantity
  }

  /** The two trades of `TwoSellsSetup`, cheapest sell first, each at the older request's limit:
      the sells are gone, the buy is gone or keeps what it did not fill, the buyer paid for and
      received both quantities, and the stock last traded at the second trade's price. */
  ghost predicate TwoSellsTraded(sess: Session, after: Session)
    requires |sess.buys| == 1 && |sess.sells| == 2
  {
    TwoSellsBooks(sess, after) && TwoSellsPaid(sess, after)
  }

  ghost predicate TwoSellsBooks(sess: Session, after: Session)
    requires |sess.buys| == 1 && |sess.sells| == 2
  {
    var b := sess.buys[0];
    var s1 := sess.sells[0];
    var s2 := sess.sells[1];
    var p1 := ChooseOlderPrice(b, s1);
    var p2 := ChooseOlderPrice(b, s2);
    && after.trades == sess.trades
         + [Trade(b.id, s1.id, b.investor, s1.investor, s1.quantity, p1, b.priceLimit, s1.priceLimit),
            Trade(b.id, s2.id, b.investor, s2.investor, s2.quantity, p2, b.priceLimit, s2.priceLimit)]
    && after.sells == []
    && after.buys == (if b.quantity == s1.quantity + s2.quantity then []
                      else [b.(quantity := b.quantity - s1.quantity - s2.quantity)])
    && after.stock.lastPrice == p2
  }

  ghost predicate TwoSellsPaid(sess: Session, after: Session)
    requires |sess.buys| == 1 && |sess.sells| == 2
  {
    var b := sess.buys[0];
    var s1 := sess.sells[0];
    var s2 := sess.sells[1];
    && b.investor < |sess.accounts| && b.investor < |after.accounts|
    && after.accounts[b.investor].balance
       == sess.accounts[b.investor].balance - s1.quantity * ChooseOlderPrice(b, s1) - s2.quantity * ChooseOlderPrice(b, s2)
    && Holding(after.accounts[b.investor], sess.stock.identifier)
       == Holding(sess.accounts[b.investor], sess.stock.identifier) + s1.quantity + s2.quantity
  }

  /** The partial-fill and the all-or-nothing fill tests: a buy sweeps two sells. */
  lemma BuySweepsTwoSells(sess: Session)
    requires TwoSellsSetup(sess)
    ensures CheckForTradesForStock(sess).Success?
    ensures TwoSellsTraded(sess, CheckForTradesForStock(sess).value)
  {
    TwoSellsFirst(sess);
    var t1 := RealiseTrade(sess, 0, 0).value.session;
    TwoSellsSweep(sess, t1);
    TwoSellsEnd(sess, t1, RealiseTrade(t1, 0, 0).value.session);
  }

  /** What the setup says about the three requests one by one. */
  lemma SetupFacts(sess: Session)
    requires TwoSellsSetup(sess)
    ensures var b := sess.buys[0];
            var s1 := sess.sells[0];
            var s2 := sess.sells[1];
      && b.side == Buy && s1.side == Sell && s2.side == Sell
      && s1.stock == sess.stock.identifier && s2.stock == sess.stock.identifier
      && b.quantity > 0 && s1.quantity > 0 && s2.quantity > 0
      && b.priceLimit >= 0 && s1.priceLimit >= 0 && s2.priceLimit >= 0
      && Compatible(b, s1) && s1.id != s2.id
  {
    assert sess.buys[0] in sess.buys;
    assert sess.sells[0] in sess.sells && sess.sells[1] in sess.sells;
    assert SellKey(sess.sells[0]) <= SellKey(sess.sells[1]);
  }

  /** The book after the first trade: the buy reduced, the first sell gone, the rest unchanged. */
  ghost predicate FirstTraded(sess: Session, t1: Session)
    requires |sess.buys| == 1 && |sess.sells| == 2
  {
    var b := sess.buys[0];
    var s1 := sess.sells[0];
    var s2 := sess.sells[1];
    && Valid(t1) && WellPriced(t1)
    && t1.buys == [b.(quantity := b.quantity - s1.quantity)] && t1.sells == [s2]
    && t1.trades == sess.trades
         + [Trade(b.id, s1.id, b.investor, s1.investor, s1.quantity, ChooseOlderPrice(b, s1), b.priceLimit, s1.priceLimit)]
    && t1.stock.identifier == sess.stock.identifier
    && |t1.accounts| == |sess.accounts|
    && b.investor < |sess.accounts| && s2.investor < |sess.accounts|
    && t1.accounts[b.investor].balance == sess.accounts[b.investor].balance - s1.quantity * ChooseOlderPrice(b, s1)
    && Holding(t1.accounts[b.investor], sess.stock.identifier)
       == Holding(sess.accounts[b.investor], sess.stock.identifier) + s1.quantity
    && Holding(t1.accounts[s2.investor], sess.stock.identifier) >= s2.quantity
  }

  /** The first trade: the buy against the cheaper sell, which it fills. */
  lemma TwoSellsFirst(sess: Session)
    requires TwoSellsSetup(sess)
    ensures RealiseTrade(sess, 0, 0).Success?
    ensures FirstTraded(sess, RealiseTrade(sess, 0, 0).value.session)
  {
    SetupFacts(sess);
    assert CanSettle(sess, 0, 0);
    FirstBooks(sess);
    FirstAccounts(sess);
  }

  lemma FirstBooks(sess: Session)
    requires TwoSellsSetup(sess) && CanSettle(sess, 0, 0)
    ensures RealiseTrade(sess, 0, 0).Success?
    ensures var b := sess.buys[0];
            var s1 := sess.sells[0];
            var t1 := RealiseTrade(sess, 0, 0).value.session;
      && Valid(t1) && WellPriced(t1)
      && t1.buys == [b.(quantity := b.quantity - s1.quantity)] && t1.sells == [sess.sells[1]]
      && t1.trades == sess.trades
           + [Trade(b.id, s1.id, b.investor, s1.investor, s1.quantity, ChooseOlderPrice(b, s1), b.priceLimit, s1.priceLimit)]
      && t1.stock.identifier == sess.stock.identifier
  {
    FirstBuys(sess);
    FirstSells(sess);
    RealiseTradeLogsTrade(sess, 0, 0);
  }

  lemma FirstBuys(sess: Session)
    requires TwoSellsSetup(sess) && CanSettle(sess, 0, 0)
    ensures RealiseTrade(sess, 0, 0).Success?
    ensures var b := sess.buys[0];
      RealiseTrade(sess, 0, 0).value.session.buys == [b.(quantity := b.quantity - sess.sells[0].quantity)]
  {
    SetupFacts(sess);
    assert sess.buys[0].quantity > sess.sells[0].quantity;
    ReducedBuy(sess);
  }

  /** A settled trade against a smaller sell leaves a single buy with the sell's quantity taken off. */
  lemma ReducedBuy(sess: Session)
    requires Valid(sess) && WellPriced(sess) && |sess.buys| == 1 && |sess.sells| >= 1
    requires CanSettle(sess, 0, 0) && sess.buys[0].quantity > sess.sells[0].quantity
    ensures RealiseTrade(sess, 0, 0).Success?
    ensures var b := sess.buys[0];
      RealiseTrade(sess, 0, 0).value.session.buys == [b.(quantity := b.quantity - sess.sells[0].quantity)]
  {
    var q := sess.sells[0].quantity;
    assert TradeQuantity(sess, 0, 0) == q;
    SingleReduced(sess.buys, q);
    RealiseTradeBooks(sess, 0, 0);
  }

  lemma FirstSells(sess: Session)
    requires TwoSellsSetup(sess) && CanSettle(sess, 0, 0)
    ensures RealiseTrade(sess, 0, 0).Success?
    ensures RealiseTrade(sess, 0, 0).value.session.sells == [sess.sells[1]]
  {
    SetupFacts(sess);
    RealiseTradeBooks(sess, 0, 0);
    var t1 := RealiseTrade(sess, 0, 0).value.session;
    var q := sess.sells[0].quantity;
    assert TradeQuantity(sess, 0, 0) == q;
    assert sess.sells[1] in t1.sells;
  }

  lemma FirstAccounts(sess: Session)
    requires TwoSellsSetup(sess) && CanSettle(sess, 0, 0)
    ensures RealiseTrade(sess, 0, 0).Success?
    ensures var b := sess.buys[0];
            var s1 := sess.sells[0];
            var s2 := sess.sells[1];
            var t1 := RealiseTrade(sess, 0, 0).value.session;
      && |t1.accounts| == |sess.accounts|
      && t1.accounts[b.investor].balance == sess.accounts[b.investor].balance - s1.quantity * ChooseOlderPrice(b, s1)
      && Holding(t1.accounts[b.investor], sess.stock.identifier)
         == Holding(sess.accounts[b.investor], sess.stock.identifier) + s1.quantity
      && Holding(t1.accounts[s2.investor], sess.stock.identifier) >= s2.quantity
  {
    SetupFacts(sess);
    SettledOutcome(sess, 0, 0);
    RealiseTradeMovesCashAndShares(sess, 0, 0);
    assert TradeQuantity(sess, 0, 0) == sess.sells[0].quantity;
  }

  /** The first pass of the inner loop realises the first trade. */
  lemma TwoSellsFirstPass(sess: Session)
    requires TwoSellsSetup(sess)
    ensures RealiseTrade(sess, 0, 0).Success?
    ensures MatchPair(sess, sess.buys[0], sess.sells[0]) == Success(RealiseTrade(sess, 0, 0).value.session)
  {
    var b := sess.buys[0];
    var s1 := sess.sells[0];
    var s2 := sess.sells[1];
    assert Locate(sess.buys, b.id) == 0 && Locate(sess.sells, s1.id) == 0;
    assert sess.buys[0..] == sess.buys && sess.sells[0..] == sess.sells;
    FirstConsidered(sess);
  }

  /** The buy considers the first trade: when it is all-or-nothing, the two sells cover it. */
  lemma FirstConsidered(sess: Session)
    requires TwoSellsSetup(sess)
    ensures ConsiderTrade(sess.buys[0], sess.sells)
  {
    var b := sess.buys[0];
    var s1 := sess.sells[0];
    var s2 := sess.sells[1];
    SetupFacts(sess);
    LiquidityOfTwo(b, s1, s2);
    TwoEntries(sess.sells);
  }

  lemma LiquidityOfTwo(r: Request, o1: Request, o2: Request)
    ensures Liquidity(r, [o1, o2]) == Contribution(r, o1) + Contribution(r, o2)
  {
    assert [o1, o2][1..] == [o2] && [o2][1..] == [];
    assert Liquidity(r, [o2]) == Contribution(r, o2) + Liquidity(r, []);
  }

  /** After the first trade, the reduced buy and the second sell consider, and can settle, the second. */
  lemma TwoSellsSecond(sess: Session, t1: Session)
    requires TwoSellsSetup(sess) && FirstTraded(sess, t1)
    ensures |t1.buys| == 1 && |t1.sells| == 1
    ensures CanSettle(t1, 0, 0) && ConsiderTrade(t1.buys[0], t1.sells) && ConsiderTrade(t1.sells[0], t1.buys)
    ensures t1.buys[0].investor != t1.sells[0].investor
  {
    SetupFacts(sess);
    assert [sess.sells[1]][1..] == [];
  }

  /** The whole sweep is the first trade followed by the second. */
  lemma TwoSellsSweep(sess: Session, t1: Session)
    requires TwoSellsSetup(sess)
    requires RealiseTrade(sess, 0, 0).Success? && t1 == RealiseTrade(sess, 0, 0).value.session
    requires FirstTraded(sess, t1)
    ensures Valid(t1) && RealiseTrade(t1, 0, 0).Success?
    ensures CheckForTradesForStock(sess) == Success(RealiseTrade(t1, 0, 0).value.session)
  {
    var b := sess.buys[0];
    TwoSellsInner(sess, t1);
    CopiesAreBooks(sess);
    OneEntry(sess.buys);
    SweepOfOneBuy(sess, b);
  }

  /** The inner loop for the buy over both sells. */
  lemma TwoSellsInner(sess: Session, t1: Session)
    requires TwoSellsSetup(sess)
    requires RealiseTrade(sess, 0, 0).Success? && t1 == RealiseTrade(sess, 0, 0).value.session
    requires FirstTraded(sess, t1)
    ensures Valid(t1) && RealiseTrade(t1, 0, 0).Success?
    ensures SweepSells(sess, sess.buys[0], sess.sells) == Success(RealiseTrade(t1, 0, 0).value.session)
  {
    var b := sess.buys[0];
    var s2 := sess.sells[1];
    TwoSellsFirstPass(sess);
    SecondPass(sess, t1);
    TwoEntries(sess.sells);
    SweepSellsStep(sess, b, sess.sells);
  }

  /** The second pass, over the rest of the copy, realises the second trade. */
  lemma SecondPass(sess: Session, t1: Session)
    requires TwoSellsSetup(sess) && FirstTraded(sess, t1)
    ensures Valid(t1) && |t1.buys| == 1 && |t1.sells| == 1 && RealiseTrade(t1, 0, 0).Success?
    ensures SweepSells(t1, sess.buys[0], [sess.sells[1]]) == Success(RealiseTrade(t1, 0, 0).value.session)
  {
    var b := sess.buys[0];
    var s2 := sess.sells[1];
    TwoSellsSecond(sess, t1);
    PairMatch(t1, b, s2);
    SweepOfOneSell(t1, b, s2);
  }

  lemma CopiesAreBooks(sess: Session)
    requires Valid(sess)
    ensures SortedList.Copy(sess.sells, SellKey) == sess.sells
    ensures SortedList.Copy(sess.buys, BuyKey) == sess.buys
  {
    SortedList.CopyOfSortedIsIdentity(sess.sells, SellKey);
    SortedList.CopyOfSortedIsIdentity(sess.buys, BuyKey);
  }

  /** Both trades together give `TwoSellsTraded`. */
  lemma TwoSellsEnd(sess: Session, t1: Session, t2: Session)
    requires TwoSellsSetup(sess) && FirstTraded(sess, t1)
    requires Valid(t1) && |t1.buys| == 1 && |t1.sells| == 1
    requires RealiseTrade(t1, 0, 0).Success? && t2 == RealiseTrade(t1, 0, 0).value.session
    ensures TwoSellsTraded(sess, t2)
  {
    TwoSellsSecond(sess, t1);
    EndBooks(sess, t1, t2);
    EndPaid(sess, t1, t2);
  }

  lemma EndBooks(sess: Session, t1: Session, t2: Session)
    requires TwoSellsSetup(sess) && FirstTraded(sess, t1)
    requires Valid(t1) && WellPriced(t1) && |t1.buys| == 1 && |t1.sells| == 1 && CanSettle(t1, 0, 0)
    requires RealiseTrade(t1, 0, 0).Success? && t2 == RealiseTrade(t1, 0, 0).value.session
    ensures TwoSellsBooks(sess, t2)
  {
    SinglePairOutcome(t1);
  }

  lemma EndPaid(sess: Session, t1: Session, t2: Session)
    requires TwoSellsSetup(sess) && FirstTraded(sess, t1)
    requires Valid(t1) && |t1.buys| == 1 && |t1.sells| == 1 && CanSettle(t1, 0, 0)
    requires t1.buys[0].investor != t1.sells[0].investor
    requires RealiseTrade(t1, 0, 0).Success? && t2 == RealiseTrade(t1, 0, 0).value.session
    ensures TwoSellsPaid(sess, t2)
  {
    RealiseTradeMovesCashAndShares(t1, 0, 0);
  }

  lemma OneEntry(s: seq<Request>)
    requires |s| == 1
    ensures s == [s[0]]
  {
  }

  lemma TwoEntries(s: seq<Request>)
    requires |s| == 2
    ensures s == [s[0], s[1]] && s[1..] == [s[1]]
  {
  }
}
