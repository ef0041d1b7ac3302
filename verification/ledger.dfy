/** The account half of `investors.AInvestor`: balance, portfolio, and the checked
    buy/sell operations the matching engine calls; plus the market-wide totals that
    trading must conserve. Portfolios are keyed by stock identifier. */
module Ledger {
  import opened Results

  /** Which concrete investor class an account belongs to. */
  datatype Strategy = RandomChoice | Sma

  datatype Account = Account(id: nat, strategy: Strategy, balance: int, portfolio: map<string, int>)

  /** `getStockQuantity`: the holding, 0 for a stock not in the portfolio. */
  function Holding(a: Account, stock: string): (q: int)
    ensures stock !in a.portfolio ==> q == 0
    ensures stock in a.portfolio ==> q == a.portfolio[stock]
  {
    if stock in a.portfolio then a.portfolio[stock] else 0
  }

  /** No negative balance and no negative holding. */
  ghost predicate NonNegative(a: Account) {
    a.balance >= 0 && forall s :: s in a.portfolio ==> a.portfolio[s] >= 0
  }

  /** `deposit`: refuses a negative amount. */
  function Deposit(a: Account, amount: int): (r: Result<Account>)
    ensures r.Success? <==> amount >= 0
    ensures r.Failure? ==> r.error == IllegalArgument
    ensures r.Success? ==> r.value.balance == a.balance + amount && r.value.(balance := a.balance) == a
  {
    if amount < 0 then Failure(IllegalArgument) else Success(a.(balance := a.balance + amount))
  }

  /** `withdraw`: refuses a negative amount and more than the balance. */
  function Withdraw(a: Account, amount: int): (r: Result<Account>)
    ensures r.Success? <==> 0 <= amount <= a.balance
    ensures amount < 0 ==> r == Failure(IllegalArgument)
    ensures 0 <= amount && a.balance < amount ==> r == Failure(InsufficientBalance)
    ensures r.Success? ==> r.value.balance == a.balance - amount >= 0 && r.value.(balance := a.balance) == a
  {
    if amount < 0 then Failure(IllegalArgument)
    else if amount > a.balance then Failure(InsufficientBalance)
    else Success(a.(balance := a.balance - amount))
  }

  /** `canBuyStock`: the total cost fits the balance (the stock is not consulted). */
  predicate CanBuy(a: Account, quantity: int, price: int) {
    quantity * price <= a.balance
  }

  /** `buyStock`: pay quantity × price, receive the shares. */
  function Buy(a: Account, stock: string, quantity: int, price: int): (r: Result<Account>)
    ensures r.Success? <==> 0 <= quantity * price && CanBuy(a, quantity, price)
    ensures r.Failure? && !CanBuy(a, quantity, price) && 0 <= quantity * price ==> r.error == InsufficientBalance
    ensures r.Success? ==>
      && r.value.balance == a.balance - quantity * price
      && Holding(r.value, stock) == Holding(a, stock) + quantity
      && r.value.id == a.id && r.value.strategy == a.strategy
      && r.value.portfolio.Keys == a.portfolio.Keys + {stock}
      && (forall s :: s != stock ==> Holding(r.value, s) == Holding(a, s))
    ensures r.Success? && NonNegative(a) && quantity >= 0 ==> NonNegative(r.value)
  {
    var paid :- Withdraw(a, quantity * price);
    Success(paid.(portfolio := paid.portfolio[stock := Holding(paid, stock) + quantity]))
  }

  /** `canSellStock`: the stock is in the portfolio with at least `quantity` shares (the price is not consulted). */
  predicate CanSell(a: Account, stock: string, quantity: int) {
    stock in a.portfolio && a.portfolio[stock] >= quantity
  }

  /** `sellStock`: hand over the shares, receive quantity × price. */
  function Sell(a: Account, stock: string, quantity: int, price: int): (r: Result<Account>)
    ensures r.Success? <==> CanSell(a, stock, quantity) && 0 <= quantity * price
    ensures stock !in a.portfolio ==> r == Failure(IllegalArgument)
    ensures stock in a.portfolio && a.portfolio[stock] < quantity ==> r == Failure(InsufficientBalance)
    ensures r.Success? ==>
      && r.value.balance == a.balance + quantity * price
      && Holding(r.value, stock) == Holding(a, stock) - quantity
      && r.value.id == a.id && r.value.strategy == a.strategy
      && r.value.portfolio.Keys == a.portfolio.Keys
      && (forall s :: s != stock ==> Holding(r.value, s) == Holding(a, s))
    ensures r.Success? && NonNegative(a) ==> NonNegative(r.value)
  {
    if stock !in a.portfolio then Failure(IllegalArgument)
    else if a.portfolio[stock] < quantity then Failure(InsufficientBalance)
    else
      var paid :- Deposit(a, quantity * price);
      Success(paid.(portfolio := paid.portfolio[stock := a.portfolio[stock] - quantity]))
  }

  /** Sum of all balances. */
  function TotalCash(accounts: seq<Account>): int {
    if |accounts| == 0 then 0 else TotalCash(accounts[..|accounts| - 1]) + accounts[|accounts| - 1].balance
  }

  /** Sum of all holdings of one stock. */
  function TotalShares(accounts: seq<Account>, stock: string): int {
    if |accounts| == 0 then 0
    else TotalShares(accounts[..|accounts| - 1], stock) + Holding(accounts[|accounts| - 1], stock)
  }

  lemma {:induction false} TotalCashUpdate(accounts: seq<Account>, i: nat, a: Account)
    requires i < |accounts|
    ensures TotalCash(accounts[i := a]) == TotalCash(accounts) - accounts[i].balance + a.balance
    decreases |accounts|
  {
    var n := |accounts| - 1;
    var u := accounts[i := a];
    assert u[..n] == if i == n then accounts[..n] else accounts[..n][i := a];
    if i < n {
      TotalCashUpdate(accounts[..n], i, a);
    }
  }

  lemma {:induction false} TotalSharesUpdate(accounts: seq<Account>, i: nat, a: Account, stock: string)
    requires i < |accounts|
    ensures TotalShares(accounts[i := a], stock)
         == TotalShares(accounts, stock) - Holding(accounts[i], stock) + Holding(a, stock)
    decreases |accounts|
  {
    var n := |accounts| - 1;
    var u := accounts[i := a];
    assert u[..n] == if i == n then accounts[..n] else accounts[..n][i := a];
    if i < n {
      TotalSharesUpdate(accounts[..n], i, a, stock);
    }
  }

  /** Every account is non-negative. */
  ghost predicate AllNonNegative(accounts: seq<Account>) {
    forall i :: 0 <= i < |accounts| ==> NonNegative(accounts[i])
  }

  /** The same investors, in the same places; only balances and portfolios may differ. */
  ghost predicate SameHolders(before: seq<Account>, after: seq<Account>) {
    && |after| == |before|
    && forall i :: 0 <= i < |before| ==> after[i].id == before[i].id && after[i].strategy == before[i].strategy
  }

  /** Cash and every stock's shares add up to the same totals. */
  ghost predicate Conserved(before: seq<Account>, after: seq<Account>) {
    && TotalCash(after) == TotalCash(before)
    && forall s :: TotalShares(after, s) == TotalShares(before, s)
  }

  /** The settlement step of a trade: `buyStock` on the buyer, then `sellStock` on the seller
      (who may be the same investor). */
  function Settle(accounts: seq<Account>, buyer: nat, seller: nat, stock: string, quantity: int, price: int)
    : (r: Result<seq<Account>>)
    requires buyer < |accounts| && seller < |accounts|
    ensures quantity >= 0 && CanBuy(accounts[buyer], quantity, price) && CanSell(accounts[seller], stock, quantity) ==>
      (r.Success? <==> quantity * price >= 0)
    ensures r.Success? ==> SameHolders(accounts, r.value) && Conserved(accounts, r.value)
    ensures r.Success? && buyer != seller ==>
      && r.value[buyer].balance == accounts[buyer].balance - quantity * price
      && r.value[seller].balance == accounts[seller].balance + quantity * price
      && Holding(r.value[buyer], stock) == Holding(accounts[buyer], stock) + quantity
      && Holding(r.value[seller], stock) == Holding(accounts[seller], stock) - quantity
    ensures r.Success? ==> forall i :: 0 <= i < |accounts| && i != buyer && i != seller ==> r.value[i] == accounts[i]
    ensures r.Success? && quantity >= 0 && AllNonNegative(accounts) ==> AllNonNegative(r.value)
  {
    var b :- Buy(accounts[buyer], stock, quantity, price);
    var afterBuy := accounts[buyer := b];
    var s :- Sell(afterBuy[seller], stock, quantity, price);
    var afterSell := afterBuy[seller := s];
    SettleConserves(accounts, buyer, b, seller, s);
    Success(afterSell)
  }

  lemma SettleConserves(accounts: seq<Account>, buyer: nat, b: Account, seller: nat, s: Account)
    requires buyer < |accounts| && seller < |accounts|
    requires b.balance - accounts[buyer].balance == accounts[buyer := b][seller].balance - s.balance
    requires forall x :: Holding(b, x) - Holding(accounts[buyer], x)
                      == Holding(accounts[buyer := b][seller], x) - Holding(s, x)
    ensures Conserved(accounts, accounts[buyer := b][seller := s])
  {
    var afterBuy := accounts[buyer := b];
    TotalCashUpdate(accounts, buyer, b);
    TotalCashUpdate(afterBuy, seller, s);
    forall x
      ensures TotalShares(afterBuy[seller := s], x) == TotalShares(accounts, x)
    {
      TotalSharesUpdate(accounts, buyer, b, x);
      TotalSharesUpdate(afterBuy, seller, s, x);
    }
  }
}
