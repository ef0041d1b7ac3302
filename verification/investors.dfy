/** `investors.InvestorManagement`: the investors of a simulation, the id-issuing factories,
    building the population from a parsed configuration, lookup by id, and the random order
    of a round. Investors are kept in creation order; with sequential ids an investor's id is
    its position. */
module Investors {
  import opened Results
  import opened Ledger
  import opened Stocks
  import Parser

  /** The investors and `nextID`. */
  datatype Roster = Roster(accounts: seq<Account>, nextId: nat)

  /** `new InvestorManagement(stockManagement)`: nobody yet, ids start at 0. */
  function NewRoster(): (r: Roster)
    ensures r.accounts == [] && r.nextId == 0 && Sequential(r)
  {
    Roster([], 0)
  }

  /** Ids were handed out in order: each investor's id is its position, and the next id is
      the number of investors. */
  ghost predicate Sequential(r: Roster) {
    && r.nextId == |r.accounts|
    && forall i :: 0 <= i < |r.accounts| ==> r.accounts[i].id == i
  }

  /** Sequential ids are distinct. */
  lemma SequentialIdsDistinct(r: Roster)
    requires Sequential(r)
    ensures forall i, j :: 0 <= i < |r.accounts| && 0 <= j < |r.accounts| && i != j ==> r.accounts[i].id != r.accounts[j].id
  {
  }

  function Max0(n: int): nat {
    if n < 0 then 0 else n
  }

  datatype Enrolled = Enrolled(roster: Roster, account: Account)

  /** `createRandomChoiceInvestor` / `createSMAInvestor`: a new investor with id `nextID++`,
      the given balance and a copy of the given portfolio. */
  function CreateInvestor(r: Roster, strategy: Strategy, balance: int, portfolio: map<string, int>): (e: Enrolled)
    ensures e.account.id == r.nextId && e.account.strategy == strategy
    ensures e.account.balance == balance && e.account.portfolio == portfolio
    ensures e.roster.accounts == r.accounts + [e.account] && e.roster.nextId == r.nextId + 1
    ensures Sequential(r) ==> Sequential(e.roster)
  {
    var a := Account(r.nextId, strategy, balance, portfolio);
    Enrolled(Roster(r.accounts + [a], r.nextId + 1), a)
  }

  /** `for (i = 0; i < count; i++) create…Investor(balance, portfolio)`: a negative count
      creates nobody. */
  function CreateMany(r: Roster, strategy: Strategy, count: int, balance: int, portfolio: map<string, int>): (r': Roster)
    ensures |r'.accounts| == |r.accounts| + Max0(count) && r'.nextId == r.nextId + Max0(count)
    ensures r'.accounts[..|r.accounts|] == r.accounts
    ensures forall i :: |r.accounts| <= i < |r'.accounts| ==>
      r'.accounts[i] == Account(r.nextId + (i - |r.accounts|), strategy, balance, portfolio)
    ensures Sequential(r) ==> Sequential(r')
    decreases count
  {
    if count <= 0 then r
    else
      var e := CreateInvestor(r, strategy, balance, portfolio);
      var rest := CreateMany(e.roster, strategy, count - 1, balance, portfolio);
      assert rest.accounts[..|r.accounts|] == rest.accounts[..|e.roster.accounts|][..|r.accounts|];
      rest
  }

  /** `convertStocksPortfolio`: look every identifier up in the registry; an unknown one makes
      `getStock` throw. Portfolios of the model are keyed by identifier, so a successful
      conversion keeps the map and guarantees each key names a registered stock. */
  function ConvertPortfolio(reg: Registry, portfolio: map<string, int>): (r: Result<map<string, int>>)
    ensures r.Success? <==> portfolio.Keys <= reg.Keys
    ensures r.Failure? ==> r.error == NoSuchElement
    ensures r.Success? ==> r.value == portfolio
    ensures r.Success? ==> forall k :: k in r.value ==> GetStock(reg, k).Success?
  {
    if portfolio.Keys <= reg.Keys then Success(portfolio) else Failure(NoSuchElement)
  }

  /** `new InvestorManagement(stockManagement, parser)`: first the random investors, then the
      SMA investors, each with the configured cash and portfolio. */
  function FromConfig(reg: Registry, c: Parser.Config): (r: Result<Roster>)
    ensures r.Success? <==> c.portfolio.Keys <= reg.Keys
    ensures r.Failure? ==> r.error == NoSuchElement
    ensures r.Success? ==> Sequential(r.value)
    ensures r.Success? ==> |r.value.accounts| == Max0(c.randomCount) + Max0(c.smaCount)
    ensures r.Success? ==> forall i :: 0 <= i < |r.value.accounts| ==>
      && r.value.accounts[i].balance == c.cash
      && r.value.accounts[i].portfolio == c.portfolio
      && r.value.accounts[i].strategy == (if i < Max0(c.randomCount) then RandomChoice else Sma)
  {
    var converted :- ConvertPortfolio(reg, c.portfolio);
    var randoms := CreateMany(NewRoster(), RandomChoice, c.randomCount, c.cash, converted);
    var all := CreateMany(randoms, Sma, c.smaCount, c.cash, converted);
    assert forall i :: 0 <= i < |randoms.accounts| ==> all.accounts[i] == randoms.accounts[i] by {
      assert all.accounts[..|randoms.accounts|] == randoms.accounts;
    }
    Success(all)
  }

  /** A population where everyone starts alike holds `n` times one investor's cash and
      `n` times one investor's holding of every stock. */
  lemma {:induction false} UniformTotals(accounts: seq<Account>, cash: int, portfolio: map<string, int>)
    requires forall i :: 0 <= i < |accounts| ==> accounts[i].balance == cash && accounts[i].portfolio == portfolio
    ensures TotalCash(accounts) == |accounts| * cash
    ensures forall s :: TotalShares(accounts, s) == |accounts| * (if s in portfolio then portfolio[s] else 0)
    decreases |accounts|
  {
    if |accounts| > 0 {
      var n := |accounts| - 1;
      UniformTotals(accounts[..n], cash, portfolio);
      forall s
        ensures TotalShares(accounts, s) == |accounts| * (if s in portfolio then portfolio[s] else 0)
      {
        assert TotalShares(accounts, s) == TotalShares(accounts[..n], s) + Holding(accounts[n], s);
      }
    }
  }

  /** `getInvestor(id)`: the first investor with that id, `None` (`null`) when there is none. */
  method GetInvestor(r: Roster, id: int) returns (found: Option<Account>)
    ensures found.Some? <==> exists i :: 0 <= i < |r.accounts| && r.accounts[i].id == id
    ensures found.Some? ==> found.value.id == id && found.value in r.accounts
    ensures Sequential(r) && 0 <= id < |r.accounts| ==> found == Some(r.accounts[id])
  {
    var i := 0;
    while i < |r.accounts|
      invariant 0 <= i <= |r.accounts|
      invariant forall j :: 0 <= j < i ==> r.accounts[j].id != id
    {
      if r.accounts[i].id == id {
        return Some(r.accounts[i]);
      }
      i := i + 1;
    }
    return None;
  }

  /** The positions 0 .. n-1 in order. */
  function Range(n: nat): (s: seq<nat>)
    ensures |s| == n && forall i :: 0 <= i < n ==> s[i] == i
  {
    seq(n, i => i)
  }

  /** `order` lists each of the positions 0 .. n-1 exactly once, in some order. */
  ghost predicate IsPermutation(order: seq<nat>, n: nat) {
    multiset(order) == multiset(Range(n))
  }

  /** A permutation names every position exactly once and nothing else. */
  lemma PermutationCoversOnce(order: seq<nat>, n: nat)
    requires IsPermutation(order, n)
    ensures |order| == n
    ensures forall i :: 0 <= i < |order| ==> order[i] < n
    ensures forall p :: 0 <= p < n ==> multiset(order)[p] == 1
  {
    assert |multiset(order)| == |multiset(Range(n))|;
    forall i | 0 <= i < |order|
      ensures order[i] < n
    {
      assert order[i] in multiset(order);
      assert order[i] in Range(n);
    }
    forall p | 0 <= p < n
      ensures multiset(order)[p] == 1
    {
      RangeCountsOnce(n, p);
    }
  }

  lemma {:induction false} RangeCountsOnce(n: nat, p: nat)
    requires p < n
    ensures multiset(Range(n))[p] == 1
    decreases n
  {
    assert Range(n) == Range(n - 1) + [n - 1];
    if p < n - 1 {
      RangeCountsOnce(n - 1, p);
    } else {
      assert p !in Range(n - 1);
    }
  }

  /** The accounts at the positions `idx`, in that order. */
  function Pick(accounts: seq<Account>, idx: seq<nat>): (r: seq<Account>)
    requires forall i :: 0 <= i < |idx| ==> idx[i] < |accounts|
    ensures |r| == |idx| && forall i :: 0 <= i < |idx| ==> r[i] == accounts[idx[i]]
  {
    seq(|idx|, i requires 0 <= i < |idx| => accounts[idx[i]])
  }

  /** `getInvestorsInRandomOrder`: the investors in the order `order` that the shuffle drew
      for this round; the result holds every investor exactly as often as the roster does. */
  function InRandomOrder(r: Roster, order: seq<nat>): (s: seq<Account>)
    requires IsPermutation(order, |r.accounts|)
    ensures |s| == |r.accounts|
    ensures multiset(s) == multiset(r.accounts)
  {
    PermutationCoversOnce(order, |r.accounts|);
    PickPermutation(r.accounts, order);
    Pick(r.accounts, order)
  }

  /** Picking along a permutation of all positions rearranges the accounts. */
  lemma PickPermutation(accounts: seq<Account>, order: seq<nat>)
    requires IsPermutation(order, |accounts|)
    requires forall i :: 0 <= i < |order| ==> order[i] < |accounts|
    ensures multiset(Pick(accounts, order)) == multiset(accounts)
  {
    PickSameMultiset(accounts, order, Range(|accounts|));
    assert Pick(accounts, Range(|accounts|)) == accounts;
  }

  /** Taking the first element from one list and an equal one from the other keeps the
      remaining elements equal. */
  lemma RemoveOne(idx: seq<nat>, idx': seq<nat>, j: nat)
    requires |idx| > 0 && j < |idx'| && idx'[j] == idx[0]
    requires multiset(idx) == multiset(idx')
    ensures multiset(idx[1..]) == multiset(idx'[..j] + idx'[j + 1..])
  {
    assert idx' == idx'[..j] + [idx[0]] + idx'[j + 1..];
    assert idx == [idx[0]] + idx[1..];
    var a, b := idx'[..j], idx'[j + 1..];
    assert multiset(idx') == multiset(a) + multiset([idx[0]]) + multiset(b);
    assert multiset(idx) == multiset([idx[0]]) + multiset(idx[1..]);
    assert multiset(a + b) == multiset(a) + multiset(b);
    forall e
      ensures multiset(idx[1..])[e] == multiset(a + b)[e]
    {
      assert multiset(idx)[e] == multiset(idx')[e];
      assert multiset(idx)[e] == multiset([idx[0]])[e] + multiset(idx[1..])[e];
      assert multiset(idx')[e] == multiset(a)[e] + multiset([idx[0]])[e] + multiset(b)[e];
    }
  }

  /** Index lists with the same elements pick the same accounts. */
  lemma {:induction false} PickSameMultiset(accounts: seq<Account>, idx: seq<nat>, idx': seq<nat>)
    requires forall i :: 0 <= i < |idx| ==> idx[i] < |accounts|
    requires forall i :: 0 <= i < |idx'| ==> idx'[i] < |accounts|
    requires multiset(idx) == multiset(idx')
    ensures multiset(Pick(accounts, idx)) == multiset(Pick(accounts, idx'))
    decreases |idx|
  {
    assert |multiset(idx)| == |multiset(idx')|;
    if |idx| > 0 {
      var x := idx[0];
      assert x in multiset(idx');
      var j :| 0 <= j < |idx'| && idx'[j] == x;
      var rest' := idx'[..j] + idx'[j + 1..];
      RemoveOne(idx, idx', j);
      PickSameMultiset(accounts, idx[1..], rest');
      PickAround(accounts, idx, 0);
      assert idx[..0] + idx[1..] == idx[1..];
      PickAround(accounts, idx', j);
    }
  }

  /** Picking along a list is picking at one of its positions and along the rest. */
  lemma PickAround(accounts: seq<Account>, idx: seq<nat>, j: nat)
    requires forall i :: 0 <= i < |idx| ==> idx[i] < |accounts|
    requires j < |idx|
    ensures multiset(Pick(accounts, idx)) == multiset(Pick(accounts, idx[..j] + idx[j + 1..])) + multiset{accounts[idx[j]]}
  {
    var a, b := idx[..j], idx[j + 1..];
    assert idx == a + [idx[j]] + b;
    assert Pick(accounts, idx) == Pick(accounts, a) + [accounts[idx[j]]] + Pick(accounts, b);
    assert Pick(accounts, a + b) == Pick(accounts, a) + Pick(accounts, b);
  }
}
