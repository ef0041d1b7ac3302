/** Trade requests (`requests` package): the request record, its expiry policies,
    the all-or-nothing feasibility test, the clearing-price rule and the id-issuing factories. */
module Requests {
  import opened Results

  /** `ATradeRequest.TradeType`. */
  datatype Side = Buy | Sell

  /** The request subclasses, each reduced to the data its expiry test needs.
      An instant request is `ValidUntil(round of submission)`. */
  datatype Expiry =
    | ValidUntil(lastRound: int)   // ValidUntilNthRoundTradeRequest
    | Indefinite                   // IndefiniteTradeRequest
    | AllOrNothing                 // AllOrNothingTradeRequest

  /** A trade request. `investor` is the owning investor's id and `stock` the traded stock's
      identifier; `quantity` is the remaining quantity, the only part that ever changes.
      For a buy, `priceLimit` is the most the buyer pays; for a sell, the least the seller accepts. */
  datatype Request = Request(
    id: nat,
    investor: nat,
    stock: string,
    side: Side,
    priceLimit: int,
    quantity: int,
    expiry: Expiry)

  predicate IsBuy(r: Request) {
    r.side == Buy
  }

  predicate IsSell(r: Request) {
    r.side == Sell
  }

  /** Exactly one of `isBuyRequest` and `isSellRequest` holds. */
  lemma ExactlyOneSide(r: Request)
    ensures IsBuy(r) <==> !IsSell(r)
  {
  }

  /** A buy and a sell can trade iff the buyer's maximum reaches the seller's minimum. */
  predicate Compatible(buy: Request, sell: Request) {
    buy.priceLimit >= sell.priceLimit
  }

  /** `expiredAndShouldBeDeleted(currentRound)`. */
  predicate Expired(r: Request, currentRound: int) {
    match r.expiry
    case ValidUntil(last) => currentRound >= last
    case Indefinite => false
    case AllOrNothing => true
  }

  /** `getLastRound()` of a valid-until request. */
  function LastRound(r: Request): int
    requires r.expiry.ValidUntil?
  {
    r.expiry.lastRound
  }

  /** Expiry is monotone in the round: once expired, expired for good. */
  lemma {:induction false} ExpiryIsMonotone(r: Request, round: int, later: int)
    requires round <= later
    requires Expired(r, round)
    ensures Expired(r, later)
  {
    match r.expiry
    case ValidUntil(last) =>
    case Indefinite =>
    case AllOrNothing =>
  }

  /** The three policies: a valid-until request is expired exactly from its last round on,
      an indefinite one never, an all-or-nothing one always. */
  lemma ExpiryPolicies(r: Request, round: int)
    ensures r.expiry.ValidUntil? ==> (Expired(r, round) <==> round >= LastRound(r))
    ensures r.expiry.Indefinite? ==> !Expired(r, round)
    ensures r.expiry.AllOrNothing? ==> Expired(r, round)
  {
  }

  /** `RequestManagement.chooseOlderPrice`: the limit of the request with the smaller id. */
  function ChooseOlderPrice(t1: Request, t2: Request): (p: int)
    ensures p == t1.priceLimit || p == t2.priceLimit
    ensures t1.id < t2.id ==> p == t1.priceLimit
    ensures t2.id <= t1.id ==> p == t2.priceLimit
  {
    if t1.id < t2.id then t1.priceLimit else t2.priceLimit
  }

  /** For distinct ids the clearing price does not depend on the argument order. */
  lemma OlderPriceIsSymmetric(t1: Request, t2: Request)
    requires t1.id != t2.id
    ensures ChooseOlderPrice(t1, t2) == ChooseOlderPrice(t2, t1)
  {
  }

  /** The clearing price of a compatible pair lies between the seller's minimum and the
      buyer's maximum, so neither side trades beyond its limit. */
  lemma OlderPriceWithinLimits(buy: Request, sell: Request)
    requires Compatible(buy, sell)
    ensures sell.priceLimit <= ChooseOlderPrice(buy, sell) <= buy.priceLimit
  {
  }

  /** `reduceQuantity(amount)`: only the remaining quantity changes. */
  function ReduceQuantity(r: Request, amount: int): (r': Request)
    ensures r'.quantity == r.quantity - amount
    ensures r'.(quantity := r.quantity) == r
  {
    r.(quantity := r.quantity - amount)
  }

  /** The quantity an all-or-nothing request `r` could draw from `opposite`: the sum over the
      opposite-side requests that are not all-or-nothing and whose limit is acceptable to `r`. */
  function Liquidity(r: Request, opposite: seq<Request>): int
  {
    if |opposite| == 0 then 0
    else Contribution(r, opposite[0]) + Liquidity(r, opposite[1..])
  }

  /** What one opposite request adds to `Liquidity`. */
  function Contribution(r: Request, o: Request): int {
    if o.side != r.side && !o.expiry.AllOrNothing? && PriceAcceptable(r, o) then o.quantity else 0
  }

  /** `o`'s limit is acceptable to `r`: the pair is compatible whichever of the two is the buy. */
  predicate PriceAcceptable(r: Request, o: Request) {
    if IsBuy(r) then Compatible(r, o) else Compatible(o, r)
  }

  /** Liquidity adds up over a split of the opposite list. */
  lemma {:induction false} LiquidityOfConcat(r: Request, a: seq<Request>, b: seq<Request>)
    ensures Liquidity(r, a + b) == Liquidity(r, a) + Liquidity(r, b)
    decreases |a|
  {
    if |a| == 0 {
      assert a + b == b;
    } else {
      assert (a + b)[1..] == a[1..] + b;
      LiquidityOfConcat(r, a[1..], b);
    }
  }

  /** Requests at an unacceptable price, or themselves all-or-nothing, add nothing. */
  lemma LiquidityIgnoresUnusable(r: Request, a: seq<Request>, o: Request)
    requires o.expiry.AllOrNothing? || !PriceAcceptable(r, o)
    ensures Liquidity(r, a + [o]) == Liquidity(r, a)
  {
    LiquidityOfConcat(r, a, [o]);
    assert [o][1..] == [];
  }

  /** With no negative quantity in the list, liquidity is never negative. */
  lemma {:induction false} LiquidityNonNegative(r: Request, a: seq<Request>)
    requires forall x :: x in a ==> x.quantity >= 0
    ensures Liquidity(r, a) >= 0
    decreases |a|
  {
    if |a| > 0 {
      assert a[0] in a;
      assert forall x :: x in a[1..] ==> x in a;
      LiquidityNonNegative(r, a[1..]);
    }
  }

  /** Looking from a later candidate on never finds more liquidity. */
  lemma LiquidityOfSuffix(r: Request, a: seq<Request>, k: nat)
    requires k <= |a|
    requires forall x :: x in a ==> x.quantity >= 0
    ensures Liquidity(r, a[k..]) <= Liquidity(r, a)
  {
    assert a == a[..k] + a[k..];
    LiquidityOfConcat(r, a[..k], a[k..]);
    assert forall x :: x in a[..k] ==> x in a;
    LiquidityNonNegative(r, a[..k]);
  }

  /** `considerTrade(opposite)`, where `opposite` is the opposite book from the candidate on.
      Ordinary requests accept every candidate. An all-or-nothing request accepts only a
      candidate that is not itself all-or-nothing, and only while the usable opposite
      liquidity covers its whole remaining quantity. The class's own comment
      (`AllOrNothingTradeRequest.java:22`) says the opposite, that the other request must be
      all-or-nothing; the rule here follows the tests, which fill all-or-nothing buys from
      indefinite sells (`AllOrNothingRequestTest.java:38-52`). */
  function ConsiderTrade(r: Request, opposite: seq<Request>): (ok: bool)
    ensures !r.expiry.AllOrNothing? ==> ok
    ensures r.expiry.AllOrNothing? ==>
      (ok <==> |opposite| > 0 && !opposite[0].expiry.AllOrNothing? && Liquidity(r, opposite) >= r.quantity)
  {
    if r.expiry.AllOrNothing? then
      |opposite| > 0 && !opposite[0].expiry.AllOrNothing? && Liquidity(r, opposite) >= r.quantity
    else true
  }

  /** `AllOrNothingTradeRequest.considerTrade(other)` as shipped: a stub that refuses every
      trade. The sheet calls the list overload `considerTrade(List)`, whose base-class body is
      not part of this model; this reading takes it to delegate to the per-request method. */
  function ConsiderTradeAsWritten(r: Request, opposite: seq<Request>): (ok: bool)
    ensures ok <==> !r.expiry.AllOrNothing?
  {
    !r.expiry.AllOrNothing?
  }

  /** Which factory a decision goes through. */
  datatype Kind =
    | InstantKind
    | ValidUntilKind(lastRound: int)
    | IndefiniteKind
    | AllOrNothingKind

  /** A decision before the factory gives it an id: what an investor asks for. */
  datatype Draft = Draft(stock: string, side: Side, priceLimit: int, quantity: int, kind: Kind)

  /** `RequestManagement.nextID`: the next id a factory hands out. */
  datatype Issuer = Issuer(nextId: nat)

  /** A freshly created request and the issuer after creating it. */
  datatype Issued = Issued(request: Request, issuer: Issuer)

  /** The four factories `create…TradeRequest`; each consumes `nextID++`. An instant request is
      valid until the round it is submitted in, hence the `round` argument. */
  function Create(issuer: Issuer, investor: nat, d: Draft, round: int): (r: Issued)
    ensures r.request.id == issuer.nextId
    ensures r.issuer.nextId == issuer.nextId + 1
    ensures r.request.investor == investor && r.request.stock == d.stock && r.request.side == d.side
    ensures r.request.priceLimit == d.priceLimit && r.request.quantity == d.quantity
    ensures d.kind.InstantKind? ==> r.request.expiry == ValidUntil(round)
    ensures d.kind.ValidUntilKind? ==> r.request.expiry == ValidUntil(d.kind.lastRound)
    ensures d.kind.IndefiniteKind? ==> r.request.expiry == Indefinite
    ensures d.kind.AllOrNothingKind? ==> r.request.expiry == AllOrNothing
  {
    var expiry := match d.kind
      case InstantKind => ValidUntil(round)
      case ValidUntilKind(last) => ValidUntil(last)
      case IndefiniteKind => Indefinite
      case AllOrNothingKind => AllOrNothing;
    Issued(Request(issuer.nextId, investor, d.stock, d.side, d.priceLimit, d.quantity, expiry),
           Issuer(issuer.nextId + 1))
  }

  /** An instant request is expired in its own submission round. */
  lemma InstantExpiresInItsRound(issuer: Issuer, investor: nat, d: Draft, round: int)
    requires d.kind.InstantKind?
    ensures Expired(Create(issuer, investor, d, round).request, round)
  {
  }

  /** Creating several requests in a row: ids are strictly increasing and lie in
      [issuer.nextId, final nextId). */
  function CreateAll(issuer: Issuer, investor: nat, ds: seq<Draft>, round: int): (r: (seq<Request>, Issuer))
    ensures |r.0| == |ds|
    ensures r.1.nextId == issuer.nextId + |ds|
    ensures forall i :: 0 <= i < |r.0| ==> issuer.nextId <= r.0[i].id < r.1.nextId
    ensures forall i, j :: 0 <= i < j < |r.0| ==> r.0[i].id < r.0[j].id
    decreases |ds|
  {
    if |ds| == 0 then ([], issuer)
    else
      var first := Create(issuer, investor, ds[0], round);
      var rest := CreateAll(first.issuer, investor, ds[1..], round);
      ([first.request] + rest.0, rest.1)
  }
}
