/** One side of one stock's order book in `TradeRequestSheet`: a `SortedList` of requests
    under `buyComparator` (descending limit) or `sellComparator` (ascending limit), and the
    list operations the sheet performs on it. A request's identity (Java `==`, `indexOf`,
    `remove(element)`) is its id. */
module OrderBook {
  import opened Results
  import opened Requests
  import SortedList

  /** `buyComparator`: higher limits first. */
  function BuyKey(r: Request): int {
    -r.priceLimit
  }

  /** `sellComparator`: lower limits first. */
  function SellKey(r: Request): int {
    r.priceLimit
  }

  /** The comparator of the book holding requests of `side`. */
  function KeyFor(side: Side): Request -> int {
    if side == Buy then BuyKey else SellKey
  }

  /** A sorted buy book lists limits from highest to lowest, a sorted sell book from lowest to highest. */
  lemma BookOrder(s: seq<Request>, side: Side)
    requires SortedList.Sorted(s, KeyFor(side))
    ensures side == Buy ==> forall i, j :: 0 <= i < j < |s| ==> s[i].priceLimit >= s[j].priceLimit
    ensures side == Sell ==> forall i, j :: 0 <= i < j < |s| ==> s[i].priceLimit <= s[j].priceLimit
  {
    if side == Buy {
      forall i, j | 0 <= i < j < |s|
        ensures s[i].priceLimit >= s[j].priceLimit
      {
        assert BuyKey(s[i]) <= BuyKey(s[j]);
      }
    }
  }

  /** The ids of a book, position by position. */
  function Ids(s: seq<Request>): (ids: seq<nat>)
    ensures |ids| == |s|
    ensures forall i :: 0 <= i < |s| ==> ids[i] == s[i].id
  {
    seq(|s|, i requires 0 <= i < |s| => s[i].id)
  }

  ghost predicate DistinctIds(s: seq<Request>) {
    forall i, j :: 0 <= i < j < |s| ==> s[i].id != s[j].id
  }

  /** Time priority: of two requests at the same limit the one submitted earlier (the smaller
      id) comes first. Stable insertion of increasing ids produces it. */
  ghost predicate TimePriority(s: seq<Request>) {
    forall i, j :: 0 <= i < j < |s| && s[i].priceLimit == s[j].priceLimit ==> s[i].id < s[j].id
  }

  /** A book as the sheet keeps it: sorted by its side's comparator, equal limits in time
      priority, holding only requests of that side for that stock, placed by investors among
      the first `investors`, and no request twice. */
  ghost predicate ValidBook(s: seq<Request>, side: Side, stock: string, investors: nat) {
    && SortedList.Sorted(s, KeyFor(side))
    && TimePriority(s)
    && (forall x :: x in s ==> Belongs(x, side, stock, investors))
    && DistinctIds(s)
  }

  /** A request of `side` for `stock`, placed by one of the first `investors` investors. */
  predicate Belongs(x: Request, side: Side, stock: string, investors: nat) {
    x.side == side && x.stock == stock && x.investor < investors
  }

  /** A book of two requests is valid when both belong to it, their ids differ and they stand
      in comparator order, the older first on a tie. */
  lemma ValidPairBook(a: Request, b: Request, side: Side, stock: string, investors: nat)
    requires Belongs(a, side, stock, investors) && Belongs(b, side, stock, investors)
    requires KeyFor(side)(a) <= KeyFor(side)(b) && a.id != b.id
    requires a.priceLimit == b.priceLimit ==> a.id < b.id
    ensures ValidBook([a, b], side, stock, investors)
  {
    var s := [a, b];
    assert forall i, j :: 0 <= i < j < |s| ==> s[i] == a && s[j] == b;
  }

  /** Every remaining quantity is positive. */
  ghost predicate Positive(s: seq<Request>) {
    forall x :: x in s ==> x.quantity > 0
  }

  /** Every price limit is non-negative. */
  ghost predicate NonNegativeLimits(s: seq<Request>) {
    forall x :: x in s ==> x.priceLimit >= 0
  }

  /** Every id is below `bound` (the issuer's next id). */
  ghost predicate IdsBelow(s: seq<Request>, bound: nat) {
    forall x :: x in s ==> x.id < bound
  }

  /** `add(request)` on a book: a request of the book's side, stock and population whose id is
      new to the book keeps it valid (sorted, stably placed, no repeated id). */
  lemma AddKeepsValid(s: seq<Request>, x: Request, side: Side, stock: string, n: nat)
    requires ValidBook(s, side, stock, n)
    requires Belongs(x, side, stock, n) && IdsBelow(s, x.id)
    ensures ValidBook(SortedList.Add(s, x, KeyFor(side)), side, stock, n)
    ensures Positive(s) && x.quantity > 0 ==> Positive(SortedList.Add(s, x, KeyFor(side)))
    ensures NonNegativeLimits(s) && x.priceLimit >= 0 ==> NonNegativeLimits(SortedList.Add(s, x, KeyFor(side)))
    ensures IdsBelow(SortedList.Add(s, x, KeyFor(side)), x.id + 1)
  {
    var i := SortedList.InsertionPoint(s, x, KeyFor(side));
    InsertedAt(s, x, KeyFor(side));
    InsertKeepsDistinct(s, x, i);
    InsertKeepsTimePriority(s, x, side);
  }

  /** A request newer than every request of a sorted book, in time priority, lands after
      every request at its limit, so the book stays in time priority. */
  lemma InsertKeepsTimePriority(s: seq<Request>, x: Request, side: Side)
    requires SortedList.Sorted(s, KeyFor(side)) && TimePriority(s) && IdsBelow(s, x.id)
    ensures TimePriority(SortedList.Add(s, x, KeyFor(side)))
  {
    var key := KeyFor(side);
    var i := SortedList.InsertionPoint(s, x, key);
    InsertedAt(s, x, key);
    forall j | i <= j < |s|
      ensures x.priceLimit != s[j].priceLimit
    {
      assert key(x) < key(s[i]) <= key(s[j]);
    }
    InsertAtKeepsTimePriority(s, x, i);
  }

  /** Inserting at `i` a request newer than every other, whose limit no later request shares,
      keeps time priority. */
  lemma InsertAtKeepsTimePriority(s: seq<Request>, x: Request, i: nat)
    requires i <= |s| && TimePriority(s) && IdsBelow(s, x.id)
    requires forall j :: i <= j < |s| ==> x.priceLimit != s[j].priceLimit
    ensures TimePriority(s[..i] + [x] + s[i..])
  {
    var r := s[..i] + [x] + s[i..];
    forall a, b | 0 <= a < b < |r| && r[a].priceLimit == r[b].priceLimit
      ensures r[a].id < r[b].id
    {
      if b < i {
        assert r[a] == s[a] && r[b] == s[b];
      } else if a > i {
        assert r[a] == s[a - 1] && r[b] == s[b - 1];
      } else if b == i {
        assert r[a] == s[a] && s[a] in s;
      } else if a < i {
        assert r[a] == s[a] && r[b] == s[b - 1];
      }
    }
  }

  /** `add` places the new element at its insertion point; nothing else comes in. */
  lemma InsertedAt(s: seq<Request>, x: Request, key: Request -> int)
    ensures var i := SortedList.InsertionPoint(s, x, key);
      SortedList.Add(s, x, key) == s[..i] + [x] + s[i..]
    ensures forall y :: y in SortedList.Add(s, x, key) <==> y == x || y in s
  {
    var r := SortedList.Add(s, x, key);
    var i := SortedList.InsertionPoint(s, x, key);
    assert r == r[..i] + [r[i]] + r[i + 1..];
    assert s == s[..i] + s[i..];
  }

  /** Inserting a request whose id is above every id of a book without repeated ids keeps
      the ids distinct. */
  lemma InsertKeepsDistinct(s: seq<Request>, x: Request, i: nat)
    requires i <= |s| && DistinctIds(s) && IdsBelow(s, x.id)
    ensures DistinctIds(s[..i] + [x] + s[i..])
  {
    var r := s[..i] + [x] + s[i..];
    forall a, b | 0 <= a < b < |r|
      ensures r[a].id != r[b].id
    {
      if b < i {
        assert r[a] == s[a] && r[b] == s[b];
      } else if a > i {
        assert r[a] == s[a - 1] && r[b] == s[b - 1];
      } else if a == i {
        assert r[b] == s[b - 1] && s[b - 1] in s;
      } else if b == i {
        assert r[a] == s[a] && s[a] in s;
      } else {
        assert r[a] == s[a] && r[b] == s[b - 1];
      }
    }
  }

  /** Deleting one position keeps the remaining ids distinct. */
  lemma DeleteKeepsDistinct(s: seq<Request>, i: nat)
    requires i < |s| && DistinctIds(s)
    ensures DistinctIds(s[..i] + s[i + 1..])
  {
    var r := s[..i] + s[i + 1..];
    forall a, b | 0 <= a < b < |r|
      ensures r[a].id != r[b].id
    {
      var a' := if a < i then a else a + 1;
      var b' := if b < i then b else b + 1;
      assert r[a] == s[a'] && r[b] == s[b'];
    }
  }

  /** Deleting one position keeps the rest in time priority. */
  lemma DeleteKeepsTimePriority(s: seq<Request>, i: nat)
    requires i < |s| && TimePriority(s)
    ensures TimePriority(s[..i] + s[i + 1..])
  {
    var r := s[..i] + s[i + 1..];
    forall a, b | 0 <= a < b < |r| && r[a].priceLimit == r[b].priceLimit
      ensures r[a].id < r[b].id
    {
      var a' := if a < i then a else a + 1;
      var b' := if b < i then b else b + 1;
      assert r[a] == s[a'] && r[b] == s[b'];
    }
  }

  /** `getList().indexOf(request)`: the position of the request with this id, or -1. */
  function Locate(s: seq<Request>, id: nat): (i: int)
    ensures -1 <= i < |s|
    ensures i == -1 <==> forall j :: 0 <= j < |s| ==> s[j].id != id
    ensures 0 <= i ==> s[i].id == id && forall j :: 0 <= j < i ==> s[j].id != id
  {
    SortedList.IndexOf(Ids(s), id)
  }

  /** In a book without repeated ids, the request at position `i` is found at `i`. */
  lemma LocateAt(s: seq<Request>, i: nat)
    requires i < |s| && DistinctIds(s)
    ensures Locate(s, s[i].id) == i
  {
  }

  /** `remove(request)`: drop the request with this id; no change when it is absent. */
  function RemoveRequest(s: seq<Request>, id: nat): (r: seq<Request>)
    ensures Locate(s, id) < 0 ==> r == s
    ensures Locate(s, id) >= 0 ==> |r| == |s| - 1
    ensures DistinctIds(s) ==> forall x :: x in r <==> x in s && x.id != id
    ensures forall x :: x in r ==> x in s
  {
    var i := Locate(s, id);
    if i < 0 then s
    else
      assert s == s[..i] + [s[i]] + s[i + 1..];
      s[..i] + s[i + 1..]
  }

  /** Removing a request keeps a valid book valid, and keeps every book-wide property. */
  lemma RemoveKeepsValid(s: seq<Request>, id: nat, side: Side, stock: string, n: nat)
    requires ValidBook(s, side, stock, n)
    ensures ValidBook(RemoveRequest(s, id), side, stock, n)
    ensures Positive(s) ==> Positive(RemoveRequest(s, id))
    ensures NonNegativeLimits(s) ==> NonNegativeLimits(RemoveRequest(s, id))
  {
    var r := RemoveRequest(s, id);
    var i := Locate(s, id);
    if i >= 0 {
      assert r == s[..i] + s[i + 1..];
      DeleteKeepsValid(s, i, side, stock, n);
    }
    SublistKeepsBookWide(s, r);
  }

  /** Every request of `r` is in `s`, so the book-wide properties of `s` carry over to `r`. */
  lemma SublistKeepsBookWide(s: seq<Request>, r: seq<Request>)
    requires forall x :: x in r ==> x in s
    ensures Positive(s) ==> Positive(r)
    ensures NonNegativeLimits(s) ==> NonNegativeLimits(r)
  {
  }

  /** Deleting one position keeps a valid book valid. */
  lemma DeleteKeepsValid(s: seq<Request>, i: nat, side: Side, stock: string, n: nat)
    requires i < |s| && ValidBook(s, side, stock, n)
    ensures ValidBook(s[..i] + s[i + 1..], side, stock, n)
  {
    SortedList.DeleteKeepsSorted(s, i, KeyFor(side));
    DeleteKeepsDistinct(s, i);
    DeleteKeepsTimePriority(s, i);
    assert forall x :: x in s[..i] + s[i + 1..] ==> x in s;
  }

  /** `reduceQuantityOrRemove`: more than the remaining quantity is refused with
      IllegalArgument; exactly the remaining quantity removes the request; less reduces it in place. */
  function ReduceOrRemove(s: seq<Request>, i: nat, amount: int): (r: Result<seq<Request>>)
    requires i < |s| && DistinctIds(s)
    ensures r.Failure? <==> s[i].quantity < amount
    ensures r.Failure? ==> r.error == IllegalArgument
    ensures r.Success? && s[i].quantity == amount ==>
      && |r.value| == |s| - 1
      && (forall x :: x in r.value <==> x in s && x.id != s[i].id)
    ensures r.Success? && s[i].quantity > amount ==>
      && |r.value| == |s|
      && r.value[i].quantity == s[i].quantity - amount
      && r.value[i].(quantity := s[i].quantity) == s[i]
      && (forall j :: 0 <= j < |s| && j != i ==> r.value[j] == s[j])
  {
    if s[i].quantity < amount then Failure(IllegalArgument)
    else if s[i].quantity == amount then
      LocateAt(s, i);
      Success(RemoveRequest(s, s[i].id))
    else Success(s[i := ReduceQuantity(s[i], amount)])
  }

  /** Reducing or removing keeps a valid book valid; a remaining quantity stays positive. */
  lemma ReduceOrRemoveKeepsValid(s: seq<Request>, i: nat, amount: int, side: Side, stock: string, n: nat)
    requires i < |s| && ValidBook(s, side, stock, n)
    requires ReduceOrRemove(s, i, amount).Success?
    ensures ValidBook(ReduceOrRemove(s, i, amount).value, side, stock, n)
    ensures Positive(s) ==> Positive(ReduceOrRemove(s, i, amount).value)
    ensures NonNegativeLimits(s) ==> NonNegativeLimits(ReduceOrRemove(s, i, amount).value)
  {
    if s[i].quantity == amount {
      RemoveKeepsValid(s, s[i].id, side, stock, n);
    } else {
      var r := s[i := ReduceQuantity(s[i], amount)];
      assert forall j :: 0 <= j < |s| ==> KeyFor(side)(r[j]) == KeyFor(side)(s[j]);
      assert forall j :: 0 <= j < |s| ==> r[j].id == s[j].id && r[j].priceLimit == s[j].priceLimit;
      forall x | x in r
        ensures Belongs(x, side, stock, n) && (Positive(s) ==> x.quantity > 0)
      {
        var j :| 0 <= j < |r| && r[j] == x;
        assert s[j] in s;
      }
    }
  }

  /** `removeExpiredRequestsForStock`, as intended: keep exactly the unexpired requests, in order. */
  function Purge(s: seq<Request>, round: int): (r: seq<Request>)
    ensures |r| <= |s|
    ensures forall x :: x in r <==> x in s && !Expired(x, round)
    decreases |s|
  {
    if |s| == 0 then []
    else if Expired(s[0], round) then Purge(s[1..], round)
    else [s[0]] + Purge(s[1..], round)
  }

  /** `r` takes requests of `s` at the strictly increasing positions `idx`: it keeps some of
      them, in their order. */
  ghost predicate Picks(s: seq<Request>, r: seq<Request>, idx: seq<nat>) {
    && |idx| == |r|
    && (forall k :: 0 <= k < |idx| ==> idx[k] < |s| && s[idx[k]] == r[k])
    && (forall k, l :: 0 <= k < l < |idx| ==> idx[k] < idx[l])
  }

  /** The purge keeps the survivors in their book order: the `k`-th survivor is the request
      at position `idx[k]` of the book, and the positions strictly increase. */
  function PurgePositions(s: seq<Request>, round: int): (idx: seq<nat>)
    ensures Picks(s, Purge(s, round), idx)
    decreases |s|
  {
    if |s| == 0 then []
    else
      var rest := PurgePositions(s[1..], round);
      PicksOfTail(s, Purge(s[1..], round), rest);
      if Expired(s[0], round) then Shift(rest) else [0] + Shift(rest)
  }

  /** Every position one further on. */
  function Shift(idx: seq<nat>): (r: seq<nat>)
    ensures |r| == |idx| && forall k :: 0 <= k < |idx| ==> r[k] == idx[k] + 1
  {
    seq(|idx|, k requires 0 <= k < |idx| => idx[k] + 1)
  }

  /** Positions in the tail of a book are positions one further on in the book; the head can
      be taken in front of them. */
  lemma PicksOfTail(s: seq<Request>, r: seq<Request>, rest: seq<nat>)
    requires |s| > 0 && Picks(s[1..], r, rest)
    ensures Picks(s, r, Shift(rest))
    ensures Picks(s, [s[0]] + r, [0] + Shift(rest))
  {
    var sh := Shift(rest);
    forall k | 0 <= k < |sh|
      ensures sh[k] < |s| && s[sh[k]] == r[k]
    {
      assert s[1..][rest[k]] == r[k];
    }
    var r' := [s[0]] + r;
    var idx' := [0] + sh;
    forall k | 0 <= k < |idx'|
      ensures idx'[k] < |s| && s[idx'[k]] == r'[k]
    {
      if k > 0 {
        assert idx'[k] == sh[k - 1] && r'[k] == r[k - 1];
      }
    }
  }

  /** Keeping some requests of a book in their order keeps its order properties. */
  lemma PicksKeepOrder(s: seq<Request>, r: seq<Request>, idx: seq<nat>, key: Request -> int)
    requires Picks(s, r, idx)
    ensures SortedList.Sorted(s, key) ==> SortedList.Sorted(r, key)
    ensures TimePriority(s) ==> TimePriority(r)
    ensures DistinctIds(s) ==> DistinctIds(r)
  {
    forall a, b | 0 <= a < b < |r|
      ensures r[a] == s[idx[a]] && r[b] == s[idx[b]] && idx[a] < idx[b]
    {
    }
  }

  /** A book of which nothing has expired, indefinite requests for instance, survives the purge whole. */
  lemma {:induction false} PurgeOfUnexpired(s: seq<Request>, round: int)
    requires forall x :: x in s ==> !Expired(x, round)
    ensures Purge(s, round) == s
    decreases |s|
  {
    if |s| > 0 {
      assert s[0] in s;
      assert forall x :: x in s[1..] ==> x in s;
      PurgeOfUnexpired(s[1..], round);
      assert s == [s[0]] + s[1..];
    }
  }

  lemma {:induction false} PurgeKeepsSorted(s: seq<Request>, round: int, key: Request -> int)
    requires SortedList.Sorted(s, key)
    ensures SortedList.Sorted(Purge(s, round), key)
    decreases |s|
  {
    if |s| > 0 {
      PurgeKeepsSorted(s[1..], round, key);
      var rest := Purge(s[1..], round);
      forall j | 0 <= j < |rest|
        ensures key(s[0]) <= key(rest[j])
      {
        assert rest[j] in s[1..];
      }
    }
  }

  /** Purging keeps a valid book valid: the survivors keep their order, so the book stays
      sorted, in time priority and without repeated ids. */
  lemma PurgeKeepsValid(s: seq<Request>, round: int, side: Side, stock: string, n: nat)
    requires ValidBook(s, side, stock, n)
    ensures ValidBook(Purge(s, round), side, stock, n)
    ensures Positive(s) ==> Positive(Purge(s, round))
    ensures NonNegativeLimits(s) ==> NonNegativeLimits(Purge(s, round))
  {
    PicksKeepOrder(s, Purge(s, round), PurgePositions(s, round), KeyFor(side));
  }

  /** A valid book is determined by the requests it holds: sorted by limit and, within a limit,
      by submission, it has one possible order. So an operation that keeps a book valid and
      only removes requests keeps the survivors in their order. */
  lemma {:induction false} ValidBookDeterminedByContents(s: seq<Request>, t: seq<Request>, side: Side)
    requires SortedList.Sorted(s, KeyFor(side)) && TimePriority(s) && DistinctIds(s)
    requires SortedList.Sorted(t, KeyFor(side)) && TimePriority(t) && DistinctIds(t)
    requires forall x :: x in s <==> x in t
    ensures s == t
    decreases |s|
  {
    SameContentsSameEmptiness(s, t);
    if |s| > 0 {
      HeadsAgree(s, t, side);
      TailsAgree(s, t);
      TailKeepsOrder(s, side);
      TailKeepsOrder(t, side);
      ValidBookDeterminedByContents(s[1..], t[1..], side);
      assert s == [s[0]] + s[1..] && t == [t[0]] + t[1..];
    }
  }

  /** Sequences holding the same elements are both empty or both not. */
  lemma SameContentsSameEmptiness(s: seq<Request>, t: seq<Request>)
    requires forall x :: x in s <==> x in t
    ensures |s| == 0 <==> |t| == 0
  {
    if |s| > 0 {
      assert s[0] in s;
    }
    if |t| > 0 {
      assert t[0] in t;
    }
  }

  /** Dropping the first request of a book keeps its order properties. */
  lemma TailKeepsOrder(s: seq<Request>, side: Side)
    requires |s| > 0 && SortedList.Sorted(s, KeyFor(side)) && TimePriority(s) && DistinctIds(s)
    ensures SortedList.Sorted(s[1..], KeyFor(side)) && TimePriority(s[1..]) && DistinctIds(s[1..])
  {
    assert forall k :: 0 <= k < |s| - 1 ==> s[1..][k] == s[k + 1];
  }

  /** Books with the same requests and the same first request hold the same other requests. */
  lemma TailsAgree(s: seq<Request>, t: seq<Request>)
    requires |s| > 0 && |t| > 0 && s[0] == t[0] && DistinctIds(s) && DistinctIds(t)
    requires forall x :: x in s <==> x in t
    ensures forall x :: x in s[1..] <==> x in t[1..]
  {
    forall x | x in s[1..]
      ensures x in t[1..]
    {
      var k :| 0 <= k < |s| - 1 && s[1..][k] == x;
      assert s[k + 1] == x && x in s;
      var m :| 0 <= m < |t| && t[m] == x;
      assert t[1..][m - 1] == x;
    }
    forall x | x in t[1..]
      ensures x in s[1..]
    {
      var k :| 0 <= k < |t| - 1 && t[1..][k] == x;
      assert t[k + 1] == x && x in t;
      var m :| 0 <= m < |s| && s[m] == x;
      assert s[1..][m - 1] == x;
    }
  }

  /** Two valid books with the same requests start with the same request. */
  lemma HeadsAgree(s: seq<Request>, t: seq<Request>, side: Side)
    requires SortedList.Sorted(s, KeyFor(side)) && TimePriority(s) && DistinctIds(s)
    requires SortedList.Sorted(t, KeyFor(side)) && TimePriority(t) && DistinctIds(t)
    requires |s| > 0 && forall x :: x in s <==> x in t
    ensures |t| > 0 && s[0] == t[0]
  {
    assert s[0] in s;
    var j :| 0 <= j < |t| && t[j] == s[0];
    assert t[0] in t;
    var i :| 0 <= i < |s| && s[i] == t[0];
    var key := KeyFor(side);
    assert key(s[0]) <= key(s[i]) && key(t[0]) <= key(t[j]);
    assert s[0].priceLimit == t[0].priceLimit;
  }

  /** `removeExpiredRequestsForStock` as written: the list's own iterator walks positions
      0, 1, 2, … while expired requests are removed from under it, so the request that
      slides into a just-vacated position is never looked at. */
  function PurgeAsWritten(s: seq<Request>, round: int): (r: seq<Request>)
    ensures |r| <= |s|
    ensures forall x :: x in r ==> x in s
  {
    PurgeWalk(s, round, 0)
  }

  /** The iterator at position `index` over the live list `s`. */
  function PurgeWalk(s: seq<Request>, round: int, index: nat): (r: seq<Request>)
    ensures |r| <= |s|
    ensures forall x :: x in r ==> x in s
    decreases |s| - index
  {
    if index >= |s| then s
    else if Expired(s[index], round) then PurgeWalk(RemoveRequest(s, s[index].id), round, index + 1)
    else PurgeWalk(s, round, index + 1)
  }

  /** Two adjacent all-or-nothing requests: the walk removes the first and skips the second,
      which survives the purge although it is expired. */
  lemma PurgeAsWrittenSkipsSecondExpired()
    ensures var a := Request(0, 0, "APL", Buy, 100, 5, AllOrNothing);
            var b := Request(1, 0, "APL", Buy, 100, 3, AllOrNothing);
            && PurgeAsWritten([a, b], 0) == [b]
            && Expired(b, 0)
            && Purge([a, b], 0) == []
  {
    var a := Request(0, 0, "APL", Buy, 100, 5, AllOrNothing);
    var b := Request(1, 0, "APL", Buy, 100, 3, AllOrNothing);
    assert Locate([a, b], 0) == 0;
    assert RemoveRequest([a, b], 0) == [b];
  }
}
