/** `stocks.Stock` and `stocks.StockManagement`: stock records and the identifier-keyed registry. */
module Stocks {
  import opened Results

  datatype Stock = Stock(identifier: string, lastPrice: int, lastTradeRound: int)

  /** The `Stock` constructor: stores identifier and price; the round argument is
      ignored and the last-trade round starts at 0. */
  function NewStock(identifier: string, lastPrice: int, lastTradeRound: int): (s: Stock)
    ensures s.identifier == identifier && s.lastPrice == lastPrice
    ensures s.lastTradeRound == 0
  {
    Stock(identifier, lastPrice, 0)
  }

  /** `updateLastTransactionInformation`: price and round become exactly the given values;
      the identifier never changes. */
  function UpdateLastTransaction(s: Stock, price: int, tradeRound: int): (s': Stock)
    ensures s'.identifier == s.identifier
    ensures s'.lastPrice == price && s'.lastTradeRound == tradeRound
  {
    s.(lastPrice := price, lastTradeRound := tradeRound)
  }

  /** `StockManagement`: the stocks by identifier. */
  type Registry = map<string, Stock>

  /** Every stock is filed under its own identifier. */
  ghost predicate WellKeyed(reg: Registry) {
    forall id :: id in reg ==> reg[id].identifier == id
  }

  /** `getStock`: NoSuchElement for an unknown identifier. */
  function GetStock(reg: Registry, identifier: string): (r: Result<Stock>)
    ensures r.Success? <==> identifier in reg
    ensures r.Success? ==> r.value == reg[identifier]
    ensures r.Failure? ==> r.error == NoSuchElement
  {
    if identifier in reg then Success(reg[identifier]) else Failure(NoSuchElement)
  }

  datatype Created = Created(registry: Registry, stock: Stock)

  /** `createStock`: refuses a duplicate identifier and leaves the registry unchanged;
      otherwise registers a new stock that `getStock` then returns. */
  function CreateStock(reg: Registry, identifier: string, lastPrice: int, lastTradeRound: int): (r: Result<Created>)
    ensures r.Failure? <==> identifier in reg
    ensures r.Failure? ==> r.error == IllegalArgument
    ensures r.Success? ==>
      && r.value.stock == NewStock(identifier, lastPrice, lastTradeRound)
      && GetStock(r.value.registry, identifier) == Success(r.value.stock)
      && r.value.registry.Keys == reg.Keys + {identifier}
      && |r.value.registry| == |reg| + 1
      && (forall id :: id in reg ==> r.value.registry[id] == reg[id])
    ensures r.Success? && WellKeyed(reg) ==> WellKeyed(r.value.registry)
  {
    if identifier in reg then Failure(IllegalArgument)
    else
      var stock := NewStock(identifier, lastPrice, lastTradeRound);
      Success(Created(reg[identifier := stock], stock))
  }

  /** The registry `createStocksFromIdentifierPriceMap` builds: one stock per entry, at its price, round 0. */
  function FromPriceMap(prices: map<string, int>): (reg: Registry)
    ensures reg.Keys == prices.Keys
    ensures WellKeyed(reg)
    ensures forall id :: id in reg ==> reg[id].lastPrice == prices[id] && reg[id].lastTradeRound == 0
  {
    map id | id in prices :: NewStock(id, prices[id], 0)
  }

  /** The loop of `createStocksFromIdentifierPriceMap`: `createStock(id, price, 0)` for each
      identifier, in the (unspecified) iteration order `ids`. */
  function CreateEach(reg: Registry, ids: seq<string>, prices: map<string, int>): Result<Registry>
    requires forall i :: 0 <= i < |ids| ==> ids[i] in prices
    decreases |ids|
  {
    if |ids| == 0 then Success(reg)
    else
      var created :- CreateStock(reg, ids[0], prices[ids[0]], 0);
      CreateEach(created.registry, ids[1..], prices)
  }

  /** Whatever order the price map is walked in, the loop never hits a duplicate and builds
      exactly `FromPriceMap(prices)`. */
  lemma CreateEachBuildsFromPriceMap(ids: seq<string>, prices: map<string, int>)
    requires forall i, j :: 0 <= i < j < |ids| ==> ids[i] != ids[j]
    requires forall id :: id in prices <==> id in ids
    ensures CreateEach(map[], ids, prices) == Success(FromPriceMap(prices))
  {
    CreateEachExtends(map[], ids, prices);
    BuiltIsFromPriceMap(ids, prices);
  }

  lemma BuiltIsFromPriceMap(ids: seq<string>, prices: map<string, int>)
    requires forall id :: id in prices <==> id in ids
    ensures map[] + Built(ids, prices) == FromPriceMap(prices)
  {
    var left := map[] + Built(ids, prices);
    assert left.Keys == FromPriceMap(prices).Keys;
  }

  /** The stocks created for the identifiers in `ids`. */
  function Built(ids: seq<string>, prices: map<string, int>): Registry
    requires forall i :: 0 <= i < |ids| ==> ids[i] in prices
  {
    map id | id in ids :: NewStock(id, prices[id], 0)
  }

  lemma {:induction false} CreateEachExtends(reg: Registry, ids: seq<string>, prices: map<string, int>)
    requires forall i :: 0 <= i < |ids| ==> ids[i] in prices
    requires forall i, j :: 0 <= i < j < |ids| ==> ids[i] != ids[j]
    requires forall i :: 0 <= i < |ids| ==> ids[i] !in reg
    ensures CreateEach(reg, ids, prices) == Success(reg + Built(ids, prices))
    decreases |ids|
  {
    if |ids| == 0 {
      CreateEachOfNone(reg, ids, prices);
    } else {
      var reg' := reg[ids[0] := NewStock(ids[0], prices[ids[0]], 0)];
      var rest := ids[1..];
      CreateEachStep(reg, ids, prices);
      assert forall i :: 0 <= i < |rest| ==> rest[i] == ids[i + 1];
      assert forall i :: 0 <= i < |rest| ==> rest[i] != ids[0];
      CreateEachExtends(reg', rest, prices);
      BuiltStep(reg, ids, prices);
    }
  }

  lemma CreateEachOfNone(reg: Registry, ids: seq<string>, prices: map<string, int>)
    requires |ids| == 0
    ensures CreateEach(reg, ids, prices) == Success(reg + Built(ids, prices))
  {
    assert Built(ids, prices) == map[];
    assert reg + Built(ids, prices) == reg;
  }

  lemma CreateEachStep(reg: Registry, ids: seq<string>, prices: map<string, int>)
    requires |ids| > 0 && ids[0] !in reg
    requires forall i :: 0 <= i < |ids| ==> ids[i] in prices
    ensures CreateEach(reg, ids, prices) == CreateEach(reg[ids[0] := NewStock(ids[0], prices[ids[0]], 0)], ids[1..], prices)
  {
  }

  lemma BuiltStep(reg: Registry, ids: seq<string>, prices: map<string, int>)
    requires |ids| > 0
    requires forall i :: 0 <= i < |ids| ==> ids[i] in prices
    ensures reg[ids[0] := NewStock(ids[0], prices[ids[0]], 0)] + Built(ids[1..], prices) == reg + Built(ids, prices)
  {
    var left := reg[ids[0] := NewStock(ids[0], prices[ids[0]], 0)] + Built(ids[1..], prices);
    var right := reg + Built(ids, prices);
    assert forall id :: id in ids <==> id == ids[0] || id in ids[1..];
    assert left.Keys == right.Keys;
    forall id | id in left
      ensures left[id] == right[id]
    {
    }
  }

  /** `updateStockPriceByName`: NoSuchElement for an unknown identifier; otherwise only that
      stock's price and round change. */
  function UpdatePriceByName(reg: Registry, identifier: string, price: int, tradeRound: int): (r: Result<Registry>)
    ensures r.Success? <==> identifier in reg
    ensures r.Failure? ==> r.error == NoSuchElement
    ensures r.Success? ==>
      && r.value.Keys == reg.Keys
      && r.value[identifier].identifier == reg[identifier].identifier
      && r.value[identifier].lastPrice == price && r.value[identifier].lastTradeRound == tradeRound
      && (forall id :: id in reg && id != identifier ==> r.value[id] == reg[id])
  {
    var stock :- GetStock(reg, identifier);
    Success(reg[identifier := UpdateLastTransaction(stock, price, tradeRound)])
  }
}
