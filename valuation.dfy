/**
 * The value of an account and of a run: a Steam Market price per item name
 * (priceoverview), the market total of an inventory (compute_value_via_market),
 * the choice between the CSGOBackpack total and the market total
 * (get_value_for_account), and the per-account records and grand total of main.
 *
 * Every HTTP exchange is an input: the reply to each price request is given by
 * a function from item name to reply, and the CSGOBackpack outcome and the
 * inventory download are given per account.
 */
module Valuation {
  import opened Wrappers
  import opened Json
  import opened Inventory
  import PriceParser

  // ---------------------------------------------------------------------------
  // priceoverview

  /**
   * What the price request for one item gave back. NoResponse: `requests.get`
   * raised (connection error, timeout). Response: the HTTP status, and the body
   * as a JSON object, or None when `r.json()` raises or the JSON is not an object.
   */
  datatype PriceReply = NoResponse | Response(status: int, body: Option<Object>)

  /** A field handed to parse_price: a null is Python's None. */
  function FieldText(v: Value): Option<string> {
    match v
    case Null => None
    case Text(t) => Some(t)
  }

  /** `priceoverview(name)`, given the reply to its request. */
  function PriceOverview(reply: PriceReply): (r: Attempt<real>)
    ensures r.Ok? ==> r.value >= 0.0
  {
    match reply
    case NoResponse => Raised
    case Response(status, body) =>
      if status != 200 then Ok(0.0)
      else
        match body
        case None => Raised
        case Some(data) =>
          var lowest := Get(data, "lowest_price", Null);
          var chosen := if Truthy(lowest) then lowest else Get(data, "median_price", Null);
          Ok(PriceParser.ParsePrice(FieldText(chosen)))
  }

  /** A status other than 200 is a price of 0, whatever the body. */
  lemma FailedStatusIsFree(status: int, body: Option<Object>)
    requires status != 200
    ensures PriceOverview(Response(status, body)) == Ok(0.0)
  {
  }

  /** The price request raises exactly when the request itself fails or a 200 reply has no object body. */
  lemma PriceOverviewRaises(reply: PriceReply)
    ensures PriceOverview(reply).Raised? <==>
      reply.NoResponse? || (reply.status == 200 && reply.body.None?)
  {
  }

  /** A non-empty lowest_price is used, and median_price is then never read. */
  lemma LowestPreferred(data: Object, median: Value)
    requires Truthy(Get(data, "lowest_price", Null))
    ensures PriceOverview(Response(200, Some(data)))
         == Ok(PriceParser.ParsePrice(Some(data["lowest_price"].text)))
    ensures PriceOverview(Response(200, Some(data)))
         == PriceOverview(Response(200, Some(data["median_price" := median])))
  {
    assert Get(data["median_price" := median], "lowest_price", Null) == data["lowest_price"];
  }

  /** A missing, null or empty lowest_price falls back to median_price, as if lowest_price were absent. */
  lemma MedianFallback(data: Object)
    requires !Truthy(Get(data, "lowest_price", Null))
    ensures PriceOverview(Response(200, Some(data)))
         == Ok(PriceParser.ParsePrice(FieldText(Get(data, "median_price", Null))))
    ensures PriceOverview(Response(200, Some(data)))
         == PriceOverview(Response(200, Some(data - {"lowest_price"})))
  {
    assert Get(data - {"lowest_price"}, "median_price", Null) == Get(data, "median_price", Null);
  }

  // ---------------------------------------------------------------------------
  // compute_value_via_market

  /** The outcome of `priceoverview` for every item name, given the reply to each request. */
  function Quotes(market: string -> PriceReply): (quotes: string -> Attempt<real>)
    ensures NonNegative(quotes)
  {
    var quotes := n => PriceOverview(market(n));
    assert forall n :: quotes(n) == PriceOverview(market(n));
    quotes
  }

  /** No quote is a negative price. */
  ghost predicate NonNegative(quotes: string -> Attempt<real>) {
    forall n :: quotes(n).Ok? ==> quotes(n).value >= 0.0
  }

  /** `price * qty` for a whole quantity, written as qty additions of price. */
  function Scale(price: real, qty: nat): (v: real)
    ensures price >= 0.0 ==> v >= 0.0
  {
    if qty == 0 then 0.0 else Scale(price, qty - 1) + price
  }

  lemma ProductStep(price: real, qty: nat)
    requires qty > 0
    ensures price * (qty - 1) as real + price == price * qty as real
  {
  }

  /** Repeated addition is the product. */
  lemma {:induction false} ScaleIsProduct(price: real, qty: nat)
    ensures Scale(price, qty) == price * qty as real
  {
    if qty > 0 {
      ScaleIsProduct(price, qty - 1);
      ProductStep(price, qty);
    }
  }

  lemma {:induction false} ScaleMonotone(price: real, cap: real, qty: nat)
    requires price <= cap
    ensures Scale(price, qty) <= Scale(cap, qty)
  {
    if qty > 0 {
      ScaleMonotone(price, cap, qty - 1);
    }
  }

  lemma {:induction false} ScaleOfZero(qty: nat)
    ensures Scale(0.0, qty) == 0.0
  {
    if qty > 0 {
      ScaleOfZero(qty - 1);
    }
  }

  lemma {:induction false} ScaleAdd(price: real, a: nat, b: nat)
    ensures Scale(price, a + b) == Scale(price, a) + Scale(price, b)
  {
    if b > 0 {
      ScaleAdd(price, a, b - 1);
    }
  }

  /**
   * One step of the loop: `total += price * qty` once both the running total
   * and the quote are known; a raise in either aborts the sum.
   */
  function AddLine(sofar: Attempt<real>, quote: Attempt<real>, qty: nat): (r: Attempt<real>)
    ensures r.Ok? <==> sofar.Ok? && quote.Ok?
    ensures r.Ok? && sofar.value >= 0.0 && quote.value >= 0.0 ==> r.value >= 0.0
  {
    match sofar
    case Raised => Raised
    case Ok(total) =>
      match quote
      case Raised => Raised
      case Ok(price) => Ok(total + Scale(price, qty))
  }

  /** The sum over the names, in order; the first quote that raises aborts it. */
  function MarketSum(names: seq<string>, c: ItemCounts, quotes: string -> Attempt<real>): (r: Attempt<real>)
    ensures NonNegative(quotes) && r.Ok? ==> r.value >= 0.0
  {
    if names == [] then Ok(0.0)
    else
      var name := names[|names| - 1];
      AddLine(MarketSum(names[..|names| - 1], c, quotes), quotes(name), c.Count(name))
  }

  /** The market value of an inventory download, or Raised when the download or a price request raised. */
  function MarketValue(inventory: Attempt<Payload>, market: string -> PriceReply): (r: Attempt<real>)
    ensures r.Ok? ==> r.value >= 0.0
  {
    match inventory
    case Raised => Raised
    case Ok(inv) =>
      var counts := Tally(AssetNames(inv));
      MarketSum(counts.names, counts, Quotes(market))
  }

  lemma MarketSumStep(names: seq<string>, k: nat, c: ItemCounts, quotes: string -> Attempt<real>)
    requires k < |names|
    ensures MarketSum(names[..k + 1], c, quotes)
         == AddLine(MarketSum(names[..k], c, quotes), quotes(names[k]), c.Count(names[k]))
  {
    var prefix := names[..k + 1];
    assert prefix[..|prefix| - 1] == names[..k];
  }

  /** The sum raises exactly when the quote of one of the names raises. */
  lemma {:induction false} MarketSumRaises(names: seq<string>, c: ItemCounts, quotes: string -> Attempt<real>)
    ensures MarketSum(names, c, quotes).Raised? <==>
      exists i :: 0 <= i < |names| && quotes(names[i]).Raised?
  {
    if names != [] {
      var init := names[..|names| - 1];
      MarketSumRaises(init, c, quotes);
      if exists i :: 0 <= i < |init| && quotes(init[i]).Raised? {
        var i :| 0 <= i < |init| && quotes(init[i]).Raised?;
        assert names[i] == init[i];
      }
      if exists i :: 0 <= i < |names| && quotes(names[i]).Raised? {
        var i :| 0 <= i < |names| && quotes(names[i]).Raised?;
        assert i < |init| ==> init[i] == names[i];
      }
    }
  }

  /** After a successful download, the market value is Raised exactly when the price request of an owned item raised. */
  lemma MarketValueRaises(inv: Payload, market: string -> PriceReply, counts: ItemCounts)
    requires counts == Tally(AssetNames(inv))
    ensures MarketValue(Ok(inv), market).Raised? <==>
      exists i :: 0 <= i < |counts.names| && PriceOverview(market(counts.names[i])).Raised?
  {
    var quotes := Quotes(market);
    assert MarketValue(Ok(inv), market) == MarketSum(counts.names, counts, quotes);
    MarketSumRaises(counts.names, counts, quotes);
    forall i | 0 <= i < |counts.names|
      ensures quotes(counts.names[i]) == PriceOverview(market(counts.names[i]))
    {
    }
  }

  /** When no quote exceeds cap, the sum is at most cap for every unit. */
  lemma {:induction false} MarketSumBound(names: seq<string>, c: ItemCounts, quotes: string -> Attempt<real>, cap: real)
    requires forall n :: quotes(n).Ok? ==> quotes(n).value <= cap
    ensures MarketSum(names, c, quotes).Ok? ==>
      MarketSum(names, c, quotes).value <= Scale(cap, SumOver(names, c.qty))
  {
    if names != [] {
      var init, name := names[..|names| - 1], names[|names| - 1];
      MarketSumBound(init, c, quotes, cap);
      if MarketSum(names, c, quotes).Ok? {
        ScaleMonotone(quotes(name).value, cap, c.Count(name));
        ScaleAdd(cap, SumOver(init, c.qty), c.Count(name));
      }
    }
  }

  /**
   * With every price at most cap, the market value of an inventory is at most
   * cap times the number of its assets (Scale is that product, by ScaleIsProduct).
   */
  lemma MarketValueBound(inv: Payload, market: string -> PriceReply, cap: real)
    requires cap >= 0.0
    requires forall n :: PriceOverview(market(n)).Ok? ==> PriceOverview(market(n)).value <= cap
    ensures MarketValue(Ok(inv), market).Ok? ==>
      0.0 <= MarketValue(Ok(inv), market).value <= Scale(cap, |inv.assets|)
  {
    var counts, quotes := Tally(AssetNames(inv)), Quotes(market);
    assert MarketValue(Ok(inv), market) == MarketSum(counts.names, counts, quotes);
    MarketSumBound(counts.names, counts, quotes, cap);
    TallyTotal(AssetNames(inv));
    if MarketValue(Ok(inv), market).Ok? {
      CapBound(MarketValue(Ok(inv), market).value, cap, Total(counts), |inv.assets|);
    }
  }

  lemma CapBound(v: real, cap: real, units: nat, bound: nat)
    requires cap >= 0.0 && v <= Scale(cap, units) && units <= bound
    ensures v <= Scale(cap, bound)
  {
    ScaleAdd(cap, units, bound - units);
  }

  /** When every price request answers with a status other than 200, the market value is 0. */
  lemma UnpricedMarketIsZero(inv: Payload, market: string -> PriceReply)
    requires forall n :: market(n).Response? && market(n).status != 200
    ensures MarketValue(Ok(inv), market) == Ok(0.0)
  {
    forall n
      ensures PriceOverview(market(n)) == Ok(0.0)
    {
      FailedStatusIsFree(market(n).status, market(n).body);
    }
    MarketValueRaises(inv, market, Tally(AssetNames(inv)));
    MarketValueBound(inv, market, 0.0);
    ScaleOfZero(|inv.assets|);
  }

  /** Once a prefix of the sum has raised, the whole sum raises. */
  lemma MarketSumRaisedPrefix(names: seq<string>, k: nat, c: ItemCounts, quotes: string -> Attempt<real>)
    requires k <= |names| && MarketSum(names[..k], c, quotes).Raised?
    ensures MarketSum(names, c, quotes).Raised?
  {
    MarketSumRaises(names[..k], c, quotes);
    var i :| 0 <= i < k && quotes(names[..k][i]).Raised?;
    assert names[..k][i] == names[i];
    MarketSumRaises(names, c, quotes);
  }

  /** One turn of the pricing loop: a raise ends the whole sum, a price adds its line. */
  lemma PriceStep(names: seq<string>, i: nat, c: ItemCounts, quotes: string -> Attempt<real>, total: real, quote: Attempt<real>)
    requires i < |names| && MarketSum(names[..i], c, quotes) == Ok(total) && quote == quotes(names[i])
    ensures quote.Raised? ==> MarketSum(names, c, quotes).Raised?
    ensures quote.Ok? ==>
      MarketSum(names[..i + 1], c, quotes) == Ok(total + Scale(quote.value, c.Count(names[i])))
  {
    MarketSumStep(names, i, c, quotes);
    if quote.Raised? {
      MarketSumRaisedPrefix(names, i + 1, c, quotes);
    }
  }

  /** `price * qty`: the value of the units of one item. */
  function Line(price: real, qty: nat): (v: real)
    ensures v == Scale(price, qty)
  {
    ScaleIsProduct(price, qty);
    price * qty as real
  }

  /** The pricing loop of compute_value_via_market: `total += price * qty` per name, stopping at the first raise. */
  method PriceCounts(counts: ItemCounts, quotes: string -> Attempt<real>) returns (r: Attempt<real>)
    requires counts.WellFormed()
    ensures r == MarketSum(counts.names, counts, quotes)
  {
    var total := 0.0;
    var i := 0;
    while i < |counts.names|
      invariant 0 <= i <= |counts.names|
      invariant MarketSum(counts.names[..i], counts, quotes) == Ok(total)
    {
      var name := counts.names[i];
      var qty := counts.qty[name];
      assert qty == counts.Count(name);
      var price := quotes(name);
      PriceStep(counts.names, i, counts, quotes, total, price);
      if price.Raised? {
        return Raised;
      }
      total := total + Line(price.value, qty);
      i := i + 1;
    }
    assert counts.names[..i] == counts.names;
    return Ok(total);
  }

  /** `compute_value_via_market(steam_id)`, with the download and the price replies as inputs. */
  method ComputeValueViaMarket(inventory: Attempt<Payload>, market: string -> PriceReply) returns (r: Attempt<real>)
    ensures r == MarketValue(inventory, market)
  {
    if inventory.Raised? {
      return Raised;
    }
    var counts := GetItemCounts(inventory.value);
    TallyWellFormed(AssetNames(inventory.value));
    r := PriceCounts(counts, Quotes(market));
  }

  // ---------------------------------------------------------------------------
  // get_value_for_account and main

  /**
   * One configured account. backpack is what `try_csgobackpack_value` returned:
   * None when its request, its status, its JSON or the conversion failed, or
   * the reply had no value. inventory is the outcome of the inventory download,
   * and market gives the reply to the price request of each item name.
   */
  datatype Account = Account(
    steamId: string,
    backpack: Option<real>,
    inventory: Attempt<Payload>,
    market: string -> PriceReply)

  predicate BackpackUsable(acc: Account) {
    acc.backpack.Some? && acc.backpack.value > 0.0
  }

  /** `get_value_for_account(steam_id)`: a positive CSGOBackpack total, else the market value. */
  function AccountValue(acc: Account): (r: Attempt<real>)
    ensures r.Ok? ==> r.value >= 0.0
  {
    if BackpackUsable(acc) then Ok(acc.backpack.value)
    else MarketValue(acc.inventory, acc.market)
  }

  /** A positive CSGOBackpack total is the value, and the inventory and the market are never consulted. */
  lemma BackpackFirst(acc: Account, inventory: Attempt<Payload>, market: string -> PriceReply)
    requires BackpackUsable(acc)
    ensures AccountValue(acc) == Ok(acc.backpack.value)
    ensures AccountValue(acc.(inventory := inventory, market := market)) == AccountValue(acc)
  {
  }

  /** A missing, zero or negative CSGOBackpack total counts as no total: the market value is used. */
  lemma MarketFallback(acc: Account)
    requires !BackpackUsable(acc)
    ensures AccountValue(acc) == MarketValue(acc.inventory, acc.market)
    ensures AccountValue(acc) == AccountValue(acc.(backpack := None))
  {
  }

  method GetValueForAccount(acc: Account) returns (r: Attempt<real>)
    ensures r == AccountValue(acc)
  {
    if acc.backpack.Some? && acc.backpack.value > 0.0 {
      return Ok(acc.backpack.value);
    }
    r := ComputeValueViaMarket(acc.inventory, acc.market);
  }

  /** The value main records for an account: 0 when its valuation raised. */
  function RecordedValue(acc: Account): (v: real)
    ensures v >= 0.0
    ensures AccountValue(acc).Raised? ==> v == 0.0
    ensures AccountValue(acc).Ok? ==> v == AccountValue(acc).value
  {
    match AccountValue(acc)
    case Ok(v) => v
    case Raised => 0.0
  }

  /** The `per_account` list: one (steam id, recorded value) pair per account, in order. */
  function Records(accounts: seq<Account>): (rs: seq<(string, real)>)
    ensures |rs| == |accounts|
  {
    seq(|accounts|, i requires 0 <= i < |accounts| => (accounts[i].steamId, RecordedValue(accounts[i])))
  }

  /** `sum(v for _, v in per_account)`. */
  function SumValues(rs: seq<(string, real)>): real {
    if rs == [] then 0.0 else SumValues(rs[..|rs| - 1]) + rs[|rs| - 1].1
  }

  lemma {:induction false} SumValuesAppend(a: seq<(string, real)>, b: seq<(string, real)>)
    ensures SumValues(a + b) == SumValues(a) + SumValues(b)
  {
    if b == [] {
      assert a + b == a;
    } else {
      var init := b[..|b| - 1];
      assert (a + b)[..|a + b| - 1] == a + init;
      assert (a + b)[|a + b| - 1] == b[|b| - 1];
      SumValuesAppend(a, init);
    }
  }

  lemma RecordsAppend(a: seq<Account>, b: seq<Account>)
    ensures Records(a + b) == Records(a) + Records(b)
  {
  }

  /** The grand total is never negative. */
  lemma {:induction false} RunTotalNonNegative(accounts: seq<Account>)
    ensures SumValues(Records(accounts)) >= 0.0
  {
    if accounts != [] {
      var init := accounts[..|accounts| - 1];
      RunTotalNonNegative(init);
      assert Records(accounts)[..|accounts| - 1] == Records(init);
    }
  }

  /** An account whose valuation raises adds nothing to the total and does not disturb the others. */
  lemma FailingAccountAddsNothing(before: seq<Account>, acc: Account, after: seq<Account>)
    requires AccountValue(acc).Raised?
    ensures SumValues(Records(before + [acc] + after)) == SumValues(Records(before + after))
  {
    RecordsAppend(before + [acc], after);
    RecordsAppend(before, [acc]);
    RecordsAppend(before, after);
    SumValuesAppend(Records(before + [acc]), Records(after));
    SumValuesAppend(Records(before), Records([acc]));
    SumValuesAppend(Records(before), Records(after));
    assert Records([acc]) == [] + [(acc.steamId, 0.0)];
  }

  /** The per-account records and the grand total of one run of main. */
  method RecordRun(accounts: seq<Account>) returns (perAccount: seq<(string, real)>, total: real)
    ensures perAccount == Records(accounts)
    ensures total == SumValues(perAccount)
  {
    perAccount := [];
    var i := 0;
    while i < |accounts|
      invariant 0 <= i <= |accounts|
      invariant perAccount == Records(accounts[..i])
    {
      var v := GetValueForAccount(accounts[i]);
      var val := if v.Ok? then v.value else 0.0;
      assert Records(accounts[..i + 1]) == Records(accounts[..i]) + [(accounts[i].steamId, val)];
      perAccount := perAccount + [(accounts[i].steamId, val)];
      i := i + 1;
    }
    assert accounts[..i] == accounts;

    total := 0.0;
    var j := 0;
    while j < |perAccount|
      invariant 0 <= j <= |perAccount|
      invariant total == SumValues(perAccount[..j])
    {
      assert perAccount[..j + 1][..j] == perAccount[..j];
      total := total + perAccount[j].1;
      j := j + 1;
    }
    assert perAccount[..j] == perAccount;
  }
}
