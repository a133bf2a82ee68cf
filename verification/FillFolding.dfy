/** `processUserTradeHistory`: the exchange reports every partial fill; fills of one order become one trade. */
module FillFolding {
  import opened Exchange
  import opened Lists

  const BINANCE_FEE: real := 0.00075

  datatype Fill = Fill(orderId: nat, symbol: string, price: real, qty: real, quoteQty: real, time: nat, isBuyer: bool)

  function FirstEntry(f: Fill): OrderEntry {
    OrderEntry(f.symbol,
               OrderConfig(f.orderId, if f.isBuyer then Buy else Sell, f.price, f.qty, f.quoteQty,
                           f.quoteQty * BINANCE_FEE, 0.0, f.time, f.time))
  }

  function AddFill(orders: seq<OrderEntry>, f: Fill): seq<OrderEntry> {
    var k := FindIf(orders, HasId(f.orderId));
    if k < |orders| then
      var p := orders[k].params;
      orders[k := orders[k].(params := p.(currencyVolume := p.currencyVolume + f.qty, baseVolume := p.baseVolume + f.quoteQty))]
    else orders + [FirstEntry(f)]
  }

  function Folded(fills: seq<Fill>): seq<OrderEntry> {
    if fills == [] then [] else AddFill(Folded(fills[..|fills|-1]), fills[|fills|-1])
  }

  method FoldFills(fills: seq<Fill>) returns (orders: seq<OrderEntry>)
    ensures orders == Folded(fills)
  {
    orders := [];
    var i := 0;
    while i < |fills|
      invariant 0 <= i <= |fills| && orders == Folded(fills[..i])
    {
      var f := fills[i];
      assert fills[..i+1][..i] == fills[..i];
      var found := Find(orders, HasId(f.orderId));
      if found < |orders| {
        var p := orders[found].params;
        orders := orders[found := orders[found].(params :=
                    p.(currencyVolume := p.currencyVolume + f.qty, baseVolume := p.baseVolume + f.quoteQty))];
      } else {
        orders := orders + [FirstEntry(f)];
      }
      i := i + 1;
    }
    assert fills[..i] == fills;
  }

  // ----- What folding means, fill by fill

  /** Ids in the order they first appear. */
  function FirstSeen(fills: seq<Fill>): seq<nat> {
    if fills == [] then []
    else
      var ids, id := FirstSeen(fills[..|fills|-1]), fills[|fills|-1].orderId;
      if id in ids then ids else ids + [id]
  }

  function QtyOf(fills: seq<Fill>, id: nat): real {
    if fills == [] then 0.0
    else QtyOf(fills[..|fills|-1], id) + if fills[|fills|-1].orderId == id then fills[|fills|-1].qty else 0.0
  }

  function QuoteOf(fills: seq<Fill>, id: nat): real {
    if fills == [] then 0.0
    else QuoteOf(fills[..|fills|-1], id) + if fills[|fills|-1].orderId == id then fills[|fills|-1].quoteQty else 0.0
  }

  function CountOf(fills: seq<Fill>, id: nat): nat {
    if fills == [] then 0
    else CountOf(fills[..|fills|-1], id) + if fills[|fills|-1].orderId == id then 1 else 0
  }

  /** The index of the order's first fill. */
  function FirstFill(fills: seq<Fill>, id: nat): nat {
    FindIf(fills, (f: Fill) => f.orderId == id)
  }

  ghost predicate Represents(o: OrderEntry, fills: seq<Fill>, id: nat) {
    var k := FirstFill(fills, id);
    && k < |fills|
    && var f, p := fills[k], o.params;
       && o.marketId == f.symbol && p.orderId == id
       && (p.side.Buy? <==> f.isBuyer)
       && p.price == f.price && p.time == f.time && p.updated == f.time
       && p.currencyVolume == QtyOf(fills, id) && p.baseVolume == QuoteOf(fills, id)
       && p.fee == f.quoteQty * 0.00075 && p.remaining == 0.0
  }

  lemma {:induction false} NeverSeen(fills: seq<Fill>, id: nat)
    requires id !in FirstSeen(fills)
    ensures QtyOf(fills, id) == 0.0 && QuoteOf(fills, id) == 0.0 && CountOf(fills, id) == 0
    ensures FirstFill(fills, id) == |fills|
  {
    if fills != [] {
      NeverSeen(fills[..|fills|-1], id);
      FirstFillGrows(fills, id);
    }
  }

  lemma FirstFillGrows(fills: seq<Fill>, id: nat)
    requires fills != []
    ensures var k := FirstFill(fills[..|fills|-1], id);
            FirstFill(fills, id) == if k < |fills| - 1 then k
                                    else if fills[|fills|-1].orderId == id then k else |fills|
  {}

  predicate Distinct(ids: seq<nat>) {
    forall i, j | 0 <= i < j < |ids| :: ids[i] != ids[j]
  }

  lemma {:induction false} FirstSeenDistinct(fills: seq<Fill>)
    ensures Distinct(FirstSeen(fills))
  {
    if fills != [] {
      FirstSeenDistinct(fills[..|fills|-1]);
    }
  }

  /** One more fill leaves the other orders' records alone and adds to its own. */
  lemma StillRepresents(o: OrderEntry, fills: seq<Fill>, id: nat)
    requires fills != []
    requires var before := fills[..|fills|-1]; Represents(o, before, id)
    ensures var f := fills[|fills|-1];
            var p := o.params;
            Represents(if f.orderId == id
                       then o.(params := p.(currencyVolume := p.currencyVolume + f.qty, baseVolume := p.baseVolume + f.quoteQty))
                       else o, fills, id)
  {}

  lemma RepresentsId(o: OrderEntry, fills: seq<Fill>, id: nat)
    requires Represents(o, fills, id)
    ensures o.params.orderId == id
  {}

  lemma NewRepresents(fills: seq<Fill>)
    requires fills != [] && fills[|fills|-1].orderId !in FirstSeen(fills[..|fills|-1])
    ensures Represents(FirstEntry(fills[|fills|-1]), fills, fills[|fills|-1].orderId)
  {
    var id := fills[|fills|-1].orderId;
    NeverSeen(fills[..|fills|-1], id);
    FirstFillGrows(fills, id);
  }

  /** One trade per order id, in first-seen order, carrying the sums of its fills and the price, time and side of its
      first one; its fee is the fee on the first fill alone. */
  lemma {:induction false} FoldingRepresents(fills: seq<Fill>)
    ensures |Folded(fills)| == |FirstSeen(fills)|
    ensures Distinct(FirstSeen(fills))
    ensures forall i | 0 <= i < |Folded(fills)| :: Represents(Folded(fills)[i], fills, FirstSeen(fills)[i])
  {
    hide Represents, FirstEntry;
    FirstSeenDistinct(fills);
    if fills != [] {
      var before, f := fills[..|fills|-1], fills[|fills|-1];
      FoldingRepresents(before);
      FirstSeenDistinct(before);
      var orders, ids := Folded(before), FirstSeen(before);
      forall i | 0 <= i < |orders| ensures orders[i].params.orderId == ids[i] {
        RepresentsId(orders[i], before, ids[i]);
      }
      var k := FindIf(orders, HasId(f.orderId));
      forall i | 0 <= i < |orders| ensures Represents(Folded(fills)[i], fills, ids[i]) {
        StillRepresents(orders[i], fills, ids[i]);
        assert ids[i] == f.orderId <==> i == k;
      }
      if k == |orders| {
        assert f.orderId !in ids;
        NewRepresents(fills);
      }
    }
  }

  // ----- Totals

  function TotalQty(fills: seq<Fill>): real {
    if fills == [] then 0.0 else TotalQty(fills[..|fills|-1]) + fills[|fills|-1].qty
  }

  function TotalQuote(fills: seq<Fill>): real {
    if fills == [] then 0.0 else TotalQuote(fills[..|fills|-1]) + fills[|fills|-1].quoteQty
  }

  function TotalVolume(orders: seq<OrderEntry>): real {
    if orders == [] then 0.0 else TotalVolume(orders[..|orders|-1]) + orders[|orders|-1].params.currencyVolume
  }

  function TotalBase(orders: seq<OrderEntry>): real {
    if orders == [] then 0.0 else TotalBase(orders[..|orders|-1]) + orders[|orders|-1].params.baseVolume
  }

  lemma {:induction false} TotalsUpdate(orders: seq<OrderEntry>, k: nat, o: OrderEntry)
    requires k < |orders|
    ensures TotalVolume(orders[k := o]) == TotalVolume(orders) - orders[k].params.currencyVolume + o.params.currencyVolume
    ensures TotalBase(orders[k := o]) == TotalBase(orders) - orders[k].params.baseVolume + o.params.baseVolume
  {
    var n := |orders| - 1;
    if k == n {
      assert orders[k := o][..n] == orders[..n];
    } else {
      TotalsUpdate(orders[..n], k, o);
      assert orders[k := o][..n] == orders[..n][k := o];
    }
  }

  lemma AddFillTotals(orders: seq<OrderEntry>, f: Fill)
    ensures TotalVolume(AddFill(orders, f)) == TotalVolume(orders) + f.qty
    ensures TotalBase(AddFill(orders, f)) == TotalBase(orders) + f.quoteQty
  {
    var k := FindIf(orders, HasId(f.orderId));
    if k < |orders| {
      TotalsUpdate(orders, k, AddFill(orders, f)[k]);
    } else {
      assert (orders + [FirstEntry(f)])[..|orders|] == orders;
    }
  }

  /** Folding neither loses nor invents volume, in either currency. */
  lemma {:induction false} FoldingConserves(fills: seq<Fill>)
    ensures TotalVolume(Folded(fills)) == TotalQty(fills)
    ensures TotalBase(Folded(fills)) == TotalQuote(fills)
  {
    hide AddFill;
    if fills != [] {
      FoldingConserves(fills[..|fills|-1]);
      AddFillTotals(Folded(fills[..|fills|-1]), fills[|fills|-1]);
    }
  }

  // ----- The fee

  lemma {:induction false} QuoteAtLeastFirst(fills: seq<Fill>, id: nat)
    requires forall i | 0 <= i < |fills| :: fills[i].quoteQty > 0.0
    requires FirstFill(fills, id) < |fills|
    ensures CountOf(fills, id) >= 1
    ensures CountOf(fills, id) == 1 <==> QuoteOf(fills, id) == fills[FirstFill(fills, id)].quoteQty
    ensures QuoteOf(fills, id) >= fills[FirstFill(fills, id)].quoteQty
  {
    var n := |fills| - 1;
    FirstFillGrows(fills, id);
    if FirstFill(fills[..n], id) < n {
      QuoteAtLeastFirst(fills[..n], id);
    } else {
      NoFillYet(fills[..n], id);
    }
  }

  lemma {:induction false} NoFillYet(fills: seq<Fill>, id: nat)
    requires FirstFill(fills, id) == |fills|
    ensures QuoteOf(fills, id) == 0.0 && CountOf(fills, id) == 0
  {
    if fills != [] {
      FirstFillGrows(fills, id);
      NoFillYet(fills[..|fills|-1], id);
    }
  }

  /** The folded trade's fee is the fee on what was traded exactly when the order filled in one piece; the fee of
      every later fill is dropped, so otherwise the recorded cost is too low. */
  lemma FeeIsWholeIff(fills: seq<Fill>, k: nat)
    requires k < |Folded(fills)|
    requires forall i | 0 <= i < |fills| :: fills[i].quoteQty > 0.0
    ensures k < |FirstSeen(fills)|
    ensures var p := Folded(fills)[k].params;
            && p.fee <= p.baseVolume * 0.00075
            && (p.fee == p.baseVolume * 0.00075 <==> CountOf(fills, FirstSeen(fills)[k]) == 1)
  {
    FoldingRepresents(fills);
    assert Represents(Folded(fills)[k], fills, FirstSeen(fills)[k]);
    QuoteAtLeastFirst(fills, FirstSeen(fills)[k]);
  }
}
