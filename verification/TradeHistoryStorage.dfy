/** The trade history of all subscribed markets: the first report of a trade wins. `markets` are the ids the markets
    storage knows when a batch arrives. */
module TradeHistoryStorage {
  import opened Exchange
  import opened Lists

  function MergedOne(data: seq<OrderEntry>, item: OrderEntry, filters: seq<string>, markets: set<string>): seq<OrderEntry> {
    if Lookup(data, HasId(item.params.orderId)).None? && Admissible(filters, markets)(item) then data + [item] else data
  }

  function Merged(data: seq<OrderEntry>, batch: seq<OrderEntry>, filters: seq<string>, markets: set<string>): seq<OrderEntry> {
    if batch == [] then data
    else MergedOne(Merged(data, batch[..|batch|-1], filters, markets), batch[|batch|-1], filters, markets)
  }

  class Storage {
    var data: seq<OrderEntry>
    var filters: seq<string>

    ghost predicate Subscribed()
      reads this
    {
      forall o | o in data :: o.marketId in filters
    }

    constructor ()
      ensures data == [] && filters == [] && Subscribed()
    {
      data, filters := [], [];
    }

    method Insert(id: string)
      modifies this
      ensures filters == if id in old(filters) then old(filters) else old(filters) + [id]
      ensures data == old(data) && (old(Subscribed()) ==> Subscribed())
    {
      if id !in filters {
        filters := filters + [id];
      }
    }

    method Merge(batch: seq<OrderEntry>, markets: set<string>)
      modifies this`data
      ensures data == Merged(old(data), batch, filters, markets)
      ensures old(Subscribed()) ==> Subscribed()
    {
      var i := 0;
      while i < |batch|
        invariant 0 <= i <= |batch|
        invariant data == Merged(old(data), batch[..i], filters, markets)
      {
        var item := batch[i];
        assert batch[..i+1][..i] == batch[..i];
        var found := Find(data, HasId(item.params.orderId));
        if found == |data| {
          if item.marketId in filters {
            if item.marketId in markets {
              data := data + [item];
            }
          }
        }
        i := i + 1;
      }
      assert batch[..i] == batch;
      if old(Subscribed()) {
        MergeStaysSubscribed(old(data), batch, filters, markets);
      }
    }

    method Remove(id: string)
      modifies this
      ensures data == Filter(old(data), Not(InMarket(id)))
      ensures filters == Filter(old(filters), Not(Is(id)))
      ensures forall o :: o in data <==> o in old(data) && o.marketId != id
      ensures forall x :: x in filters <==> x in old(filters) && x != id
      ensures old(Subscribed()) ==> Subscribed()
    {
      filters := EraseIf(filters, Is(id));
      data := EraseIf(data, InMarket(id));
      FilterMembers(old(data), Not(InMarket(id)));
      FilterMembers(old(filters), Not(Is(id)));
    }
  }

  // ----- What merging means

  lemma {:induction false} MergeStaysSubscribed(data: seq<OrderEntry>, batch: seq<OrderEntry>, filters: seq<string>, markets: set<string>)
    requires forall o | o in data :: o.marketId in filters
    ensures forall o | o in Merged(data, batch, filters, markets) :: o.marketId in filters
  {
    if batch != [] {
      MergeStaysSubscribed(data, batch[..|batch|-1], filters, markets);
    }
  }

  /** Merging never alters, moves or drops a stored trade, and never stores an id twice. */
  lemma {:induction false} MergeOnlyAppends(data: seq<OrderEntry>, batch: seq<OrderEntry>, filters: seq<string>, markets: set<string>)
    ensures data <= Merged(data, batch, filters, markets)
    ensures UniqueIds(data) ==> UniqueIds(Merged(data, batch, filters, markets))
  {
    if batch != [] {
      MergeOnlyAppends(data, batch[..|batch|-1], filters, markets);
    }
  }

  /** First write wins: a trade is found under the stored record if there was one, otherwise under the first admissible
      entry of the batch with its id. */
  lemma {:induction false} FirstWriteWins(data: seq<OrderEntry>, batch: seq<OrderEntry>, filters: seq<string>, markets: set<string>, id: nat)
    ensures Lookup(Merged(data, batch, filters, markets), HasId(id)) ==
            if Lookup(data, HasId(id)).Some? then Lookup(data, HasId(id))
            else Lookup(Filter(batch, Admissible(filters, markets)), HasId(id))
  {
    var p := Admissible(filters, markets);
    if batch != [] {
      var before, item := batch[..|batch|-1], batch[|batch|-1];
      FirstWriteWins(data, before, filters, markets, id);
      var m := Merged(data, before, filters, markets);
      LookupAppend(m, item, HasId(id));
      FilterConcat(before, [item], p);
      assert before + [item] == batch;
      LookupAppend(Filter(before, p), item, HasId(id));
      assert Filter([item], p) == if p(item) then [item] else [];
      assert Filter(before, p) + [] == Filter(before, p);
    }
  }

  /** A trade is stored afterwards if and only if it was, or the batch reports it for a subscribed and known market. */
  lemma StoredIff(data: seq<OrderEntry>, batch: seq<OrderEntry>, filters: seq<string>, markets: set<string>, id: nat)
    ensures (exists i :: 0 <= i < |Merged(data, batch, filters, markets)|
                         && Merged(data, batch, filters, markets)[i].params.orderId == id) <==>
            || (exists i :: 0 <= i < |data| && data[i].params.orderId == id)
            || (exists i :: 0 <= i < |batch| && batch[i].params.orderId == id
                            && batch[i].marketId in filters && batch[i].marketId in markets)
  {
    var p := Admissible(filters, markets);
    FirstWriteWins(data, batch, filters, markets, id);
    FoundIff(data, id);
    FoundIff(Merged(data, batch, filters, markets), id);
    FoundIff(Filter(batch, p), id);
    FilterMembers(batch, p);
    if exists i :: 0 <= i < |batch| && batch[i].params.orderId == id && p(batch[i]) {
      var i :| 0 <= i < |batch| && batch[i].params.orderId == id && p(batch[i]);
      assert batch[i] in Filter(batch, p);
    }
    if i :| 0 <= i < |Filter(batch, p)| && Filter(batch, p)[i].params.orderId == id {
      assert Filter(batch, p)[i] in batch;
    }
  }

  lemma FoundIff(data: seq<OrderEntry>, id: nat)
    ensures Lookup(data, HasId(id)).Some? <==> exists i :: 0 <= i < |data| && data[i].params.orderId == id
  {
    var k := FindIf(data, HasId(id));
    assert forall i | 0 <= i < |data| :: HasId(id)(data[i]) <==> data[i].params.orderId == id;
  }

  lemma {:induction false} NothingNew(data: seq<OrderEntry>, batch: seq<OrderEntry>, filters: seq<string>, markets: set<string>)
    requires forall o | o in batch :: Admissible(filters, markets)(o) ==> Lookup(data, HasId(o.params.orderId)).Some?
    ensures Merged(data, batch, filters, markets) == data
  {
    if batch != [] {
      NothingNew(data, batch[..|batch|-1], filters, markets);
    }
  }

  /** Receiving the same batch again changes nothing. */
  lemma MergeIdempotent(data: seq<OrderEntry>, batch: seq<OrderEntry>, filters: seq<string>, markets: set<string>)
    ensures var once := Merged(data, batch, filters, markets); Merged(once, batch, filters, markets) == once
  {
    var once := Merged(data, batch, filters, markets);
    var p := Admissible(filters, markets);
    forall o | o in batch && Admissible(filters, markets)(o) ensures Lookup(once, HasId(o.params.orderId)).Some? {
      FirstWriteWins(data, batch, filters, markets, o.params.orderId);
      FilterMembers(batch, p);
      var i :| 0 <= i < |Filter(batch, p)| && Filter(batch, p)[i] == o;
    }
    NothingNew(once, batch, filters, markets);
  }

  /** `filter` copies the trades of one market and sorts them newest first with an unstable sort. */
  ghost predicate FilterResult(data: seq<OrderEntry>, id: string, r: seq<OrderEntry>) {
    && multiset(r) == multiset(Filter(data, InMarket(id)))
    && NewestFirst(r, TimeOf())
  }

  /** The history the engine scans is determined by the stored trades when no two of a market share a time. */
  lemma HistoryIsDetermined(data: seq<OrderEntry>, id: string, r: seq<OrderEntry>, r': seq<OrderEntry>)
    requires FilterResult(data, id, r) && FilterResult(data, id, r')
    requires DistinctTimes(r, TimeOf())
    ensures r == r'
    ensures forall i, j | 0 <= i < j < |r| :: r[j].params.time < r[i].params.time
    ensures forall o :: o in r <==> o in data && o.marketId == id
  {
    FilterMembers(data, InMarket(id));
    assert forall o :: o in r <==> o in multiset(r);
    assert forall o :: o in Filter(data, InMarket(id)) <==> o in multiset(Filter(data, InMarket(id)));
    SortIsDetermined(r, r', TimeOf());
    forall i, j | 0 <= i < j < |r| ensures r[j].params.time < r[i].params.time {
      assert TimeOf()(r[i]) != TimeOf()(r[j]);
    }
  }
}
