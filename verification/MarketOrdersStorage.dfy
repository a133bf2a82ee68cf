/** The order books of all subscribed markets: a batch replaces the books of the markets it names. */
module MarketOrdersStorage {
  import opened Exchange
  import opened Lists

  function Unnamed(batch: seq<OrderEntry>): OrderEntry -> bool {
    (o: OrderEntry) => !Names(batch, o.marketId)
  }

  function Among(ids: seq<string>): OrderEntry -> bool {
    (o: OrderEntry) => o.marketId in ids
  }

  function Merged(data: seq<OrderEntry>, batch: seq<OrderEntry>, filters: seq<string>, markets: set<string>): seq<OrderEntry> {
    Filter(data, Unnamed(batch))
    + Filter(batch, Admissible(filters, markets))
  }

  method NamedMarkets(batch: seq<OrderEntry>) returns (ids: seq<string>)
    ensures forall x :: x in ids <==> Names(batch, x)
  {
    ids := [];
    var i := 0;
    while i < |batch|
      invariant 0 <= i <= |batch|
      invariant forall x :: x in ids <==> Names(batch[..i], x)
    {
      NamesAppend(batch, i);
      if batch[i].marketId !in ids {
        ids := ids + [batch[i].marketId];
      }
      i := i + 1;
    }
    assert batch[..i] == batch;
  }

  class Storage {
    var data: seq<OrderEntry>
    var filters: seq<string>

    /** Every stored order belongs to a subscribed market. */
    ghost predicate Subscribed()
      reads this
    {
      forall o | o in data :: o.marketId in filters
    }

    constructor ()
      ensures data == [] && filters == [] && Subscribed()
    {
      data, filters := [], [];
    }

    method Insert(id: string)
      modifies this
      ensures filters == if id in old(filters) then old(filters) else old(filters) + [id]
      ensures data == old(data) && (old(Subscribed()) ==> Subscribed())
    {
      if id !in filters {
        filters := filters + [id];
      }
    }

    /** The last loop of `merge`. */
    method AppendAdmissible(batch: seq<OrderEntry>, markets: set<string>)
      modifies this`data
      ensures data == old(data) + Filter(batch, Admissible(filters, markets))
    {
      var i := 0;
      while i < |batch|
        invariant 0 <= i <= |batch|
        invariant data == old(data) + Filter(batch[..i], Admissible(filters, markets))
      {
        var item := batch[i];
        assert batch[..i+1] == batch[..i] + [item];
        FilterConcat(batch[..i], [item], Admissible(filters, markets));
        if item.marketId in filters {
          if item.marketId in markets {
            data := data + [item];
          }
        }
        i := i + 1;
      }
      assert batch[..i] == batch;
    }

    /** `merge`: collect the markets named, erase their books, append what is admissible. */
    method Merge(batch: seq<OrderEntry>, markets: set<string>)
      modifies this`data
      ensures data == Merged(old(data), batch, filters, markets)
      ensures old(Subscribed()) ==> Subscribed()
    {
      var ids := NamedMarkets(batch);
      data := EraseIf(data, Among(ids));
      FilterSame(old(data), Not(Among(ids)), Unnamed(batch));
      AppendAdmissible(batch, markets);
      FilterMembers(old(data), Unnamed(batch));
      FilterMembers(batch, Admissible(filters, markets));
    }

    method Remove(id: string)
      modifies this
      ensures data == Filter(old(data), Not(InMarket(id)))
      ensures filters == Filter(old(filters), Not(Is(id)))
      ensures forall o :: o in data <==> o in old(data) && o.marketId != id
      ensures forall x :: x in filters <==> x in old(filters) && x != id
      ensures old(Subscribed()) ==> Subscribed()
    {
      filters := EraseIf(filters, Is(id));
      data := EraseIf(data, InMarket(id));
      FilterMembers(old(data), Not(InMarket(id)));
      FilterMembers(old(filters), Not(Is(id)));
    }
  }

  /** The book of one market, in stored order. */
  function Book(data: seq<OrderEntry>, id: string): seq<OrderEntry> {
    Filter(data, InMarket(id))
  }

  /** A merge replaces exactly the books it names: the book of a named market becomes that market's part of the batch
      if it is subscribed and known, and nothing otherwise; every other book is as it was, order included. */
  lemma MergeReplacesNamedBooks(data: seq<OrderEntry>, batch: seq<OrderEntry>, filters: seq<string>, markets: set<string>, id: string)
    ensures Book(Merged(data, batch, filters, markets), id) ==
            if !Names(batch, id) then Book(data, id)
            else if id in filters && id in markets then Book(batch, id) else []
  {
    var kept, admitted := Unnamed(batch), Admissible(filters, markets);
    var own := InMarket(id);
    FilterConcat(Filter(data, kept), Filter(batch, admitted), own);
    FilterTwice(data, kept, own);
    FilterTwice(batch, admitted, own);
    var both, both' := And(kept, own), And(admitted, own);
    if Names(batch, id) {
      FilterAll(data, both);
      if id in filters && id in markets {
        FilterSame(batch, both', own);
      } else {
        FilterAll(batch, both');
      }
    } else {
      FilterSame(data, both, own);
      forall o | o in batch ensures !both'(o) {
        var i :| 0 <= i < |batch| && batch[i] == o;
      }
      FilterAll(batch, both');
      assert Book(data, id) + [] == Book(data, id);
    }
  }

  /** Receiving the same books again changes nothing. */
  lemma MergeIdempotent(data: seq<OrderEntry>, batch: seq<OrderEntry>, filters: seq<string>, markets: set<string>)
    ensures var once := Merged(data, batch, filters, markets); Merged(once, batch, filters, markets) == once
  {
    var kept, admitted := Unnamed(batch), Admissible(filters, markets);
    FilterConcat(Filter(data, kept), Filter(batch, admitted), kept);
    FilterMembers(data, kept);
    FilterMembers(batch, admitted);
    FilterAll(Filter(data, kept), kept);
    forall o | o in Filter(batch, admitted) ensures !kept(o) {
      var i :| 0 <= i < |batch| && batch[i] == o;
    }
    FilterAll(Filter(batch, admitted), kept);
    assert Filter(data, kept) + [] == Filter(data, kept);
  }
}
