/** Open orders of all markets. A batch re-reports some of them; orders it does not mention stay. */
module OpenOrdersStorage {
  import opened Exchange
  import opened Lists

  predicate Reports(batch: seq<OrderEntry>, id: nat) {
    exists i | 0 <= i < |batch| :: batch[i].params.orderId == id
  }

  function Reported(batch: seq<OrderEntry>): OrderEntry -> bool {
    (o: OrderEntry) => Reports(batch, o.params.orderId)
  }

  /** Reported orders whose stored market is one the batch names: these are dropped and stored anew. */
  function Replaced(batch: seq<OrderEntry>): OrderEntry -> bool {
    (o: OrderEntry) => Names(batch, o.marketId) && Reports(batch, o.params.orderId)
  }

  /** `Order::setConfig`: zero amounts are taken as missing; id and market stay. */
  function Configured(was: OrderConfig, now: OrderConfig): OrderConfig {
    OrderConfig(was.orderId, now.side,
                if now.price == 0.0 then was.price else now.price,
                if now.currencyVolume == 0.0 then was.currencyVolume else now.currencyVolume,
                if now.baseVolume == 0.0 then was.baseVolume else now.baseVolume,
                if now.fee == 0.0 then was.fee else now.fee,
                now.remaining, now.time, now.updated)
  }

  function StoredOne(data: seq<OrderEntry>, item: OrderEntry, markets: set<string>): seq<OrderEntry> {
    var k := FindIf(data, HasId(item.params.orderId));
    if k == |data| then if item.marketId in markets then data + [item] else data
    else if item.params.updated >= data[k].params.updated then
      data[k := data[k].(params := Configured(data[k].params, item.params))]
    else data
  }

  function StoredAll(data: seq<OrderEntry>, batch: seq<OrderEntry>, markets: set<string>): seq<OrderEntry> {
    if batch == [] then data
    else StoredOne(StoredAll(data, batch[..|batch|-1], markets), batch[|batch|-1], markets)
  }

  function Merged(data: seq<OrderEntry>, batch: seq<OrderEntry>, markets: set<string>): seq<OrderEntry> {
    StoredAll(Filter(data, Not(Replaced(batch))), batch, markets)
  }

  class Storage {
    var data: seq<OrderEntry>

    constructor ()
      ensures data == []
    {
      data := [];
    }

    /** The stored orders of the markets a batch names, each once. */
    method OrdersOfNamed(batch: seq<OrderEntry>) returns (filtered: seq<OrderEntry>)
      ensures forall o :: o in filtered <==> o in data && Names(batch, o.marketId)
    {
      filtered := [];
      var i := 0;
      while i < |batch|
        invariant 0 <= i <= |batch|
        invariant forall o :: o in filtered <==> o in data && Names(batch[..i], o.marketId)
      {
        ghost var before := filtered;
        var j := 0;
        while j < |data|
          invariant 0 <= j <= |data|
          invariant forall o :: o in filtered <==> o in before || (o in data[..j] && o.marketId == batch[i].marketId)
        {
          assert data[..j+1] == data[..j] + [data[j]];
          if batch[i].marketId == data[j].marketId && data[j] !in filtered {
            filtered := filtered + [data[j]];
          }
          j := j + 1;
        }
        assert data[..j] == data;
        NamesAppend(batch, i);
        i := i + 1;
      }
      assert batch[..i] == batch;
    }

    /** The first part of `merge`: of the orders in the named markets, those the batch reports are removed. */
    method DropReplaced(batch: seq<OrderEntry>)
      requires UniqueIds(data)
      modifies this
      ensures data == Filter(old(data), Not(Replaced(batch))) && UniqueIds(data)
    {
      var filtered := OrdersOfNamed(batch);
      FilterMembers(filtered, Not(Not(Reported(batch))));
      filtered := EraseIf(filtered, Not(Reported(batch)));
      assert forall o :: o in filtered <==> o in data && Replaced(batch)(o);
      FilterAll(data, NotAmong([]));
      var i := 0;
      while i < |filtered|
        invariant 0 <= i <= |filtered| && UniqueIds(data)
        invariant data == Filter(old(data), NotAmong(filtered[..i]))
      {
        data := RemoveOne(data, filtered[i]);
        NotAmongAppend(old(data), filtered, i);
        i := i + 1;
      }
      assert filtered[..i] == filtered;
      FilterSame(old(data), NotAmong(filtered), Not(Replaced(batch)));
    }

    method Merge(batch: seq<OrderEntry>, markets: set<string>)
      requires UniqueIds(data)
      modifies this
      ensures data == Merged(old(data), batch, markets) && UniqueIds(data)
    {
      DropReplaced(batch);
      ghost var kept := data;
      var i := 0;
      while i < |batch|
        invariant 0 <= i <= |batch| && data == StoredAll(kept, batch[..i], markets)
      {
        var item := batch[i];
        assert batch[..i+1][..i] == batch[..i];
        var found := Find(data, HasId(item.params.orderId));
        if found == |data| {
          if item.marketId in markets {
            data := data + [item];
          }
        } else if item.params.updated >= data[found].params.updated {
          data := data[found := data[found].(params := Configured(data[found].params, item.params))];
        }
        i := i + 1;
      }
      assert batch[..i] == batch;
      IdsStayUnique(old(data), batch, markets);
    }

    method Remove(ids: seq<nat>)
      requires UniqueIds(data)
      modifies this
      ensures data == Filter(old(data), Not(IdAmong(ids))) && UniqueIds(data)
      ensures forall o :: o in data <==> o in old(data) && o.params.orderId !in ids
    {
      FilterMembers(data, Not(IdAmong(ids)));
      FilterUnique(data, Not(IdAmong(ids)));
      data := EraseIf(data, IdAmong(ids));
    }
  }

  function IdAmong(ids: seq<nat>): OrderEntry -> bool { (o: OrderEntry) => o.params.orderId in ids }
  function NotAmong(s: seq<OrderEntry>): OrderEntry -> bool { (o: OrderEntry) => o !in s }
  function Other(x: OrderEntry): OrderEntry -> bool { (o: OrderEntry) => o != x }

  /** `removeOne`: the first occurrence, which is the only one. */
  method RemoveOne(s: seq<OrderEntry>, x: OrderEntry) returns (r: seq<OrderEntry>)
    requires UniqueIds(s)
    ensures r == Filter(s, Other(x)) && UniqueIds(r)
  {
    var k := Find(s, Not(Other(x)));
    r := s;
    if k < |s| {
      r := s[..k] + s[k+1..];
      assert s[k].params.orderId == x.params.orderId;
      FilterCutsOut(s, k, Other(x));
    } else {
      FilterAll(s, Other(x));
    }
  }

  lemma NotAmongAppend(s: seq<OrderEntry>, filtered: seq<OrderEntry>, i: nat)
    requires i < |filtered|
    ensures Filter(Filter(s, NotAmong(filtered[..i])), Other(filtered[i])) == Filter(s, NotAmong(filtered[..i+1]))
  {
    assert filtered[..i+1] == filtered[..i] + [filtered[i]];
    FilterTwice(s, NotAmong(filtered[..i]), Other(filtered[i]));
    FilterSame(s, And(NotAmong(filtered[..i]), Other(filtered[i])), NotAmong(filtered[..i+1]));
  }

  // ----- What merging means

  lemma {:induction false} FilterUnique(s: seq<OrderEntry>, p: OrderEntry -> bool)
    requires UniqueIds(s)
    ensures UniqueIds(Filter(s, p))
  {
    if s != [] {
      FilterUnique(s[1..], p);
      FilterMembers(s[1..], p);
      assert forall o | o in s[1..] :: o.params.orderId != s[0].params.orderId;
    }
  }

  lemma {:induction false} StoredUnique(data: seq<OrderEntry>, batch: seq<OrderEntry>, markets: set<string>)
    requires UniqueIds(data)
    ensures UniqueIds(StoredAll(data, batch, markets))
  {
    if batch != [] {
      StoredUnique(data, batch[..|batch|-1], markets);
    }
  }

  lemma IdsStayUnique(data: seq<OrderEntry>, batch: seq<OrderEntry>, markets: set<string>)
    requires UniqueIds(data)
    ensures UniqueIds(Merged(data, batch, markets))
  {
    FilterUnique(data, Not(Replaced(batch)));
    StoredUnique(Filter(data, Not(Replaced(batch))), batch, markets);
  }

  /** One report, as one order id sees it. */
  lemma StoredOneLookup(data: seq<OrderEntry>, item: OrderEntry, markets: set<string>, id: nat)
    ensures Lookup(StoredOne(data, item, markets), HasId(id)) ==
            var was := Lookup(data, HasId(id));
            if item.params.orderId != id then was
            else if was.None? then (if item.marketId in markets then Some(item) else None)
            else if item.params.updated >= was.value.params.updated
            then Some(was.value.(params := Configured(was.value.params, item.params))) else was
  {
    var k := FindIf(data, HasId(item.params.orderId));
    if k == |data| {
      LookupAppend(data, item, HasId(id));
    } else {
      LookupUpdate(data, k, data[k].(params := Configured(data[k].params, item.params)), HasId(id));
    }
  }

  lemma {:induction false} FilterLookup(s: seq<OrderEntry>, p: OrderEntry -> bool, id: nat)
    requires UniqueIds(s)
    ensures Lookup(Filter(s, p), HasId(id)) ==
            var was := Lookup(s, HasId(id)); if was.Some? && p(was.value) then was else None
  {
    if s != [] {
      var t, q := s[1..], HasId(id);
      FilterLookup(t, p, id);
      assert s == [s[0]] + t;
      LookupCons(s[0], t, q);
      LookupCons(s[0], Filter(t, p), q);
      assert [] + Filter(t, p) == Filter(t, p);
      if q(s[0]) {
        assert Lookup(t, q).None?;
      }
    }
  }

  /** Orders the batch does not mention are found as before. */
  lemma UnreportedUntouched(data: seq<OrderEntry>, batch: seq<OrderEntry>, markets: set<string>, id: nat)
    requires UniqueIds(data) && !Reports(batch, id)
    ensures Lookup(Merged(data, batch, markets), HasId(id)) == Lookup(data, HasId(id))
  {
    FilterLookup(data, Not(Replaced(batch)), id);
    StoredAllLookup(Filter(data, Not(Replaced(batch))), batch, markets, id);
    FilterAll(batch, HasId(id));
  }

  /** What a list of reports of one order makes of it, starting from the stored order if there is one. */
  function Told(was: Option<OrderEntry>, reports: seq<OrderEntry>, markets: set<string>): Option<OrderEntry> {
    if reports == [] then was
    else
      var before, item := Told(was, reports[..|reports|-1], markets), reports[|reports|-1];
      if before.None? then if item.marketId in markets then Some(item) else None
      else if item.params.updated >= before.value.params.updated
      then Some(before.value.(params := Configured(before.value.params, item.params)))
      else before
  }

  lemma {:induction false} StoredAllLookup(data: seq<OrderEntry>, batch: seq<OrderEntry>, markets: set<string>, id: nat)
    ensures Lookup(StoredAll(data, batch, markets), HasId(id)) ==
            Told(Lookup(data, HasId(id)), Filter(batch, HasId(id)), markets)
  {
    hide StoredOne, Lookup, Configured;
    if batch != [] {
      var before, item := batch[..|batch|-1], batch[|batch|-1];
      StoredAllLookup(data, before, markets, id);
      StoredOneLookup(StoredAll(data, before, markets), item, markets, id);
      assert before + [item] == batch;
      FilterConcat(before, [item], HasId(id));
      OneReport(item, id);
      var told := Filter(before, HasId(id));
      assert (told + [item])[..|told|] == told;
      assert told + [] == told;
    }
  }

  lemma OneReport(item: OrderEntry, id: nat)
    ensures Filter([item], HasId(id)) == if item.params.orderId == id then [item] else []
  {
    assert [item][1..] == [];
  }

  /** What a reported order looks like afterwards, for any batch. If its stored market is named by the batch it is
      forgotten first, so the first report of a known market replaces it whole whatever the time stamps say, and later
      reports update it unless they are older; otherwise the stored order itself is updated that way. */
  lemma ReportedOrder(data: seq<OrderEntry>, batch: seq<OrderEntry>, markets: set<string>, n: nat)
    requires n < |batch| && UniqueIds(data)
    ensures var id := batch[n].params.orderId;
            var was := Lookup(data, HasId(id));
            Lookup(Merged(data, batch, markets), HasId(id)) ==
            Told(if was.Some? && Names(batch, was.value.marketId) then None else was, Filter(batch, HasId(id)), markets)
  {
    var id := batch[n].params.orderId;
    assert Reports(batch, id);
    FilterLookup(data, Not(Replaced(batch)), id);
    StoredAllLookup(Filter(data, Not(Replaced(batch))), batch, markets, id);
  }

  // ----- What repeated reports leave of an order

  datatype Amount = Price | Volume | Base | Fee

  function Of(a: Amount, p: OrderConfig): real {
    match a
    case Price => p.price
    case Volume => p.currencyVolume
    case Base => p.baseVolume
    case Fee => p.fee
  }

  /** The newest report of an amount that gives one; a zero gives none. */
  function LastGiven(a: Amount, was: real, reports: seq<OrderEntry>): real {
    if reports == [] then was
    else if Of(a, reports[|reports|-1].params) != 0.0 then Of(a, reports[|reports|-1].params)
    else LastGiven(a, was, reports[..|reports|-1])
  }

  /** No report is older than the one before it, nor than what is stored. */
  predicate InOrder(was: OrderEntry, reports: seq<OrderEntry>) {
    && (forall i | 0 <= i < |reports| :: was.params.updated <= reports[i].params.updated)
    && (forall i, j | 0 <= i < j < |reports| :: reports[i].params.updated <= reports[j].params.updated)
  }

  lemma {:induction false} ToldInOrder(was: OrderEntry, reports: seq<OrderEntry>, markets: set<string>, a: Amount)
    requires InOrder(was, reports)
    ensures var r := Told(Some(was), reports, markets);
            && r.Some?
            && r.value.marketId == was.marketId && r.value.params.orderId == was.params.orderId
            && Of(a, r.value.params) == LastGiven(a, Of(a, was.params), reports)
            && var last := if reports == [] then was.params else reports[|reports|-1].params;
               && r.value.params.side == last.side && r.value.params.remaining == last.remaining
               && r.value.params.time == last.time && r.value.params.updated == last.updated
  {
    if reports != [] {
      ToldInOrder(was, reports[..|reports|-1], markets, a);
    }
  }

  /** An order whose market the batch does not name, reported in order: id and market stay, every amount is the newest
      one given, and side, remainder and times are those of the last report. */
  lemma UpdatedInOrder(data: seq<OrderEntry>, batch: seq<OrderEntry>, markets: set<string>, was: OrderEntry, a: Amount)
    requires UniqueIds(data) && was in data && !Names(batch, was.marketId)
    requires var reports := Filter(batch, HasId(was.params.orderId)); reports != [] && InOrder(was, reports)
    ensures var reports := Filter(batch, HasId(was.params.orderId));
            var now, last := Lookup(Merged(data, batch, markets), HasId(was.params.orderId)), reports[|reports|-1].params;
            && now.Some? && now.value.marketId == was.marketId && now.value.params.orderId == was.params.orderId
            && Of(a, now.value.params) == LastGiven(a, Of(a, was.params), reports)
            && now.value.params.side == last.side && now.value.params.remaining == last.remaining
            && now.value.params.time == last.time && now.value.params.updated == last.updated
  {
    hide Merged, Told, LastGiven, InOrder;
    var id := was.params.orderId;
    var k :| 0 <= k < |data| && data[k] == was;
    assert HasId(id)(data[k]);
    assert FindIf(data, HasId(id)) == k;
    var reports := Filter(batch, HasId(id));
    FilterMembers(batch, HasId(id));
    assert reports[0] in batch;
    var n :| 0 <= n < |batch| && batch[n] == reports[0];
    assert HasId(id)(batch[n]);
    ReportedOrder(data, batch, markets, n);
    ToldInOrder(was, reports, markets, a);
  }

  lemma {:induction false} ToldPresent(was: Option<OrderEntry>, reports: seq<OrderEntry>, markets: set<string>)
    requires was.Some? || exists i | 0 <= i < |reports| :: reports[i].marketId in markets
    ensures Told(was, reports, markets).Some?
  {
    if reports != [] {
      var before, item := reports[..|reports|-1], reports[|reports|-1];
      if was.None? && item.marketId !in markets {
        var i :| 0 <= i < |reports| && reports[i].marketId in markets;
        assert before[i] == reports[i];
      }
      if was.Some? || item.marketId !in markets {
        ToldPresent(was, before, markets);
      }
    }
  }

  /** Every batch entry of a known market is present afterwards, whatever the batch repeats. */
  lemma KnownEntryPresent(data: seq<OrderEntry>, batch: seq<OrderEntry>, markets: set<string>, n: nat)
    requires n < |batch| && batch[n].marketId in markets
    ensures Lookup(Merged(data, batch, markets), HasId(batch[n].params.orderId)).Some?
  {
    var id := batch[n].params.orderId;
    var kept, reports := Filter(data, Not(Replaced(batch))), Filter(batch, HasId(id));
    StoredAllLookup(kept, batch, markets, id);
    FilterMembers(batch, HasId(id));
    assert batch[n] in reports;
    var i :| 0 <= i < |reports| && reports[i] == batch[n];
    ToldPresent(Lookup(kept, HasId(id)), reports, markets);
  }

  lemma {:induction false} OnlyReport(batch: seq<OrderEntry>, n: nat)
    requires n < |batch| && UniqueIds(batch)
    ensures Filter(batch, HasId(batch[n].params.orderId)) == [batch[n]]
  {
    var p := HasId(batch[n].params.orderId);
    if n == 0 {
      FilterAll(batch[1..], p);
    } else {
      OnlyReport(batch[1..], n - 1);
    }
  }

  /** A batch that reports an order once replaces it whole, or drops it with its market, unless the stored order is under
      a market the batch does not name: that one is updated, and only by a report that is not older. */
  lemma ReportedOnce(data: seq<OrderEntry>, batch: seq<OrderEntry>, markets: set<string>, n: nat)
    requires n < |batch| && UniqueIds(batch) && UniqueIds(data)
    ensures var item := batch[n];
            var was := Lookup(data, HasId(item.params.orderId));
            Lookup(Merged(data, batch, markets), HasId(item.params.orderId)) ==
            if was.None? || Names(batch, was.value.marketId) then (if item.marketId in markets then Some(item) else None)
            else if item.params.updated >= was.value.params.updated
            then Some(was.value.(params := Configured(was.value.params, item.params))) else was
  {
    ReportedOrder(data, batch, markets, n);
    OnlyReport(batch, n);
    assert [batch[n]][..0] == [];
  }
}
