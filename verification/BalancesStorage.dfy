/** Balances by currency: the latest report of a currency wins, in whatever order reports arrive. */
module BalancesStorage {
  import opened Exchange
  import opened Lists

  datatype Config = Config(total: real, available: real, heldForTrades: real, time: nat)
  datatype Entry = Entry(currency: string, params: Config)

  function Of(currency: string): Entry -> bool { (x: Entry) => x.currency == currency }

  /** `currencies` are the ids the markets storage knows. */
  function MergedOne(data: seq<Entry>, item: Entry, currencies: set<string>): seq<Entry> {
    var k := FindIf(data, Of(item.currency));
    if k < |data| then
      if item.params.time >= data[k].params.time then data[k := data[k].(params := item.params)] else data
    else if item.currency in currencies then data + [item]
    else data
  }

  function Merged(data: seq<Entry>, batch: seq<Entry>, currencies: set<string>): seq<Entry> {
    if batch == [] then data
    else MergedOne(Merged(data, batch[..|batch|-1], currencies), batch[|batch|-1], currencies)
  }

  class Storage {
    var data: seq<Entry>

    constructor ()
      ensures data == []
    {
      data := [];
    }

    method FindBalance(currency: string) returns (r: Option<Entry>)
      ensures r == Lookup(data, Of(currency))
    {
      var found := Find(data, Of(currency));
      r := if found == |data| then None else Some(data[found]);
    }

    method Merge(batch: seq<Entry>, currencies: set<string>)
      modifies this
      ensures data == Merged(old(data), batch, currencies)
    {
      var i := 0;
      while i < |batch|
        invariant 0 <= i <= |batch| && data == Merged(old(data), batch[..i], currencies)
      {
        var item := batch[i];
        assert batch[..i+1][..i] == batch[..i];
        var found := Find(data, Of(item.currency));
        if found < |data| {
          if item.params.time >= data[found].params.time {
            data := data[found := data[found].(params := item.params)];
          }
        } else if item.currency in currencies {
          data := data + [item];
        }
        i := i + 1;
      }
      assert batch[..i] == batch;
    }
  }

  // ----- What merging means

  predicate UniqueCurrencies(data: seq<Entry>) {
    forall i, j | 0 <= i < j < |data| :: data[i].currency != data[j].currency
  }

  lemma {:induction false} EachCurrencyOnce(data: seq<Entry>, batch: seq<Entry>, currencies: set<string>)
    requires UniqueCurrencies(data)
    ensures UniqueCurrencies(Merged(data, batch, currencies))
  {
    if batch != [] {
      EachCurrencyOnce(data, batch[..|batch|-1], currencies);
    }
  }

  /** Merging in batches is merging all at once. */
  lemma {:induction false} MergeInBatches(data: seq<Entry>, a: seq<Entry>, b: seq<Entry>, currencies: set<string>)
    ensures Merged(data, a + b, currencies) == Merged(Merged(data, a, currencies), b, currencies)
  {
    if b == [] {
      assert a + b == a;
    } else {
      assert (a + b)[..|a+b|-1] == a + b[..|b|-1];
      MergeInBatches(data, a, b[..|b|-1], currencies);
    }
  }

  /** One report, as the balance of one currency sees it. */
  lemma MergedOneLookup(data: seq<Entry>, item: Entry, currencies: set<string>, c: string)
    ensures Lookup(MergedOne(data, item, currencies), Of(c)) ==
            var was := Lookup(data, Of(c));
            if item.currency != c then was
            else if was.Some? then (if item.params.time >= was.value.params.time then Some(item) else was)
            else if c in currencies then Some(item) else None
  {
    var k := FindIf(data, Of(item.currency));
    if k < |data| {
      LookupUpdate(data, k, data[k].(params := item.params), Of(c));
    } else {
      LookupAppend(data, item, Of(c));
    }
  }

  /** Everything that was ever said about a currency: the stored balance and its reports in the batch. */
  function Reports(data: seq<Entry>, batch: seq<Entry>, c: string): seq<Entry> {
    (if Lookup(data, Of(c)).Some? then [Lookup(data, Of(c)).value] else []) + Filter(batch, Of(c))
  }

  /** No report is later, and of those with the same time it is the last. */
  ghost predicate LatestAt(all: seq<Entry>, i: nat) {
    && i < |all|
    && (forall j | 0 <= j < i :: all[j].params.time <= all[i].params.time)
    && (forall j | i < j < |all| :: all[j].params.time < all[i].params.time)
  }

  ghost predicate Latest(r: Option<Entry>, all: seq<Entry>) {
    if all == [] then r.None? else r.Some? && exists i: nat :: LatestAt(all, i) && all[i] == r.value
  }

  lemma ReportsAppend(data: seq<Entry>, before: seq<Entry>, item: Entry, c: string)
    ensures Reports(data, before + [item], c) == Reports(data, before, c) + if item.currency == c then [item] else []
  {
    FilterConcat(before, [item], Of(c));
    assert Filter([item], Of(c)) == if item.currency == c then [item] else [];
  }

  lemma LaterReport(was: Option<Entry>, all: seq<Entry>, item: Entry)
    requires Latest(was, all)
    ensures Latest(if was.Some? && item.params.time < was.value.params.time then was else Some(item), all + [item])
  {
    if all == [] {
      assert LatestAt([item], 0) && all + [item] == [item];
    } else {
      var i: nat :| LatestAt(all, i) && all[i] == was.value;
      LaterIndex(all, i, item);
    }
  }

  lemma LaterIndex(all: seq<Entry>, i: nat, item: Entry)
    requires LatestAt(all, i)
    ensures var all' := all + [item];
            if item.params.time < all[i].params.time then LatestAt(all', i) && all'[i] == all[i]
            else LatestAt(all', |all|) && all'[|all|] == item
  {}

  /** A known currency ends with a latest report, stored or new; so its time never goes back. */
  lemma {:induction false} LatestReportWins(data: seq<Entry>, batch: seq<Entry>, currencies: set<string>, c: string)
    requires c in currencies || Lookup(data, Of(c)).Some?
    ensures Latest(Lookup(Merged(data, batch, currencies), Of(c)), Reports(data, batch, c))
  {
    hide MergedOne, Lookup, Filter;
    if batch == [] {
      NoReports(data, c);
    } else {
      hide Reports, Latest;
      var before, item := batch[..|batch|-1], batch[|batch|-1];
      assert before + [item] == batch;
      LatestReportWins(data, before, currencies, c);
      KnownStays(data, before, currencies, c);
      MergedOneLookup(Merged(data, before, currencies), item, currencies, c);
      ReportsAppend(data, before, item, c);
      LaterReport(Lookup(Merged(data, before, currencies), Of(c)), Reports(data, before, c), item);
      assert Reports(data, before, c) + [] == Reports(data, before, c);
    }
  }

  lemma NoReports(data: seq<Entry>, c: string)
    ensures Latest(Lookup(data, Of(c)), Reports(data, [], c))
  {
    if Lookup(data, Of(c)).Some? {
      assert LatestAt(Reports(data, [], c), 0);
    }
  }

  lemma {:induction false} KnownStays(data: seq<Entry>, batch: seq<Entry>, currencies: set<string>, c: string)
    ensures Lookup(data, Of(c)).Some? ==> Lookup(Merged(data, batch, currencies), Of(c)).Some?
  {
    hide MergedOne, Lookup;
    if batch != [] {
      KnownStays(data, batch[..|batch|-1], currencies, c);
      MergedOneLookup(Merged(data, batch[..|batch|-1], currencies), batch[|batch|-1], currencies, c);
    }
  }

  /** Reports about a currency nobody knows leave no balance. */
  lemma {:induction false} UnknownIgnored(data: seq<Entry>, batch: seq<Entry>, currencies: set<string>, c: string)
    requires c !in currencies && Lookup(data, Of(c)).None?
    ensures Lookup(Merged(data, batch, currencies), Of(c)).None?
  {
    if batch != [] {
      UnknownIgnored(data, batch[..|batch|-1], currencies, c);
      MergedOneLookup(Merged(data, batch[..|batch|-1], currencies), batch[|batch|-1], currencies, c);
    }
  }

  ghost predicate DistinctReports(data: seq<Entry>, batch: seq<Entry>) {
    && (forall x, y | x in batch && y in batch && x.currency == y.currency && x.params.time == y.params.time :: x == y)
    && (forall x, y | x in data && y in batch && x.currency == y.currency :: x.params.time != y.params.time)
  }

  /** Convergence: the same reports in any order leave the same balance for every currency. */
  lemma {:induction false} MergeConverges(data: seq<Entry>, a: seq<Entry>, b: seq<Entry>, currencies: set<string>, c: string)
    requires multiset(a) == multiset(b) && DistinctReports(data, a)
    ensures Lookup(Merged(data, a, currencies), Of(c)) == Lookup(Merged(data, b, currencies), Of(c))
  {
    hide Merged;
    if c in currencies || Lookup(data, Of(c)).Some? {
      LatestReportWins(data, a, currencies, c);
      LatestReportWins(data, b, currencies, c);
      SameReports(data, a, b, c);
      LatestIsUnique(Lookup(Merged(data, a, currencies), Of(c)), Lookup(Merged(data, b, currencies), Of(c)),
                     Reports(data, a, c), Reports(data, b, c));
    } else {
      UnknownIgnored(data, a, currencies, c);
      UnknownIgnored(data, b, currencies, c);
    }
  }

  lemma SameReports(data: seq<Entry>, a: seq<Entry>, b: seq<Entry>, c: string)
    requires multiset(a) == multiset(b) && DistinctReports(data, a)
    ensures forall x :: x in Reports(data, a, c) <==> x in Reports(data, b, c)
    ensures forall x, y | x in Reports(data, a, c) && y in Reports(data, a, c) && x.params.time == y.params.time :: x == y
  {
    FilterMembers(a, Of(c));
    FilterMembers(b, Of(c));
    assert forall x :: x in a <==> x in multiset(a);
    assert forall x :: x in b <==> x in multiset(b);
    var was := Lookup(data, Of(c));
    assert was.Some? ==> was.value in data && was.value.currency == c;
  }

  lemma LatestIsUnique(r: Option<Entry>, r': Option<Entry>, all: seq<Entry>, all': seq<Entry>)
    requires Latest(r, all) && Latest(r', all')
    requires forall x :: x in all <==> x in all'
    requires forall x, y | x in all && y in all && x.params.time == y.params.time :: x == y
    ensures r == r'
  {
    assert all' != [] ==> all'[0] in all;
    if all != [] {
      assert all[0] in all';
      LatestIsMax(r, all);
      LatestIsMax(r', all');
    }
  }

  lemma LatestIsMax(r: Option<Entry>, all: seq<Entry>)
    requires Latest(r, all) && all != []
    ensures r.Some? && r.value in all && forall x | x in all :: x.params.time <= r.value.params.time
  {
    var i: nat :| LatestAt(all, i) && all[i] == r.value;
  }
}
