/** The table of orders sent and not yet reported: it lets at most one order per market and side be in flight. */
module TemporaryOrders {
  import opened Exchange
  import Lists

  /** Order id 0 is the invalid one, given to a record before the exchange has answered. */
  datatype Record = Record(
    market: string, orderId: nat, side: Side, volume: real, baseVolume: real, price: real, time: nat)

  /** The three questions the table is searched with. */
  datatype Probe = SamePair(market: string, side: Side) | SameTerms(like: Record) | SameId(id: nat)

  predicate Hits(p: Probe, r: Record) {
    match p
    case SamePair(market, side) => r.market == market && r.side == side
    case SameTerms(like) =>
      r.market == like.market && r.price == like.price && r.baseVolume == like.baseVolume && r.volume == like.volume
    case SameId(id) => r.orderId == id
  }

  function Hitting(p: Probe): Record -> bool { (r: Record) => Hits(p, r) }

  function FirstHit(data: seq<Record>, p: Probe): (k: nat)
    ensures k <= |data|
    ensures k < |data| ==> Hits(p, data[k])
    ensures forall i | 0 <= i < k :: !Hits(p, data[i])
  {
    var k := Lists.FindIf(data, Hitting(p));
    assert forall i | 0 <= i < k :: !Hitting(p)(data[i]);
    k
  }

  predicate Has(data: seq<Record>, market: string, side: Side) {
    exists i | 0 <= i < |data| :: data[i].market == market && data[i].side == side
  }

  function Without(data: seq<Record>, k: nat): seq<Record>
    requires k <= |data|
  {
    if k < |data| then data[..k] + data[k+1..] else data
  }

  function Submitted(data: seq<Record>, r: Record): seq<Record> {
    if FirstHit(data, SamePair(r.market, r.side)) == |data| then data + [r] else data
  }

  function Placed(data: seq<Record>, r: Record): seq<Record> {
    var k := FirstHit(data, SameTerms(r));
    if k < |data| then data[k := data[k].(orderId := r.orderId, time := r.time)] else data
  }

  /** By order id if the report has one and it is known, otherwise by the order's terms. */
  function EraseIndex(data: seq<Record>, r: Record): (k: nat)
    ensures k <= |data|
  {
    if r.orderId > 0 && FirstHit(data, SameId(r.orderId)) < |data| then FirstHit(data, SameId(r.orderId))
    else FirstHit(data, SameTerms(r))
  }

  class TemporaryOrdersTable {
    var data: seq<Record>

    constructor ()
      ensures data == []
    {
      data := [];
    }

    method FindIf(p: Probe) returns (k: nat)
      ensures k == FirstHit(data, p)
    {
      k := Lists.Find(data, Hitting(p));
    }

    method SubmitOrder(r: Record) returns (ok: bool)
      modifies this
      ensures data == Submitted(old(data), r)
      ensures ok <==> !Has(old(data), r.market, r.side)
    {
      var found := FindIf(SamePair(r.market, r.side));
      ok := found == |data|;
      if ok {
        data := data + [r];
      }
    }

    method UpdatePlaceOrder(r: Record)
      modifies this
      ensures data == Placed(old(data), r)
    {
      var found := FindIf(SameTerms(r));
      if found < |data| {
        data := data[found := data[found].(orderId := r.orderId, time := r.time)];
      }
    }

    method UpdateEraseOrder(r: Record)
      modifies this
      ensures data == Without(old(data), EraseIndex(old(data), r))
    {
      var found := |data|;
      if r.orderId > 0 {
        found := FindIf(SameId(r.orderId));
      }
      if found == |data| {
        found := FindIf(SameTerms(r));
      }
      if found < |data| {
        data := data[..found] + data[found+1..];
      }
    }

    method UpdateEraseOrderById(id: nat)
      modifies this
      ensures data == Without(old(data), FirstHit(old(data), SameId(id)))
    {
      var found := FindIf(SameId(id));
      if found < |data| {
        data := data[..found] + data[found+1..];
      }
    }
  }

  // ----- Runs: HTTP replies and stream reports in any order

  datatype Event = Submit(r: Record) | Place(r: Record) | Erase(r: Record) | EraseById(id: nat)

  function Step(data: seq<Record>, ev: Event): seq<Record> {
    match ev
    case Submit(r) => Submitted(data, r)
    case Place(r) => Placed(data, r)
    case Erase(r) => Without(data, EraseIndex(data, r))
    case EraseById(id) => Without(data, FirstHit(data, SameId(id)))
  }

  function After(evs: seq<Event>): seq<Record> {
    if evs == [] then [] else Step(After(evs[..|evs|-1]), evs[|evs|-1])
  }

  predicate OnePerPair(data: seq<Record>) {
    forall i, j | 0 <= i < j < |data| :: data[i].market != data[j].market || data[i].side != data[j].side
  }

  lemma StepKeepsOnePerPair(data: seq<Record>, ev: Event)
    requires OnePerPair(data)
    ensures OnePerPair(Step(data, ev))
  {
    hide FirstHit, EraseIndex;
    match ev
    case Erase(r) => WithoutKeepsOnePerPair(data, EraseIndex(data, r));
    case EraseById(id) => WithoutKeepsOnePerPair(data, FirstHit(data, SameId(id)));
    case _ =>
  }

  lemma WithoutKeepsOnePerPair(data: seq<Record>, k: nat)
    requires OnePerPair(data) && k <= |data|
    ensures OnePerPair(Without(data, k))
  {}

  /** Under any interleaving there is at most one record per market and side. */
  lemma {:induction false} MutualExclusion(evs: seq<Event>)
    ensures OnePerPair(After(evs))
  {
    if evs != [] {
      MutualExclusion(evs[..|evs|-1]);
      StepKeepsOnePerPair(After(evs[..|evs|-1]), evs[|evs|-1]);
    }
  }

  predicate IsErase(ev: Event) { ev.Erase? || ev.EraseById? }

  /** Only an erase makes a pair absent. */
  lemma OnlyErasesFree(data: seq<Record>, ev: Event, market: string, side: Side)
    requires Has(data, market, side) && !IsErase(ev)
    ensures Has(Step(data, ev), market, side)
  {
    var i :| 0 <= i < |data| && data[i].market == market && data[i].side == side;
    var r := Step(data, ev)[i];
    assert r.market == market && r.side == side;
  }

  predicate Accepted(evs: seq<Event>, i: nat)
    requires i < |evs|
  {
    evs[i].Submit? && !Has(After(evs[..i]), evs[i].r.market, evs[i].r.side)
  }

  /** The erase that freed the pair between two moments. */
  lemma {:induction false} FreedBetween(evs: seq<Event>, i: nat, j: nat, market: string, side: Side) returns (k: nat)
    requires i <= j <= |evs|
    requires Has(After(evs[..i]), market, side) && !Has(After(evs[..j]), market, side)
    ensures i <= k < j && IsErase(evs[k]) && !Has(After(evs[..k+1]), market, side)
    ensures forall t | i <= t <= k :: Has(After(evs[..t]), market, side)
    decreases j - i
  {
    hide Step;
    assert evs[..i+1][..i] == evs[..i];
    if !IsErase(evs[i]) {
      OnlyErasesFree(After(evs[..i]), evs[i], market, side);
    }
    if Has(After(evs[..i+1]), market, side) {
      k := FreedBetween(evs, i + 1, j, market, side);
    } else {
      k := i;
    }
  }

  /** Between two accepted submits for one market and side, an erase removed the first one's record, which had been
      there ever since. */
  lemma FirstErasedBeforeSecond(evs: seq<Event>, i: nat, j: nat) returns (k: nat)
    requires i < j < |evs| && Accepted(evs, i) && Accepted(evs, j)
    requires evs[i].r.market == evs[j].r.market && evs[i].r.side == evs[j].r.side
    ensures i < k < j && IsErase(evs[k])
    ensures var r := evs[i].r;
            && (forall t | i < t <= k :: Has(After(evs[..t]), r.market, r.side))
            && !Has(After(evs[..k+1]), r.market, r.side)
  {
    var r, before := evs[i].r, After(evs[..i]);
    assert evs[..i+1][..i] == evs[..i];
    var after := After(evs[..i+1]);
    assert after == before + [r];
    assert after[|before|] == r;
    k := FreedBetween(evs, i + 1, j, r.market, r.side);
  }

  // ----- A placement gives the order its id, and the id finds it

  /** Two records that the table cannot tell apart by terms. */
  predicate Alike(a: Record, b: Record) {
    a.market == b.market && a.price == b.price && a.volume == b.volume && a.baseVolume == b.baseVolume
  }

  /** A placement writes id and time of the report into the first record with the report's terms, and touches nothing
      else; so it reaches the order's own record if and only if no earlier record has the same terms. */
  lemma PlaceReachesOwnIff(data: seq<Record>, p: Record, own: nat)
    requires own < |data| && Alike(data[own], p) && data[own].orderId != p.orderId
    ensures |Step(data, Place(p))| == |data|
    ensures Step(data, Place(p)) == data[own := data[own].(orderId := p.orderId, time := p.time)] <==>
            forall i | 0 <= i < own :: !Alike(data[i], p)
  {
    hide FirstHit;
    var k := FirstHit(data, SameTerms(p));
    assert Hits(SameTerms(p), data[own]);
    assert forall i | 0 <= i < |data| :: Hits(SameTerms(p), data[i]) <==> Alike(data[i], p);
    if k < own {
      assert Step(data, Place(p))[own] == data[own];
    }
  }

  /** An event about other orders: it carries neither the order's id nor, unless it is a submit, its terms. */
  predicate Elsewhere(ev: Event, r: Record) {
    match ev
    case Submit(o) => o.orderId != r.orderId
    case Place(o) => !Alike(o, r) && o.orderId != r.orderId
    case Erase(o) => !Alike(o, r) && o.orderId != r.orderId
    case EraseById(id) => id != r.orderId
  }

  /** `r` stands at `own` and no other record has its id. */
  ghost predicate OnlyWithId(data: seq<Record>, own: nat, r: Record) {
    && own < |data| && data[own] == r
    && forall i | 0 <= i < |data| && i != own :: data[i].orderId != r.orderId
  }

  lemma ElsewhereKeeps(data: seq<Record>, own: nat, r: Record, ev: Event) returns (k: nat)
    requires OnlyWithId(data, own, r) && Elsewhere(ev, r)
    ensures OnlyWithId(Step(data, ev), k, r)
  {
    hide FirstHit;
    k := own;
    match ev
    case Erase(o) =>
      assert !Hits(SameId(o.orderId), data[own]) && !Hits(SameTerms(o), data[own]);
      k := WithoutKeepsOther(data, own, r, EraseIndex(data, o));
    case EraseById(id) =>
      k := WithoutKeepsOther(data, own, r, FirstHit(data, SameId(id)));
    case _ =>
  }

  lemma WithoutKeepsOther(data: seq<Record>, own: nat, r: Record, gone: nat) returns (k: nat)
    requires OnlyWithId(data, own, r) && gone <= |data| && gone != own
    ensures OnlyWithId(Without(data, gone), k, r)
  {
    k := if gone < own then own - 1 else own;
  }

  /** From the placement on, whatever happens to other orders, the record carries the id and time of the report and
      stands alone under that id. The report with the id then removes exactly this record and frees its pair. */
  lemma {:induction false} PlacedThenErased(before: seq<Event>, p: Record, between: seq<Event>, own: nat) returns (k: nat)
    requires var data := After(before);
             && own < |data| && Alike(data[own], p)
             && (forall i | 0 <= i < own :: !Alike(data[i], p))
             && (forall i | 0 <= i < |data| && i != own :: data[i].orderId != p.orderId)
    requires forall ev | ev in between :: Elsewhere(ev, p)
    ensures var held := After(before)[own].(orderId := p.orderId, time := p.time);
            var data := After(before + [Place(p)] + between);
            var freed := After(before + [Place(p)] + between + [EraseById(p.orderId)]);
            && OnlyWithId(data, k, held)
            && freed == data[..k] + data[k+1..]
            && !Has(freed, held.market, held.side)
    decreases |between|
  {
    hide FirstHit, Step, Has, OnePerPair;
    var held := After(before)[own].(orderId := p.orderId, time := p.time);
    var evs := before + [Place(p)] + between;
    if between == [] {
      k := own;
      assert evs[..|before|] == before && evs[|before|] == Place(p);
      PlaceGivesId(After(before), p, own);
    } else {
      var n := |between| - 1;
      k := PlacedThenErased(before, p, between[..n], own);
      assert evs[..|evs|-1] == before + [Place(p)] + between[..n];
      assert between[n] in between;
      k := ElsewhereKeeps(After(evs[..|evs|-1]), k, held, between[n]);
    }
    var last := evs + [EraseById(p.orderId)];
    assert last[..|evs|] == evs;
    MutualExclusion(evs);
    EraseFreesPair(After(evs), k, held);
  }

  /** An accepted order that is placed under a new id and then erased by it leaves the table as it was. */
  lemma OrderComesAndGoes(before: seq<Event>, r: Record, p: Record)
    requires var data := After(before);
             && !Has(data, r.market, r.side) && Alike(r, p)
             && forall i | 0 <= i < |data| :: !Alike(data[i], p) && data[i].orderId != p.orderId
    ensures After(before + [Submit(r), Place(p), EraseById(p.orderId)]) == After(before)
  {
    hide Step, Has, Alike;
    var evs := before + [Submit(r), Place(p), EraseById(p.orderId)];
    var n := |before|;
    assert evs[..n] == before && evs[..n+3] == evs;
    AfterOne(evs, n);
    AfterOne(evs, n + 1);
    AfterOne(evs, n + 2);
    ComesAndGoes(After(before), r, p);
  }

  lemma AfterOne(evs: seq<Event>, n: nat)
    requires n < |evs|
    ensures After(evs[..n+1]) == Step(After(evs[..n]), evs[n])
  {
    assert evs[..n+1][..n] == evs[..n];
  }

  lemma ComesAndGoes(data: seq<Record>, r: Record, p: Record)
    requires !Has(data, r.market, r.side) && Alike(r, p)
    requires forall i | 0 <= i < |data| :: !Alike(data[i], p) && data[i].orderId != p.orderId
    ensures Step(Step(Step(data, Submit(r)), Place(p)), EraseById(p.orderId)) == data
  {
    hide FirstHit;
    AcceptedIsAppended(data, r);
    PlaceTouchesOne(data + [r], p, |data|);
    var placed := (data + [r])[|data| := r.(orderId := p.orderId, time := p.time)];
    assert Hits(SameId(p.orderId), placed[|data|]);
    assert FirstHit(placed, SameId(p.orderId)) == |data|;
    assert placed[..|data|] + placed[|data|+1..] == data;
  }

  lemma PlaceTouchesOne(data: seq<Record>, p: Record, own: nat)
    requires own < |data| && Alike(data[own], p)
    requires forall i | 0 <= i < own :: !Alike(data[i], p)
    ensures Step(data, Place(p)) == data[own := data[own].(orderId := p.orderId, time := p.time)]
  {
    hide FirstHit;
    assert forall i | 0 <= i < |data| :: Hits(SameTerms(p), data[i]) <==> Alike(data[i], p);
    assert FirstHit(data, SameTerms(p)) == own;
  }

  lemma AcceptedIsAppended(data: seq<Record>, r: Record)
    requires !Has(data, r.market, r.side)
    ensures Step(data, Submit(r)) == data + [r]
  {
    hide FirstHit;
    assert forall i | 0 <= i < |data| :: !Hits(SamePair(r.market, r.side), data[i]);
  }

  lemma PlaceGivesId(data: seq<Record>, p: Record, own: nat)
    requires own < |data| && Alike(data[own], p)
    requires forall i | 0 <= i < own :: !Alike(data[i], p)
    requires forall i | 0 <= i < |data| && i != own :: data[i].orderId != p.orderId
    ensures OnlyWithId(Step(data, Place(p)), own, data[own].(orderId := p.orderId, time := p.time))
  {
    PlaceTouchesOne(data, p, own);
  }

  lemma EraseFreesPair(data: seq<Record>, own: nat, r: Record)
    requires OnlyWithId(data, own, r) && OnePerPair(data)
    ensures Step(data, EraseById(r.orderId)) == data[..own] + data[own+1..]
    ensures !Has(Step(data, EraseById(r.orderId)), r.market, r.side)
  {
    hide FirstHit;
    assert Hits(SameId(r.orderId), data[own]);
    assert FirstHit(data, SameId(r.orderId)) == own;
  }

  lemma WithoutIsInjective(data: seq<Record>, j: nat, k: nat)
    requires j < k < |data| && data[k-1] != data[k]
    ensures Without(data, j) != Without(data, k)
  {
    assert Without(data, j)[k-1] == data[k] && Without(data, k)[k-1] == data[k-1];
  }

  lemma SameEraseIff(data: seq<Record>, own: nat, k: nat)
    requires OnePerPair(data) && own < |data| && k < |data|
    ensures Without(data, k) == Without(data, own) <==> k == own
  {
    if k < own {
      WithoutIsInjective(data, k, own);
    } else if own < k {
      WithoutIsInjective(data, own, k);
    }
  }

  /** An erase report removes an order's own record exactly when, if the table knows the report's id, that id's first
      record is the order's, and otherwise no earlier record has the same terms. The side is never compared. */
  lemma EraseRemovesOwnIff(data: seq<Record>, r: Record, own: nat)
    requires OnePerPair(data) && own < |data| && Alike(data[own], r)
    ensures Step(data, Erase(r)) == data[..own] + data[own+1..] <==>
            if r.orderId > 0 && exists i | 0 <= i < |data| :: data[i].orderId == r.orderId
            then data[own].orderId == r.orderId && forall i | 0 <= i < own :: data[i].orderId != r.orderId
            else forall i | 0 <= i < own :: !Alike(data[i], r)
  {
    hide FirstHit;
    var byId, byTerms := FirstHit(data, SameId(r.orderId)), FirstHit(data, SameTerms(r));
    assert forall i | 0 <= i < |data| :: Hits(SameTerms(r), data[i]) <==> Alike(data[i], r);
    assert forall i | 0 <= i < |data| :: Hits(SameId(r.orderId), data[i]) <==> data[i].orderId == r.orderId;
    assert Hits(SameTerms(r), data[own]);
    assert (exists i | 0 <= i < |data| :: Hits(SameId(r.orderId), data[i])) <==> byId < |data|;
    assert byTerms <= own;
    assert (exists i | 0 <= i < own :: Hits(SameTerms(r), data[i])) <==> byTerms < own;
    assert byId < |data| ==> (byId == own <==>
             Hits(SameId(r.orderId), data[own]) && !exists i | 0 <= i < own :: Hits(SameId(r.orderId), data[i]));
    SameEraseIff(data, own, EraseIndex(data, r));
  }

  /** Two orders of one market with equal terms and opposite sides are both accepted; the report that the sale filled,
      with an id the table has not been told yet, then erases the buy's record and leaves the sale's. */
  lemma WrongSideErased(market: string, volume: real, base: real, price: real, id: nat, time: nat)
    requires id > 0
    ensures var buy := Record(market, 0, Buy, volume, base, price, time);
            var sell := buy.(side := Sell);
            var evs := [Submit(buy), Submit(sell), Erase(sell.(orderId := id))];
            && Accepted(evs, 0) && Accepted(evs, 1)
            && After(evs) == [sell]
  {
    hide FirstHit;
    var buy := Record(market, 0, Buy, volume, base, price, time);
    var sell := buy.(side := Sell);
    var evs := [Submit(buy), Submit(sell), Erase(sell.(orderId := id))];
    assert evs[..0] == [] && evs[..1][..0] == [] && evs[..2][..1] == evs[..1];
    assert After(evs[..1]) == [buy];
    assert [buy][1..] == [];
    assert FirstHit([buy], SamePair(market, Sell)) == 1;
    assert After(evs[..2]) == [buy, sell];
    assert [buy, sell][1..] == [sell] && [sell][1..] == [];
    assert FirstHit([buy, sell], SameId(id)) == 2;
    assert Hits(SameTerms(sell.(orderId := id)), [buy, sell][0]);
    assert FirstHit([buy, sell], SameTerms(sell.(orderId := id))) == 0;
    assert Without([buy, sell], 0) == [sell];
  }
}
