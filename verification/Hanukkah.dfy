/** The engine in the form of the source: step objects chained by pointers, rebuilt from a stored table and writing
    their flags back into it. Every tick of it is the tick of StepMachine. */
module Hanukkah {
  import opened Exchange
  import Lists
  import opened Rounding
  import opened CycleScanners
  import opened SellTarget
  import opened StepMachine

  // ----- Saving a step's flags: rows are found by value

  function SamePair(step: real, growth: real): Row -> bool { (r: Row) => r.step == step && r.growth == growth }

  function FirstMatch(rows: seq<Row>, step: real, growth: real): (k: nat)
    ensures k <= |rows|
    ensures k < |rows| ==> rows[k].step == step && rows[k].growth == growth
    ensures forall i | 0 <= i < k :: rows[i].step != step || rows[i].growth != growth
  {
    var k := Lists.FindIf(rows, SamePair(step, growth));
    assert forall i | 0 <= i < k :: !SamePair(step, growth)(rows[i]);
    k
  }

  function Saved(rows: seq<Row>, r: Row): seq<Row> {
    var k := FirstMatch(rows, r.step, r.growth);
    if k < |rows| then rows[k := rows[k].(buyBlocked := r.buyBlocked, sellBlocked := r.sellBlocked)] else rows
  }

  function MetaSaved(meta: Meta, r: Row, isBuyCompleted: bool, stamp: Option<nat>): Meta {
    var m := if isBuyCompleted && r.buyBlocked then Credited(meta, stamp) else meta;
    m.(table := Saved(meta.table, r))
  }

  /** No two rows carry the same pair of percentages. */
  predicate DistinctRows(rows: seq<Row>) {
    forall i, j | 0 <= i < j < |rows| :: rows[i].step != rows[j].step || rows[i].growth != rows[j].growth
  }

  /** Saving changed flags reaches the step's own row exactly when no earlier row carries the same percentages; then
      it is the update of StepMachine, otherwise the stored table and the live steps part. */
  lemma SavedReachesOwnRowIff(rows: seq<Row>, k: nat, r: Row)
    requires k < |rows| && r.step == rows[k].step && r.growth == rows[k].growth && r != rows[k]
    ensures Saved(rows, r) == rows[k := r] <==>
            forall i | 0 <= i < k :: rows[i].step != r.step || rows[i].growth != r.growth
  {
    var j := FirstMatch(rows, r.step, r.growth);
    if j == k {
      assert rows[k].(buyBlocked := r.buyBlocked, sellBlocked := r.sellBlocked) == r;
    } else {
      assert Saved(rows, r)[k] == rows[k];
    }
  }

  // ----- Objects

  class Market {
    var meta: Meta

    constructor (meta: Meta)
      ensures this.meta == meta
    {
      this.meta := meta;
    }

    method Reset()
      modifies this
      ensures meta == Unlocked(old(meta))
    {
      var rows := meta.table;
      var i := 0;
      while i < |rows|
        invariant 0 <= i <= |rows| == |meta.table|
        invariant forall j | 0 <= j < |rows| :: rows[j] == if j < i then Unblocked(meta.table)[j] else meta.table[j]
      {
        rows := rows[i := rows[i].(buyBlocked := false, sellBlocked := false)];
        i := i + 1;
      }
      assert rows == Unblocked(meta.table);
      meta := Meta(0, meta.maxSteps, None, rows);
    }
  }

  /** Both kinds of step; `isZero` selects the kind's pair of logics. */
  class Step {
    const isZero: bool
    const declinePerc: real
    const growth: real
    var buyBlocked: bool
    var sellBlocked: bool
    var next: Step?

    constructor (row: Row, isZero: bool)
      ensures this.isZero == isZero && ToRow() == row && next == null
    {
      this.isZero, declinePerc, growth := isZero, row.step, row.growth;
      buyBlocked, sellBlocked, next := row.buyBlocked, row.sellBlocked, null;
    }

    function ToRow(): Row
      reads this
    {
      Row(declinePerc, growth, buyBlocked, sellBlocked)
    }

    function NextToRow(): Option<Row>
      reads this, if next == null then {} else {next}
    {
      if next == null then None else Some(next.ToRow())
    }

    method UpdateMarketMetaConfig(market: Market, isBuyCompleted: bool, stamp: Option<nat>)
      modifies market
      ensures market.meta == MetaSaved(old(market.meta), ToRow(), isBuyCompleted, stamp)
    {
      var meta := market.meta;
      if isBuyCompleted && buyBlocked {
        meta := meta.(execSteps := meta.execSteps + 1);
        if meta.cycleStart.None? && stamp.Some? {
          meta := meta.(cycleStart := Some(Second(stamp.value)));
        }
      }
      var rows := meta.table;
      var i := 0;
      while i < |rows|
        invariant 0 <= i <= |rows|
        invariant rows == old(market.meta).table
        invariant i <= FirstMatch(rows, declinePerc, growth)
      {
        if rows[i].step == declinePerc && rows[i].growth == growth {
          rows := rows[i := rows[i].(buyBlocked := buyBlocked, sellBlocked := sellBlocked)];
          break;
        }
        i := i + 1;
      }
      market.meta := meta.(table := rows);
    }

    /** `PlaceSell`, shared by both sell logics. Ending the cycle is left to the engine, which the code calls back. */
    method SellOrEnd(market: Market, e: Env) returns (f: Effect)
      requires e.currency.Some?
      ensures f == PlaceSell(market.meta.cycleStart, e, e.currency.value)
    {
      hide Worth, StopLoss;
      if e.history == [] {
        return Nothing;
      }
      var average := CalculateAverage(e.history, market.meta.cycleStart);
      var target := None;
      if average.volume > 0.0 {
        target := Some(StopLoss(average.fee, average.baseVolume, e.m.tradeFee, average.volume, e.m.profit));
      }
      var balance := e.currency.value;
      if (balance.total == 0.0 && balance.available == 0.0) || e.m.lot > balance.total
         || (target.Some? && e.m.minNotional > Worth(balance.available, target.value)) {
        return Unlock;
      }
      if balance.total > balance.available {
        return Nothing;
      }
      f := Submit(Sell, target, balance.available);
    }

    method ExecuteSellLogic(market: Market, e: Env) returns (f: Effect)
      modifies this`sellBlocked, market
      ensures !f.CloseBuy? && !f.Skip?
      ensures f == if isZero then ZeroSell(old(market.meta), e) else StepSell(old(NextToRow()), old(market.meta), e)
      ensures sellBlocked == (old(sellBlocked) || f.CloseSell?)
      ensures market.meta == if f.CloseSell? then MetaSaved(old(market.meta), ToRow(), false, None) else old(market.meta)
    {
      if e.currency.None? {
        return Nothing;
      }
      if isZero && (|market.meta.table| <= 2 || market.meta.table[1].step == 0.0) {
        return Nothing;
      }
      if e.openSell.None? {
        f := SellOrEnd(market, e);
        return;
      }
      var rounded := RoundTruncate(e.m.lot, e.currency.value.total);
      if e.openSell.value.volume < rounded {
        return Cancel(e.openSell.value.id);
      }
      if isZero {
        if e.trend >= -market.meta.table[1].step {
          return Nothing;
        }
      } else {
        if market.meta.execSteps >= market.meta.maxSteps {
          return Nothing;
        }
        if next == null || e.trend >= -next.growth {
          return Nothing;
        }
      }
      f := CloseSell(e.openSell.value.id);
      sellBlocked := true;
      UpdateMarketMetaConfig(market, false, None);
    }

    method ExecuteBuyLogic(market: Market, e: Env) returns (f: Effect)
      modifies this`buyBlocked, this`sellBlocked, market
      ensures f.Nothing? || f.Submit? || f.CloseBuy? || f.Skip?
      ensures f == if isZero then ZeroBuy(e) else StepBuy(growth, old(NextToRow()), old(market.meta), e)
      ensures buyBlocked == (old(buyBlocked) || f.CloseBuy? || f.Skip?)
      ensures sellBlocked == (old(sellBlocked) || f.Skip?)
      ensures market.meta == match f
                             case CloseBuy(stamp) => MetaSaved(old(market.meta), ToRow(), true, stamp)
                             case Skip => MetaSaved(old(market.meta), ToRow(), false, None)
                             case _ => old(market.meta)
    {
      hide Worth, WithFee, VolumeFor, MetaSaved, PrevVolume, AverageOf;
      if isZero && e.pauseMode {
        return Nothing;
      }
      if e.base.None? || e.currency.None? || e.topSell.None? || e.topBuy.None?
         || e.topBuy.value.price >= e.topSell.value.price {
        return Nothing;
      }
      var price := e.topSell.value.price;
      var total := e.currency.value.total;
      if isZero {
        f := CloseOrStart(market, e, price, Worth(total, price));
        return;
      }
      if next != null && e.trend <= -next.declinePerc {
        sellBlocked := true;
        buyBlocked := true;
        UpdateMarketMetaConfig(market, false, None);
        return Skip;
      }
      if e.trend < -growth {
        return Nothing;
      }
      var value := Worth(total, price);
      if value == 0.0 {
        return Nothing;
      }
      var average := CalculateAverage(e.history, market.meta.cycleStart);
      if average.ordersCount > market.meta.execSteps {
        f := Nothing;
        if e.history != [] {
          var previous := CalculatePrevVolume(e.history);
          if total >= previous * 2.0 * 0.95 && value >= e.m.minBasePrice {
            buyBlocked := true;
            UpdateMarketMetaConfig(market, true, None);
            f := CloseBuy(None);
          }
        }
      } else {
        f := BuyOrder(e, WithFee(value, e.m.tradeFee), total);
      }
    }

    /** The zero step's half of the buy logic. */
    method CloseOrStart(market: Market, e: Env, price: Positive, value: real) returns (f: Effect)
      requires CanBuy(e) && !e.pauseMode && price == e.topSell.value.price && value == Worth(e.currency.value.total, price)
      modifies this`buyBlocked, market
      ensures f == ZeroBuy(e)
      ensures buyBlocked == (old(buyBlocked) || f.CloseBuy?)
      ensures market.meta == match f
                             case CloseBuy(stamp) => MetaSaved(old(market.meta), ToRow(), true, stamp)
                             case _ => old(market.meta)
    {
      hide Worth, WithFee, VolumeFor, MetaSaved;
      if value >= e.m.tradeSumm * 0.95 && value >= e.m.minBasePrice {
        if e.history == [] || e.history[0].side != Buy {
          return Nothing;
        }
        f := CloseBuy(Some(e.history[0].time));
        buyBlocked := true;
        UpdateMarketMetaConfig(market, true, f.stamp);
      } else {
        f := BuyOrder(e, WithFee(e.m.tradeSumm, e.m.tradeFee), VolumeFor(e.m.tradeSumm, price));
      }
    }
  }

  // ----- The stack of steps

  /** `SinglyLinkedStack`: a vector whose elements also link to their successor. `head` is the last element pushed;
      clearing the vector does not reset it. */
  class StepStack {
    var items: seq<Step>
    var head: Step?

    constructor ()
      ensures items == [] && head == null && Linked()
    {
      items, head := [], null;
    }

    ghost function Nodes(): (r: set<Step>)
      reads this
      ensures forall s | s in items :: s in r
      ensures head != null ==> head in r
    {
      (set s | s in items) + if head == null then {} else {head}
    }

    /** Element i points to element i+1, the last one to nothing, and the head is the last or, when the vector was
        just cleared, a left-over with no successor. */
    ghost predicate Linked()
      reads this, items, if head == null then {} else {head}
    {
      && (forall i, j | 0 <= i < j < |items| :: items[i] != items[j])
      && (forall i | 0 <= i < |items| - 1 :: items[i].next == items[i+1])
      && (|items| > 0 ==> head == items[|items|-1])
      && (head != null ==> head.next == null)
    }

    method InsertBack(t: Step)
      requires Linked() && t !in items && t != head && t.next == null
      modifies this, t`next, (if head == null then {} else {head})`next
      ensures Linked() && items == old(items) + [t] && head == t
    {
      if head != null {
        t.next := head.next;
        head.next := t;
      }
      head := t;
      items := items + [t];
    }

    method OpenAll()
      requires Linked()
      modifies items
      ensures Linked()
      ensures forall k | 0 <= k < |items| ::
                items[k].ToRow() == Row(items[k].declinePerc, items[k].growth, false, false)
    {
      var i := 0;
      while i < |items|
        invariant 0 <= i <= |items| && Linked()
        invariant forall k | 0 <= k < i :: !items[k].buyBlocked && !items[k].sellBlocked
      {
        items[i].buyBlocked := false;
        items[i].sellBlocked := false;
        i := i + 1;
      }
    }

    /** Clearing the vector part only. */
    method Clear()
      requires Linked()
      modifies this`items
      ensures Linked() && items == [] && head == old(head)
    {
      items := [];
    }
  }

  /** The live steps show these rows, the first one being the zero step. */
  ghost predicate Shows(items: seq<Step>, rows: seq<Row>)
    reads items
  {
    && |items| == |rows|
    && forall i | 0 <= i < |items| :: items[i].ToRow() == rows[i] && items[i].isZero == (i == 0)
  }

  class StepGenerator {
    var metaConfig: seq<Row>
    const container: StepStack

    constructor (data: seq<Row>)
      ensures fresh(container) && fresh(container.Nodes())
      ensures metaConfig == data && container.Linked() && Shows(container.items, data)
    {
      metaConfig := data;
      container := new StepStack();
      new;
      Setup();
    }

    method Setup()
      requires container.items == [] && container.Linked()
      modifies container, container.Nodes()
      ensures fresh(container.Nodes() - old(container.Nodes()))
      ensures metaConfig == old(metaConfig) && container.Linked() && Shows(container.items, metaConfig)
      ensures forall s | s in container.items :: fresh(s)
      ensures container.items == [] ==> container.head == old(container.head)
    {
      var i := 0;
      while i < |metaConfig|
        invariant 0 <= i <= |metaConfig| && metaConfig == old(metaConfig)
        invariant container.Linked() && Shows(container.items, metaConfig[..i])
        invariant forall s | s in container.items :: fresh(s)
        invariant container.head == old(container.head) || fresh(container.head)
        invariant container.items == [] ==> container.head == old(container.head)
      {
        var step := new Step(metaConfig[i], i == 0);
        container.InsertBack(step);
        i := i + 1;
      }
    }

    method Update(data: seq<Row>) returns (changed: bool)
      requires container.Linked()
      modifies this, container, container.Nodes()
      ensures fresh(container.Nodes() - old(container.Nodes()))
      ensures container.Linked() && metaConfig == data && changed == (old(metaConfig) != data)
      ensures changed ==> Shows(container.items, data)
      ensures !changed ==> container.items == old(container.items)
      ensures !changed ==> forall s | s in container.items :: unchanged(s)
    {
      if metaConfig != data {
        metaConfig := data;
        if |container.items| > 0 {
          container.Clear();
        }
        Setup();
        return true;
      }
      return false;
    }
  }

  // ----- The engine on one market

  class Engine {
    const market: Market
    var session: StepGenerator?

    constructor (market: Market)
      ensures this.market == market && session == null && Agrees()
    {
      this.market, session := market, null;
    }

    ghost function Footprint(): set<object>
      reads this, session, if session == null then {} else {session.container}
    {
      {this, market} + if session == null then {} else {session, session.container} + session.container.Nodes()
    }

    /** The live steps are chained in table order and show the stored table. */
    ghost predicate InStep()
      reads this, market, Footprint()
    {
      session != null && session.container.Linked() && Shows(session.container.items, market.meta.table)
    }

    /** What a tick needs: either no session yet, or one whose steps are in step with the table unless the table has
        been replaced since, in which case they will be rebuilt. */
    ghost predicate Agrees()
      reads this, market, Footprint()
    {
      session != null ==>
        session.container.Linked() && (session.metaConfig == market.meta.table ==> InStep())
    }

    /** `unlockAllSteps`: opens every live step and, separately, every stored row. */
    method UnlockAllSteps()
      requires InStep()
      modifies Footprint()
      ensures session == old(session) && Footprint() == old(Footprint())
      ensures InStep() && market.meta == Unlocked(old(market.meta))
    {
      ghost var rows := market.meta.table;
      session.container.OpenAll();
      assert Shows(session.container.items, Unblocked(rows));
      market.Reset();
    }

    /** Rebuilds the live steps if there are none yet or the stored table has changed. */
    method Refresh()
      requires Agrees()
      modifies Footprint()
      ensures InStep() && market.meta == old(market.meta) && fresh(Footprint() - old(Footprint()))
    {
      if session == null {
        session := new StepGenerator(market.meta.table);
      } else {
        var _ := session.Update(market.meta.table);
      }
    }

    method RunBuy(i: nat, e: Env) returns (f: Effect)
      requires InStep() && DistinctRows(market.meta.table) && i < |session.container.items|
      modifies Footprint()
      ensures session == old(session) && Footprint() == old(Footprint()) && InStep()
      ensures i < |old(market.meta).table|
      ensures f == if i == 0 then ZeroBuy(e)
                   else StepBuy(old(market.meta).table[i].growth, NextRow(old(market.meta), i), old(market.meta), e)
      ensures market.meta == Apply(old(market.meta), i, f)
    {
      hide StepBuy, ZeroBuy, StepSell, ZeroSell, MetaSaved, Apply;
      var item := session.container.items[i];
      assert item in session.container.Nodes();
      NextShown(session.container, i, market.meta);
      ghost var meta := market.meta;
      f := item.ExecuteBuyLogic(market, e);
      SavedIsApply(meta, i, item.ToRow(), f);
    }

    method RunSell(i: nat, e: Env) returns (f: Effect)
      requires InStep() && DistinctRows(market.meta.table) && i < |session.container.items|
      modifies Footprint()
      ensures session == old(session) && Footprint() == old(Footprint()) && InStep()
      ensures i < |old(market.meta).table|
      ensures f == if i == 0 then ZeroSell(old(market.meta), e)
                   else StepSell(NextRow(old(market.meta), i), old(market.meta), e)
      ensures market.meta == Apply(old(market.meta), i, f)
    {
      hide StepBuy, ZeroBuy, StepSell, ZeroSell, MetaSaved, Apply, Unlocked;
      var item := session.container.items[i];
      assert item in session.container.Nodes();
      NextShown(session.container, i, market.meta);
      ghost var meta := market.meta;
      f := item.ExecuteSellLogic(market, e);
      SavedIsApply(meta, i, item.ToRow(), f);
      if f.Unlock? {
        assert InStep();
        UnlockAllSteps();
      }
    }

    /** Trading the pair is given up, or the program restarts: only the stored configuration remains. */
    method RemoveMarket()
      modifies this
      ensures session == null && Agrees() && market.meta == old(market.meta)
    {
      session := null;
    }

    /** `execLogic` for one market. Its outcome depends on the stored configuration alone: a session carried on, a
        rebuilt one and none at all give the same tick. */
    method ExecLogic(e: Env) returns (f: Effect)
      requires Agrees() && DistinctRows(market.meta.table)
      modifies Footprint()
      ensures f == Decide(old(market.meta), e)
      ensures market.meta == Tick(old(market.meta), e)
      ensures InStep() && fresh(Footprint() - old(Footprint()))
    {
      f := Nothing;
      Refresh();
      ghost var meta := market.meta;
      var i := 0;
      while i < |session.container.items|
        invariant 0 <= i <= |session.container.items| && InStep() && market.meta == meta
        invariant fresh(Footprint() - old(Footprint()))
        invariant Pick(meta, 0) == Pick(meta, i)
        decreases |session.container.items| - i
      {
        if !session.container.items[i].buyBlocked && market.meta.execSteps <= market.meta.maxSteps {
          f := RunBuy(i, e);
          return;
        }
        if !session.container.items[i].sellBlocked {
          f := RunSell(i, e);
          return;
        }
        i := i + 1;
      }
    }
  }

  lemma NextShown(c: StepStack, i: nat, meta: Meta)
    requires c.Linked() && Shows(c.items, meta.table) && i < |c.items|
    ensures c.items[i].NextToRow() == NextRow(meta, i)
  {}

  /** With distinct rows the save by value is the update by position. */
  lemma SavedIsApply(meta: Meta, k: nat, r: Row, f: Effect)
    requires k < |meta.table| && DistinctRows(meta.table)
    requires r == meta.table[k].(buyBlocked := meta.table[k].buyBlocked || f.CloseBuy? || f.Skip?,
                                 sellBlocked := meta.table[k].sellBlocked || f.CloseSell? || f.Skip?)
    ensures f.CloseBuy? ==> MetaSaved(meta, r, true, f.stamp) == Apply(meta, k, f)
    ensures f.CloseSell? || f.Skip? ==> MetaSaved(meta, r, false, None) == Apply(meta, k, f)
    ensures !f.Unlock? ==> Apply(meta, k, f).table == meta.table[k := r]
    ensures f.Nothing? || f.Submit? || f.Cancel? ==> Apply(meta, k, f) == meta
    ensures f.Unlock? ==> Apply(meta, k, f) == Unlocked(meta)
  {}

  /** The condition the save by value relies on outlives every tick. */
  lemma TickKeepsDistinctRows(meta: Meta, e: Env)
    requires DistinctRows(meta.table)
    ensures DistinctRows(Tick(meta, e).table)
  {
    hide Decide, Pick;
    var next := Tick(meta, e).table;
    assert forall i | 0 <= i < |next| :: next[i].step == meta.table[i].step && next[i].growth == meta.table[i].growth;
  }
}
