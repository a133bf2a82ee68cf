/** Exactly when a tick does what: every decision of the engine as an if-and-only-if over the stored configuration and
    the fields of the report, with the drops, rebounds, balances and prices written out. */
module StepDecisions {
  import opened Exchange
  import opened Rounding
  import opened CycleScanners
  import opened SellTarget
  import opened StepMachine
  import opened StepRuns

  /** The market can be bought from: both balances are known, the book has both sides, and they do not cross. */
  predicate Quoted(e: Env) {
    && e.base.Some? && e.currency.Some? && e.topSell.Some? && e.topBuy.Some?
    && !(e.topBuy.value.price >= e.topSell.value.price)
  }

  /** The best offer holds at least this base amount, the base balance covers it, and no buy order is open. */
  predicate Payable(e: Env, amount: real)
    requires Quoted(e)
  {
    !(e.topSell.value.baseVolume < amount || e.base.value.total < amount || e.openBuy)
  }

  // ----- The zero step

  /** Before the first purchase a tick closes the zero step, orders the stake, or waits. It closes when what is held is
      worth 95 percent of the stake and the minimum trade, and the newest trade is a buy, whose second starts the
      cycle; it orders the stake at the best price when less is held and the stake with its fee can be paid. */
  lemma ZeroStepIff(meta: Meta, e: Env)
    requires Inv(meta) && meta.execSteps == 0
    ensures var f, next, stake := Decide(meta, e), Tick(meta, e), e.m.tradeSumm;
            var ready := Quoted(e) && !e.pauseMode;
            var enough := ready && e.currency.value.total * e.topSell.value.price >= stake * 0.95
                                && e.currency.value.total * e.topSell.value.price >= e.m.minBasePrice;
            && (f.CloseBuy? <==> enough && e.history != [] && e.history[0].side.Buy?)
            && (f.Submit? <==> ready && !enough && Payable(e, stake + stake * e.m.tradeFee))
            && (f.CloseBuy? || f.Submit? || f.Nothing?)
            && (f.CloseBuy? ==> next.execSteps == 1 && next.cycleStart.Some?
                                && next.cycleStart.value <= e.history[0].time < next.cycleStart.value + 1000
                                && next.cycleStart.value % 1000 == 0
                                && next.table == meta.table[0 := meta.table[0].(buyBlocked := true)])
            && (f.Submit? ==> f.side.Buy? && f.price == Some(e.topSell.value.price)
                              && f.volume * e.topSell.value.price == stake)
            && (!f.CloseBuy? ==> next == meta)
  {
    PickIsActive(meta, 0);
    assert Pick(meta, 0) == BuyAt(0);
    if Quoted(e) {
      Stake(e.m.tradeSumm, e.m.tradeFee, e.topSell.value.price);
    }
  }

  lemma Stake(base: real, fee: real, price: Positive)
    ensures WithFee(base, fee) == base + base * fee
    ensures VolumeFor(base, price) * price == base
  {}

  // ----- A later step that buys

  /** The trend is past the drop of the row below. */
  predicate PastNextDrop(meta: Meta, e: Env) {
    var k := Active(meta.table);
    k + 1 < |meta.table| && e.trend <= -meta.table[k+1].step
  }

  /** The price has come back to the rebound line of the active step, and is above the next drop. */
  predicate Rebounded(meta: Meta, e: Env) {
    var k := Active(meta.table);
    k < |meta.table| && e.trend >= -meta.table[k].growth && !PastNextDrop(meta, e)
  }

  lemma BuyingStep(meta: Meta, e: Env)
    requires Inv(meta) && Buying(meta) && meta.execSteps >= 1
    ensures var k := Active(meta.table);
            && 1 <= k < |meta.table|
            && Decide(meta, e) == StepBuy(meta.table[k].growth, NextRow(meta, k), meta, e)
            && Tick(meta, e) == Apply(meta, k, Decide(meta, e))
  {
    PickIsActive(meta, 0);
  }

  /** A step that buys is left if and only if the market can be bought from and the trend is past the next drop. Both
      its sides are closed then, and the step below waits to buy. */
  lemma SkipsIff(meta: Meta, e: Env)
    requires Inv(meta) && Buying(meta) && meta.execSteps >= 1
    ensures var k, next := Active(meta.table), Tick(meta, e);
            && (Active(next.table) == k + 1 <==>
                Quoted(e) && k + 1 < |meta.table| && e.trend <= -meta.table[k+1].step)
            && (Active(next.table) == k + 1 ==>
                && Buying(next)
                && next == meta.(table := meta.table[k := Row(meta.table[k].step, meta.table[k].growth, true, true)]))
  {
    hide Inv, Tick, Decide, StepBuy;
    var k, f := Active(meta.table), Decide(meta, e);
    BuyingStep(meta, e);
    DecidedWhenEnabled(meta, e);
    ApplyInv(meta, k, f);
    BuyingAfter(meta, k, f);
    SkipChosenIff(meta, e);
  }

  lemma SkipChosenIff(meta: Meta, e: Env)
    requires Inv(meta) && Buying(meta) && meta.execSteps >= 1
    ensures Decide(meta, e).Skip? <==> Quoted(e) && PastNextDrop(meta, e)
    ensures !Decide(meta, e).CloseSell?
  {
    hide PrevVolume, AverageOf;
    BuyingStep(meta, e);
  }

  lemma {:induction false} RunConcat(meta: Meta, a: seq<Env>, b: seq<Env>)
    ensures Run(meta, a + b) == Run(Run(meta, a), b)
  {
    hide Tick;
    if b == [] {
      assert a + b == a;
    } else {
      RunConcat(meta, a, b[..|b|-1]);
      assert (a + b)[..|a+b|-1] == a + b[..|b|-1];
    }
  }

  /** As many ticks past the drop of the row that many rows further down lead exactly there. */
  lemma {:induction false} FallFrom(meta: Meta, falls: seq<Env>)
    requires Inv(meta) && Buying(meta) && meta.execSteps >= 1
    requires var target := Active(meta.table) + |falls|;
             target < |meta.table| && forall e | e in falls :: Quoted(e) && e.trend <= -meta.table[target].step
    ensures var r := Run(meta, falls);
            && Inv(r) && Buying(r) && Active(r.table) == Active(meta.table) + |falls|
            && r.execSteps == meta.execSteps && r.cycleStart == meta.cycleStart
            && forall i | 0 <= i < |meta.table| :: r.table[i].step == meta.table[i].step
    decreases |falls|
  {
    hide Tick, Decide, Buying, Inv, Active, Quoted;
    if falls != [] {
      var n, k := |falls| - 1, Active(meta.table);
      InvTable(meta);
      DropsIncrease(meta.table, k + n, k + n + 1);
      FallFrom(meta, falls[..n]);
      assert falls[n] in falls;
      FallOne(Run(meta, falls[..n]), falls[n]);
    }
  }

  lemma InvTable(meta: Meta)
    requires Inv(meta) && Buying(meta) && meta.execSteps >= 1
    ensures GoodTable(meta.table) && Active(meta.table) >= 1
  {}

  lemma FallOne(meta: Meta, e: Env)
    requires Inv(meta) && Buying(meta) && meta.execSteps >= 1
    requires var k := Active(meta.table); k + 1 < |meta.table| && Quoted(e) && e.trend <= -meta.table[k+1].step
    ensures var r := Tick(meta, e);
            && Inv(r) && Buying(r) && Active(r.table) == Active(meta.table) + 1
            && r.execSteps == meta.execSteps && r.cycleStart == meta.cycleStart
            && forall i | 0 <= i < |meta.table| :: r.table[i].step == meta.table[i].step
  {
    hide Tick, Decide, Buying, Inv, Active;
    SkipsIff(meta, e);
    TickInv(meta, e);
  }

  lemma DropsIncrease(rows: seq<Row>, i: nat, j: nat)
    requires GoodTable(rows) && 1 <= i <= j < |rows|
    ensures rows[i].step <= rows[j].step
    decreases j
  {
    if i < j {
      DropsIncrease(rows, i, j - 1);
    }
  }

  /** A fall always leaves the step: whenever a run has come to a step that buys, each further tick past the drop of a
      row below moves one row down, until that row is the active one, waiting to buy with nothing else changed. */
  lemma FallPassesRows(meta: Meta, before: seq<Env>, falls: seq<Env>)
    requires Fresh(meta) && meta.maxSteps >= 0
    requires Buying(Run(meta, before)) && Run(meta, before).execSteps >= 1
    requires var target := Active(Run(meta, before).table) + |falls|;
             target < |meta.table| && forall e | e in falls :: Quoted(e) && e.trend <= -meta.table[target].step
    ensures var s, r := Run(meta, before), Run(meta, before + falls);
            && Active(r.table) == Active(s.table) + |falls| && Buying(r)
            && r.execSteps == s.execSteps && r.cycleStart == s.cycleStart
  {
    hide Tick, Decide, Buying, Active, Inv, Run;
    RunInv(meta, before);
    RowsFixed(meta, before, Active(Run(meta, before).table) + |falls|);
    RunConcat(meta, before, falls);
    FallFrom(Run(meta, before), falls);
  }

  /** At a step that buys, a tick orders as much again as is held, or credits the last purchase, exactly when the price
      has rebounded, something is held, and: no filled buy is uncredited and the order with its fee can be paid; or one
      is, and the holding is 95 percent of twice the earlier buys and worth the minimum trade. */
  lemma AveragingIff(meta: Meta, e: Env)
    requires Inv(meta) && Buying(meta) && meta.execSteps >= 1
    ensures var f, next := Decide(meta, e), Tick(meta, e);
            var ready := Quoted(e) && Rebounded(meta, e) && e.currency.value.total * e.topSell.value.price != 0.0;
            var uncredited := |Window(e.history, meta.cycleStart)| > meta.execSteps;
            && (f.Submit? <==>
                && ready && !uncredited
                && var value := e.currency.value.total * e.topSell.value.price; Payable(e, value + value * e.m.tradeFee))
            && (f.CloseBuy? <==>
                && ready && uncredited && e.history != []
                && e.currency.value.total >= Floor8(PrevSum(e.history)) * 1.9
                && e.currency.value.total * e.topSell.value.price >= e.m.minBasePrice)
            && (f.Submit? ==> f.side.Buy? && f.price == Some(e.topSell.value.price) && f.volume == e.currency.value.total)
            && (f.CloseBuy? ==> next == meta.(execSteps := meta.execSteps + 1, table := next.table)
                                && var k := Active(meta.table); next.table == meta.table[k := meta.table[k].(buyBlocked := true)])
            && (f.Submit? || f.Nothing? ==> next == meta)
  {
    hide Inv, Active, Window, PrevSum, Floor8, Buying;
    BuyingStep(meta, e);
    if Quoted(e) {
      var value := Worth(e.currency.value.total, e.topSell.value.price);
      assert WithFee(value, e.m.tradeFee) == value + value * e.m.tradeFee;
    }
  }

  // ----- A step that sells

  lemma SellingStep(meta: Meta, e: Env)
    requires Inv(meta) && !Buying(meta)
    ensures var k := Active(meta.table);
            && k < |meta.table|
            && Decide(meta, e) == (if k == 0 then ZeroSell(meta, e) else StepSell(NextRow(meta, k), meta, e))
            && Tick(meta, e) == Apply(meta, k, Decide(meta, e))
            && |meta.table| > 2 && meta.table[1].step > 0.0
  {
    PickIsActive(meta, 0);
  }

  /** How far the price must fall before the active step stops selling: past the first drop at the zero step, and past
      the rebound line of the row below at a later one, as long as the maximum leaves a purchase. */
  predicate FellBelow(meta: Meta, e: Env) {
    var k := Active(meta.table);
    && k + 1 < |meta.table|
    && (if k == 0 then e.trend < -meta.table[1].step
        else meta.execSteps < meta.maxSteps && e.trend < -meta.table[k+1].growth)
  }

  /** The open sell order stays, is cancelled, or is cancelled with the step's selling closed. It is cancelled alone if
      and only if its volume is below the holding in whole lots; if it is not, the step is left if and only if the price
      fell below its line, and otherwise nothing happens. */
  lemma OfferKeptIff(meta: Meta, e: Env)
    requires Inv(meta) && !Buying(meta) && e.openSell.Some? && e.currency.Some?
    ensures var f, next, k := Decide(meta, e), Tick(meta, e), Active(meta.table);
            var covered := e.openSell.value.volume >= RoundTruncate(e.m.lot, e.currency.value.total);
            && (f.Cancel? <==> !covered)
            && (f.CloseSell? <==> covered && FellBelow(meta, e))
            && (f.Cancel? || f.CloseSell? ==> f.id == e.openSell.value.id)
            && (Active(next.table) == k + 1 <==> covered && FellBelow(meta, e))
            && (f.Cancel? || f.CloseSell? || f.Nothing?)
            && next == if f.CloseSell? then meta.(table := meta.table[k := meta.table[k].(sellBlocked := true)]) else meta
  {
    hide RoundTruncate, Active, Inv;
    SellingStep(meta, e);
    DecidedWhenEnabled(meta, e);
    ApplyInv(meta, Active(meta.table), Decide(meta, e));
  }

  /** Without an open sell order a tick offers all that is held at the target, ends the cycle, or waits: it ends it when
      less than a lot is held or the available part is worth less than the minimum at the target, and offers when all of
      the holding is available. */
  lemma OffersIff(meta: Meta, e: Env)
    requires Inv(meta) && !Buying(meta) && e.openSell.None?
    ensures var f, next, target := Decide(meta, e), Tick(meta, e), Target(e.history, meta.cycleStart, e.m);
            var known := e.currency.Some? && e.history != [];
            var over := known && (e.currency.value.total < e.m.lot
                                  || (target.Some? && e.currency.value.available * target.value < e.m.minNotional));
            && (f.Unlock? <==> over)
            && (f.Submit? <==> known && !over && e.currency.value.available >= e.currency.value.total)
            && (f.Submit? ==> f.side.Sell? && f.price == target && f.volume == e.currency.value.available)
            && (f.Unlock? || f.Submit? || f.Nothing?)
            && (f.Unlock? ==> Fresh(next) && next.maxSteps == meta.maxSteps)
            && (!f.Unlock? ==> next == meta)
  {
    hide Target, Active, Inv, Fresh, Buying, BuysNow, Pick, Decide, Tick;
    SellingStep(meta, e);
    TickInv(meta, e);
  }

  /** Without balance reports a step that sells does nothing. */
  lemma SellsBlind(meta: Meta, e: Env)
    requires Inv(meta) && !Buying(meta) && e.currency.None?
    ensures Decide(meta, e) == Nothing && Tick(meta, e) == meta
  {
    SellingStep(meta, e);
  }
}
