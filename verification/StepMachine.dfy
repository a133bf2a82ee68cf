/** What one timer tick of the Hanukkah engine does to one market, as a function of the stored configuration and of
    what the storages report. The object form of the same code is in Hanukkah.dfy. */
module StepMachine {
  import opened Exchange
  import opened Rounding
  import opened CycleScanners
  import opened SellTarget

  /** A row of the averaging table: drop and rebound in percent, and the two flags of its step. */
  datatype Row = Row(step: real, growth: real, buyBlocked: bool, sellBlocked: bool)

  /** The stored meta configuration of a market. */
  datatype Meta = Meta(execSteps: int, maxSteps: int, cycleStart: Option<nat>, table: seq<Row>)

  datatype Balance = Balance(total: real, available: real)
  datatype Quote = Quote(price: Positive, baseVolume: real)
  datatype OpenOrder = OpenOrder(id: nat, volume: real)

  /** Everything else a tick reads. The history is newest first. */
  datatype Env = Env(
    m: Params,
    pauseMode: bool,
    trend: real,
    base: Option<Balance>,
    currency: Option<Balance>,
    topSell: Option<Quote>,
    topBuy: Option<Quote>,
    history: seq<Trade>,
    openSell: Option<OpenOrder>,
    openBuy: bool)

  /** The one thing a tick does. A sell price is absent when the target is not a number. */
  datatype Effect =
    | Nothing
    | Submit(side: Side, price: Option<real>, volume: real)
    | Cancel(id: nat)
    | CloseBuy(stamp: Option<nat>)
    | CloseSell(id: nat)
    | Skip
    | Unlock

  // ----- Amounts

  /** A base amount with the fee on it. */
  function WithFee(base: real, fee: real): real { base * (1.0 + fee) }

  /** The volume a base amount buys at a price. */
  function VolumeFor(base: real, price: Positive): real { base / price }

  // ----- The four logics

  /** Both logics that buy wait until balances are known and the book is not crossed. */
  predicate CanBuy(e: Env) {
    e.base.Some? && e.currency.Some? && e.topSell.Some? && e.topBuy.Some? && e.topBuy.value.price < e.topSell.value.price
  }

  function BuyOrder(e: Env, full: real, volume: real): Effect
    requires CanBuy(e)
  {
    if e.topSell.value.baseVolume >= full && e.base.value.total >= full && !e.openBuy
    then Submit(Buy, Some(e.topSell.value.price), volume) else Nothing
  }

  function ZeroBuy(e: Env): Effect {
    if e.pauseMode || !CanBuy(e) then Nothing else
    var price := e.topSell.value.price;
    var value := Worth(e.currency.value.total, price);
    if value >= e.m.tradeSumm * 0.95 && value >= e.m.minBasePrice then
      if e.history == [] || e.history[0].side.Sell? then Nothing else CloseBuy(Some(e.history[0].time))
    else
      BuyOrder(e, WithFee(e.m.tradeSumm, e.m.tradeFee), VolumeFor(e.m.tradeSumm, price))
  }

  /** Is there a row below `k`? */
  predicate HasNext(meta: Meta, k: nat) {
    k + 1 < |meta.table|
  }

  function NextRow(meta: Meta, k: nat): Option<Row> {
    if HasNext(meta, k) then Some(meta.table[k+1]) else None
  }

  /** A step knows its own rebound and its successor in the table. */
  function StepBuy(growth: real, next: Option<Row>, meta: Meta, e: Env): Effect {
    if !CanBuy(e) then Nothing
    else if next.Some? && e.trend <= -next.value.step then Skip
    else if e.trend < -growth then Nothing
    else
      var total := e.currency.value.total;
      var value := Worth(total, e.topSell.value.price);
      if value == 0.0 then Nothing
      else if AverageOf(e.history, meta.cycleStart).ordersCount > meta.execSteps then
        if e.history != [] && total >= PrevVolume(e.history) * 2.0 * 0.95 && value >= e.m.minBasePrice
        then CloseBuy(None) else Nothing
      else
        BuyOrder(e, WithFee(value, e.m.tradeFee), total)
  }

  /** No sell order is open: end the cycle if nothing is left to sell, otherwise offer all of it. */
  function PlaceSell(start: Option<nat>, e: Env, b: Balance): Effect {
    var target := Target(e.history, start, e.m);
    if e.history == [] then Nothing
    else if (b.total == 0.0 && b.available == 0.0) || e.m.lot > b.total
            || (target.Some? && e.m.minNotional > Worth(b.available, target.value)) then Unlock
    else if b.total > b.available then Nothing
    else Submit(Sell, target, b.available)
  }

  /** The open sell order no longer covers the balance. */
  predicate Outgrown(e: Env, b: Balance)
    requires e.openSell.Some?
  {
    e.openSell.value.volume < RoundTruncate(e.m.lot, b.total)
  }

  function ZeroSell(meta: Meta, e: Env): Effect {
    if e.currency.None? || |meta.table| <= 2 || meta.table[1].step == 0.0 then Nothing
    else if e.openSell.None? then PlaceSell(meta.cycleStart, e, e.currency.value)
    else if Outgrown(e, e.currency.value) then Cancel(e.openSell.value.id)
    else if e.trend < -meta.table[1].step then CloseSell(e.openSell.value.id)
    else Nothing
  }

  function StepSell(next: Option<Row>, meta: Meta, e: Env): Effect {
    if e.currency.None? then Nothing
    else if e.openSell.None? then PlaceSell(meta.cycleStart, e, e.currency.value)
    else if Outgrown(e, e.currency.value) then Cancel(e.openSell.value.id)
    else if meta.execSteps >= meta.maxSteps then Nothing
    else if next.Some? && e.trend < -next.value.growth then CloseSell(e.openSell.value.id)
    else Nothing
  }

  // ----- The scheduler

  datatype Choice = BuyAt(k: nat) | SellAt(k: nat) | NoStep

  predicate BuysNow(meta: Meta, k: nat)
    requires k < |meta.table|
  {
    !meta.table[k].buyBlocked && meta.execSteps <= meta.maxSteps
  }

  /** The first step, from `k` on, with a side still open. */
  function Pick(meta: Meta, k: nat): (c: Choice)
    requires k <= |meta.table|
    ensures !c.NoStep? ==> k <= c.k < |meta.table|
    decreases |meta.table| - k
  {
    if k == |meta.table| then NoStep
    else if BuysNow(meta, k) then BuyAt(k)
    else if !meta.table[k].sellBlocked then SellAt(k)
    else Pick(meta, k + 1)
  }

  function Decide(meta: Meta, e: Env): Effect {
    match Pick(meta, 0)
    case BuyAt(k) => if k == 0 then ZeroBuy(e) else StepBuy(meta.table[k].growth, NextRow(meta, k), meta, e)
    case SellAt(k) => if k == 0 then ZeroSell(meta, e) else StepSell(NextRow(meta, k), meta, e)
    case NoStep => Nothing
  }

  // ----- Updating the stored configuration

  /** Dates are stored to the second. */
  function Second(t: nat): (s: nat)
    ensures s % 1000 == 0 && s <= t < s + 1000
  {
    t - t % 1000
  }

  function WithFlags(meta: Meta, k: nat, buyBlocked: bool, sellBlocked: bool): Meta
    requires k < |meta.table|
  {
    meta.(table := meta.table[k := meta.table[k].(buyBlocked := buyBlocked, sellBlocked := sellBlocked)])
  }

  function Credited(meta: Meta, stamp: Option<nat>): Meta {
    meta.(execSteps := meta.execSteps + 1,
          cycleStart := if meta.cycleStart.None? && stamp.Some? then Some(Second(stamp.value)) else meta.cycleStart)
  }

  function Unblocked(rows: seq<Row>): (r: seq<Row>)
    ensures |r| == |rows|
    ensures forall i | 0 <= i < |r| :: r[i] == Row(rows[i].step, rows[i].growth, false, false)
  {
    if rows == [] then [] else Unblocked(rows[..|rows|-1]) + [rows[|rows|-1].(buyBlocked := false, sellBlocked := false)]
  }

  function Unlocked(meta: Meta): Meta {
    Meta(0, meta.maxSteps, None, Unblocked(meta.table))
  }

  function Apply(meta: Meta, k: nat, f: Effect): Meta
    requires k < |meta.table|
  {
    match f
    case CloseBuy(stamp) => Credited(WithFlags(meta, k, true, meta.table[k].sellBlocked), stamp)
    case CloseSell(_) => WithFlags(meta, k, meta.table[k].buyBlocked, true)
    case Skip => WithFlags(meta, k, true, true)
    case Unlock => Unlocked(meta)
    case _ => meta
  }

  /** One tick. */
  function Tick(meta: Meta, e: Env): (r: Meta)
    ensures |r.table| == |meta.table| && r.maxSteps == meta.maxSteps
  {
    var c := Pick(meta, 0);
    if c.NoStep? then meta else Apply(meta, c.k, Decide(meta, e))
  }
}
