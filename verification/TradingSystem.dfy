/** The engine together with the exchange: ticks, fills, rejections and cancellations of one market, in any order. */
module TradingSystem {
  import opened Exchange
  import opened Rounding
  import opened OrderNormalisation
  import opened CycleScanners
  import opened SellTarget
  import opened StepMachine
  import opened StepRuns
  import opened StepDecisions

  /** A buy on its way, and whether its volume was corrected to the exchange's minimum. */
  datatype Pending = Pending(volume: real, corrected: bool)

  /** An open sell order. Cancelling it is only a request: until it is answered the order may still fill. */
  datatype Offer = Offer(price: real, volume: real, cancelling: bool)

  /** What is recorded of the running cycle when its zero step closes: the holding, the length of the history, whether
      a buy was still in flight, and whether the closing buy stands alone and is covered by the holding. Later events
      add whether an averaging buy was corrected to the exchange's minimum and whether a sale landed after its
      cancellation had been requested. */
  datatype Cycle = Cycle(first: real, mark: nat, overlap: bool, clean: bool, corrected: bool, late: bool)

  datatype Sys = Sys(
    meta: Meta,
    history: seq<Trade>,
    held: real,
    pending: Option<Pending>,
    offer: Option<Offer>,
    cycle: Cycle)

  datatype Event =
    | Ticked(e: Env, accepted: bool)
    | BuyFilled(price: real, baseVolume: real, fee: real, time: nat)
    | BuyRejected
    | SellFilled(baseVolume: real, fee: real, time: nat)
    | OfferGone

  predicate GoodParams(m: Params) {
    0.0 <= m.tradeFee <= 1.0 && m.minNotional >= 0.0 && m.tradeSumm > 0.0 && m.profit >= 0.0
  }

  predicate Later(time: nat, h: seq<Trade>) {
    h == [] || Second(time) > Second(h[0].time)
  }

  /** The tick sees the current history, total balance and open sell order. How much of the balance it sees as
      available is open: the release of a cancelled order's coins is reported separately from its cancellation. */
  predicate Sees(m: Params, s: Sys, e: Env) {
    && e.m == m && e.history == s.history
    && (e.currency.Some? ==> e.currency.value.total == s.held)
    && (e.currency.Some? ==> e.currency.value.available <= s.held)
    && (s.offer.Some? <==> e.openSell.Some?)
    && (s.offer.Some? ==> e.openSell.value.volume == s.offer.value.volume)
    && (e.topSell.Some? ==> e.topSell.value.price >= m.tickSize)
  }

  /** What may happen next: any tick at any time; a second buy is accepted only when none is in flight; orders fill
      fully or not at all; trades are a second apart. */
  predicate Allowed(m: Params, s: Sys, ev: Event) {
    match ev
    case Ticked(e, accepted) =>
      && Sees(m, s, e)
      && (accepted ==> var f := Decide(s.meta, e); f.Submit? && f.price.Some? && (f.side.Buy? ==> s.pending.None?))
    case BuyFilled(price, base, fee, time) => s.pending.Some? && Later(time, s.history) && base >= 0.0 && fee >= 0.0
    case BuyRejected => s.pending.Some?
    case SellFilled(base, fee, time) => s.offer.Some? && Later(time, s.history)
    case OfferGone => s.offer.Some?
  }

  /** The newest trade is covered by the holding, and behind it there is a sale or nothing. */
  predicate CleanStart(h: seq<Trade>, held: real) {
    h != [] && h[0].volume <= held && (|h| == 1 || h[1].side.Sell?)
  }

  function Cancelled(offer: Option<Offer>): Option<Offer> {
    if offer.Some? then Some(offer.value.(cancelling := true)) else None
  }

  function AfterTick(m: Params, s: Sys, f: Effect, meta: Meta, accepted: bool): Sys
    requires accepted ==> f.Submit? && f.price.Some? && (f.side.Buy? ==> f.price.value >= m.tickSize)
  {
    var s := s.(meta := meta);
    match f
    case Submit(side, price, volume) =>
      if !accepted then s
      else
        var t := Normalised(m, side, price.value, volume);
        if side.Buy? then s.(pending := Some(Pending(t.volume, NeedsFixup(m, side, price.value, volume))))
        else s.(offer := Some(Offer(t.price, t.volume, false)))
    case Cancel(_) => s.(offer := Cancelled(s.offer))
    case CloseSell(_) => s.(offer := Cancelled(s.offer))
    case CloseBuy(stamp) =>
      if stamp.None? then s
      else s.(cycle := Cycle(s.held, |s.history|, s.pending.Some?, CleanStart(s.history, s.held), false, false))
    case _ => s
  }

  /** A buy is submitted at the top of the book, which is at least one tick. */
  lemma SubmitPrice(m: Params, s: Sys, e: Env)
    requires Sees(m, s, e)
    ensures var f := Decide(s.meta, e); f.Submit? && f.side.Buy? ==> f.price.Some? && f.price.value >= m.tickSize
  {}

  function Next(m: Params, s: Sys, ev: Event): Sys
    requires Allowed(m, s, ev)
  {
    match ev
    case Ticked(e, accepted) =>
      SubmitPrice(m, s, e);
      AfterTick(m, s, Decide(s.meta, e), Tick(s.meta, e), accepted)
    case BuyFilled(price, base, fee, time) =>
      var p := s.pending.value;
      s.(history := [Trade(Buy, price, p.volume, base, fee, time)] + s.history,
         held := s.held + p.volume, pending := None,
         cycle := s.cycle.(corrected := s.cycle.corrected || p.corrected))
    case BuyRejected => s.(pending := None)
    case SellFilled(base, fee, time) =>
      var o := s.offer.value;
      s.(history := [Trade(Sell, o.price, o.volume, base, fee, time)] + s.history,
         held := s.held - o.volume, offer := None,
         cycle := s.cycle.(late := s.cycle.late || o.cancelling))
    case OfferGone => s.(offer := None)
  }

  /** The state after a sequence of events, if each was allowed when it happened. */
  function After(m: Params, s: Sys, evs: seq<Event>): Option<Sys> {
    if evs == [] then Some(s)
    else
      var before, ev := After(m, s, evs[..|evs|-1]), evs[|evs|-1];
      if before.Some? && Allowed(m, before.value, ev) then Some(Next(m, before.value, ev)) else None
  }

  // ----- The invariant

  function Doubled(n: nat): (r: real)
    ensures r >= 1.0
  {
    if n == 0 then 1.0 else 2.0 * Doubled(n - 1)
  }

  predicate GoodHistory(h: seq<Trade>) {
    && (forall i, j | 0 <= i < j < |h| :: Second(h[j].time) < Second(h[i].time))
    && (forall i | 0 <= i < |h| :: h[i].side.Buy? ==> h[i].volume > 0.0 && h[i].baseVolume >= 0.0 && h[i].fee >= 0.0)
  }

  /** Filled buys of the running cycle. */
  function Filled(s: Sys): nat {
    |Window(s.history, s.meta.cycleStart)|
  }

  /** The averaging buys: the window without its oldest trade, the one the cycle started with. */
  function LaterBuys(s: Sys): seq<Trade> {
    var w := Window(s.history, s.meta.cycleStart);
    if w == [] then [] else w[..|w|-1]
  }

  /** Coins bought less coins sold. */
  function Net(h: seq<Trade>): real {
    if h == [] then 0.0 else (if h[0].side.Buy? then h[0].volume else -h[0].volume) + Net(h[1..])
  }

  /** The holding lies between plain doubling and doubling with one more lot each time. */
  predicate Exposure(lot: real, held: real, first: real, n: nat, corrected: bool)
    requires n >= 1
  {
    && held >= Doubled(n - 1) * first
    && (!corrected ==> held <= Doubled(n - 1) * first + (Doubled(n - 1) - 1.0) * lot)
  }

  predicate Selling(s: Sys) {
    s.meta.execSteps >= 1 && !Buying(s.meta)
  }

  /** An order nobody asked to cancel. */
  predicate Live(s: Sys) {
    s.offer.Some? && !s.offer.value.cancelling
  }

  predicate OfferOk(m: Params, s: Sys)
    requires s.offer.Some?
  {
    var target := Target(s.history, s.meta.cycleStart, m);
    && s.offer.value.volume == RoundTruncate(m.lot, s.held)
    && target.Some?
    && s.offer.value.price == RoundTruncate(m.tickSize, target.value)
  }

  /** No buy was in flight when the zero step closed, and no sale landed after its cancellation had been requested. */
  predicate Regular(s: Sys) {
    !s.cycle.overlap && !s.cycle.late
  }

  /** A regular cycle between the close of its zero step and its sale. */
  predicate Holding(m: Params, s: Sys) {
    && Filled(s) >= 1 && s.history != []
    && Exposure(m.lot, s.held, s.cycle.first, Filled(s), s.cycle.corrected)
    && s.held > 0.0 && s.cycle.first > 0.0
    && s.held == s.cycle.first + SumVolume(LaterBuys(s))
    && (Filled(s) > s.meta.execSteps ==> 2.0 * s.history[0].volume >= s.held)
    && (s.cycle.clean ==> CleanCycle(s.history, s.meta.cycleStart, Filled(s)) && s.history[Filled(s)-1].volume <= s.cycle.first)
    && (s.pending.Some? ==>
          s.pending.value.volume >= s.held
          && (!s.pending.value.corrected ==> s.pending.value.volume < s.held + m.lot))
  }

  predicate RegularInv(m: Params, s: Sys)
    requires s.history != []
  {
    && s.meta.execSteps <= Filled(s)
    && (if s.history[0].side.Buy? then Holding(m, s) else s.held < m.lot && Selling(s) && s.offer.None?)
  }

  /** What holds in every cycle, regular or not. */
  predicate CycleInv(s: Sys) {
    && s.history != [] && s.meta.cycleStart.Some?
    && s.history[0].time >= s.meta.cycleStart.value
    && 1 <= Filled(s) <= s.meta.execSteps + 1
    && (s.pending.Some? ==> Filled(s) <= s.meta.execSteps)
    && (!s.cycle.overlap && (s.pending.Some? || Filled(s) > s.meta.execSteps) ==> Buying(s.meta))
  }

  predicate SysInv(m: Params, s: Sys) {
    && GoodParams(m)
    && Inv(s.meta)
    && GoodHistory(s.history)
    && s.held >= 0.0
    && s.cycle.mark <= |s.history| && s.held == s.cycle.first + Net(s.history[..|s.history|-s.cycle.mark])
    && (s.pending.Some? ==> s.pending.value.volume > 0.0)
    && (s.offer.Some? ==> s.meta.execSteps >= 1 && s.offer.value.volume <= s.held)
    && (Live(s) ==> Selling(s) && (!s.cycle.overlap ==> OfferOk(m, s)))
    && (s.meta.execSteps >= 1 ==> CycleInv(s) && (Regular(s) ==> RegularInv(m, s)))
  }

  // ----- One event at a time

  lemma FillKeepsHistory(h: seq<Trade>, t: Trade)
    requires GoodHistory(h) && Later(t.time, h)
    requires t.side.Buy? ==> t.volume > 0.0 && t.baseVolume >= 0.0 && t.fee >= 0.0
    ensures GoodHistory([t] + h)
    ensures h != [] ==> t.time >= h[0].time
  {}

  lemma NetCons(t: Trade, h: seq<Trade>, n: nat)
    requires n <= |h|
    ensures Net(([t] + h)[..n+1]) == (if t.side.Buy? then t.volume else -t.volume) + Net(h[..n])
  {
    assert ([t] + h)[..n+1] == [t] + h[..n];
    assert ([t] + h[..n])[1..] == h[..n];
  }

  /** One more fill, whatever the cycle. */
  lemma FillKeepsCycle(s: Sys, b: Trade)
    requires s.meta.execSteps >= 1 && s.meta.cycleStart.Some? && CycleInv(s) && s.pending.Some?
    requires b.side.Buy? && b.time >= s.history[0].time
    ensures CycleInv(s.(history := [b] + s.history, pending := None))
    ensures s.history[0].side.Buy? ==>
              Window([b] + s.history, s.meta.cycleStart) == [b] + Window(s.history, s.meta.cycleStart)
  {
    WindowAfterBuy(s.history, s.meta.cycleStart, b);
  }

  lemma Doubling(lot: Positive, held: real, first: real, n: nat, corrected: bool, volume: real, extra: bool)
    requires n >= 1 && Exposure(lot, held, first, n, corrected)
    requires volume >= held && (!extra ==> volume < held + lot)
    ensures Exposure(lot, held + volume, first, n + 1, corrected || extra)
  {
    var d := Doubled(n - 1);
    assert Doubled(n) == 2.0 * d;
    assert 2.0 * d * first == 2.0 * (d * first);
    assert (2.0 * d - 1.0) * lot == 2.0 * ((d - 1.0) * lot) + lot;
  }

  lemma CleanGrows(h: seq<Trade>, start: Option<nat>, n: nat, b: Trade)
    requires CleanCycle(h, start, n) && Counted(b, start)
    ensures CleanCycle([b] + h, start, n + 1) && ([b] + h)[n] == h[n-1]
  {
    assert forall i | 0 < i < n + 1 :: ([b] + h)[i] == h[i-1];
  }

  /** The holding part of a regular fill, away from the rest of the state. */
  lemma FillKeepsHolding(m: Params, s: Sys, t: Sys)
    requires Holding(m, s) && Counted(s.history[0], s.meta.cycleStart) && s.pending.Some?
    requires t.meta == s.meta && t.history != [] && t.history == [t.history[0]] + s.history
    requires Counted(t.history[0], s.meta.cycleStart) && t.history[0].volume == s.pending.value.volume
    requires t.held == s.held + s.pending.value.volume && t.pending.None? && t.offer == s.offer
    requires t.cycle == s.cycle.(corrected := s.cycle.corrected || s.pending.value.corrected)
    ensures Holding(m, t)
  {
    hide OfferOk, Exposure, CleanCycle;
    var b, n := t.history[0], Filled(s);
    WindowAfterBuy(s.history, s.meta.cycleStart, b);
    assert Filled(t) == n + 1;
    Doubling(m.lot, s.held, s.cycle.first, n, s.cycle.corrected, s.pending.value.volume, s.pending.value.corrected);
    assert LaterBuys(t) == [b] + LaterBuys(s);
    SumVolumeCons(b, LaterBuys(s));
    if s.cycle.clean {
      CleanGrows(s.history, s.meta.cycleStart, n, b);
    }
  }

  lemma BuyFilledInv(m: Params, s: Sys, ev: Event)
    requires SysInv(m, s) && Allowed(m, s, ev) && ev.BuyFilled?
    ensures SysInv(m, Next(m, s, ev))
  {
    hide Holding, Net;
    var t := Next(m, s, ev);
    var b := t.history[0];
    FillKeepsHistory(s.history, b);
    NetCons(b, s.history, |s.history| - s.cycle.mark);
    if s.meta.execSteps >= 1 {
      FillKeepsCycle(s, b);
      if Regular(s) {
        FillKeepsHolding(m, s, t);
      }
    }
  }

  lemma SellFilledInv(m: Params, s: Sys, ev: Event)
    requires SysInv(m, s) && Allowed(m, s, ev) && ev.SellFilled?
    ensures SysInv(m, Next(m, s, ev))
  {
    hide Exposure, CleanCycle, Target, Net;
    var t := Next(m, s, ev);
    FillKeepsHistory(s.history, t.history[0]);
    NetCons(t.history[0], s.history, |s.history| - s.cycle.mark);
    WindowAfterSell(s.history, s.meta.cycleStart, t.history[0]);
  }

  /** The zero step closes: the window is the newest trade alone. */
  lemma OneBuyCounted(h: seq<Trade>)
    requires GoodHistory(h) && h != [] && h[0].side.Buy?
    ensures Window(h, Some(Second(h[0].time))) == [h[0]]
  {
    var start := Some(Second(h[0].time));
    forall i | 0 <= i < |h| - 1 ensures !Counted(h[1..][i], start) {
      assert h[1..][i] == h[i+1];
      assert Second(h[i+1].time) < Second(h[0].time);
    }
    NothingCounted(h[1..], start);
  }

  /** What the decision says about the state it was taken in. */
  ghost predicate Meant(m: Params, s: Sys, f: Effect) {
    match f
    case Submit(side, price, volume) =>
      if side.Buy? then
        && price.Some? && price.value >= m.tickSize
        && volume > 0.0
        && (s.meta.execSteps >= 1 ==> volume == s.held && Filled(s) <= s.meta.execSteps)
      else
        && price == Target(s.history, s.meta.cycleStart, m)
        && volume == s.held >= m.lot
        && s.offer.None?
    case CloseBuy(stamp) =>
      if stamp.Some? then s.held > 0.0 && s.history != [] && s.history[0].side.Buy? && stamp.value == s.history[0].time
      else Filled(s) > s.meta.execSteps
    case CloseSell(_) => s.offer.Some?
    case Cancel(_) => s.offer.Some?
    case Unlock => s.offer.None?
    case _ => true
  }

  lemma PositiveProduct(a: real, b: Positive)
    requires a >= 0.0
    ensures a * b > 0.0 || a * b == 0.0
    ensures a * b != 0.0 ==> a > 0.0
  {}

  lemma PositiveQuotient(a: real, b: Positive)
    requires a > 0.0
    ensures a / b > 0.0
  {}

  lemma DecisionMeant(m: Params, s: Sys, e: Env)
    requires GoodParams(m) && Inv(s.meta) && s.held >= 0.0 && Sees(m, s, e)
    ensures Meant(m, s, Decide(s.meta, e))
  {
    PickIsActive(s.meta, 0);
    var k := Active(s.meta.table);
    if BuysNow(s.meta, k) && CanBuy(e) {
      var price := e.topSell.value.price;
      PositiveProduct(s.held, price);
      PositiveQuotient(m.tradeSumm, price);
      assert Worth(s.held, price) >= m.tradeSumm * 0.95 ==> s.held > 0.0;
    }
  }

  lemma BuySubmitted(m: Params, s: Sys, f: Effect, meta: Meta)
    requires SysInv(m, s) && f.Submit? && f.side.Buy? && Meant(m, s, f) && s.pending.None?
    requires meta == s.meta && Buying(meta)
    ensures SysInv(m, AfterTick(m, s, f, meta, true))
  {
    hide Normalised, NeedsFixup, Exposure, CleanCycle, OfferOk, Net, Window;
    BuyVolume(m, f.price.value, f.volume);
  }

  lemma BuyVolume(m: Params, price: real, volume: real)
    requires price >= m.tickSize && volume > 0.0 && m.minNotional >= 0.0 && m.tradeFee >= 0.0
    ensures Normalised(m, Buy, price, volume).volume >= volume
    ensures !NeedsFixup(m, Buy, price, volume) ==> Normalised(m, Buy, price, volume).volume < volume + m.lot
  {
    BuyNeverShrinks(m, price, volume);
    OnGrid(m, Buy, price, volume);
  }

  lemma SellSubmitted(m: Params, s: Sys, f: Effect, meta: Meta)
    requires SysInv(m, s) && f.Submit? && f.side.Sell? && Meant(m, s, f) && f.price.Some?
    requires meta == s.meta && Selling(s)
    ensures SysInv(m, AfterTick(m, s, f, meta, true))
  {
    hide Exposure, CleanCycle, Net, Window, Target;
  }

  lemma ZeroClosed(m: Params, s: Sys, f: Effect, meta: Meta)
    requires SysInv(m, s) && f.CloseBuy? && f.stamp.Some? && Meant(m, s, f)
    requires Inv(meta) && !Buying(meta) && meta.execSteps == 1 && s.meta.execSteps == 0
    requires meta.cycleStart == Some(Second(f.stamp.value))
    ensures SysInv(m, AfterTick(m, s, f, meta, false))
  {
    hide OfferOk, Normalised, Inv, Buying;
    OneBuyCounted(s.history);
    assert Doubled(0) == 1.0;
    assert s.history[..0] == [];
  }

  lemma StepClosed(m: Params, s: Sys, f: Effect, meta: Meta)
    requires SysInv(m, s) && f.CloseBuy? && f.stamp.None? && Meant(m, s, f)
    requires Inv(meta) && !Buying(meta) && Buying(s.meta) && s.meta.execSteps >= 1
    requires meta.execSteps == s.meta.execSteps + 1 && meta.cycleStart == s.meta.cycleStart
    ensures SysInv(m, AfterTick(m, s, f, meta, false))
  {
    hide OfferOk, Normalised, Inv, Buying, Exposure, CleanCycle, Net, Window;
  }

  lemma BuyClosed(m: Params, s: Sys, f: Effect, meta: Meta)
    requires SysInv(m, s) && f.CloseBuy? && Meant(m, s, f)
    requires var k := Active(s.meta.table); Enabled(s.meta, k, f) && meta == Apply(s.meta, k, f)
    ensures SysInv(m, AfterTick(m, s, f, meta, false))
  {
    hide Holding, AfterTick, Apply, Enabled, Meant, CycleInv, RegularInv, Inv, GoodHistory;
    assert Inv(s.meta);
    ApplyInv(s.meta, Active(s.meta.table), f);
    BuyingAfter(s.meta, Active(s.meta.table), f);
    NotNegative(s.meta);
    if f.stamp.Some? {
      ZeroClosed(m, s, f, meta);
    } else {
      StepClosed(m, s, f, meta);
    }
  }

  lemma NotNegative(meta: Meta)
    requires Inv(meta)
    ensures meta.execSteps >= 0
  {}

  /** An effect that leaves counter and cycle start alone and does not turn a selling step into a buying one unless
      it asks to cancel what is offered. */
  lemma StepMoves(m: Params, s: Sys, f: Effect, meta: Meta)
    requires SysInv(m, s) && !f.CloseBuy? && !f.Unlock?
    requires Inv(meta) && meta.execSteps == s.meta.execSteps && meta.cycleStart == s.meta.cycleStart
    requires Buying(s.meta) ==> Buying(meta)
    requires Buying(meta) && !Buying(s.meta) ==> f.CloseSell?
    requires f.CloseSell? ==> !(s.meta.execSteps >= 1 && Regular(s) && s.history[0].side.Sell?)
    ensures SysInv(m, AfterTick(m, s, f, meta, false))
  {
    hide Normalised, NeedsFixup, Inv, Buying, Exposure, Target, Window, SumVolume, CleanCycle, Net, Cap, GoodHistory;
    if f.CloseSell? || f.Cancel? {
      assert !Live(AfterTick(m, s, f, meta, false));
    } else {
      assert AfterTick(m, s, f, meta, false) == s.(meta := meta);
    }
  }

  lemma CycleEnded(m: Params, s: Sys, f: Effect, meta: Meta)
    requires SysInv(m, s) && f.Unlock? && s.offer.None?
    requires Inv(meta) && meta.execSteps == 0
    ensures SysInv(m, AfterTick(m, s, f, meta, false))
  {
    hide Inv, Holding, RegularInv, CycleInv, Net;
  }

  lemma OtherEffect(m: Params, s: Sys, f: Effect, meta: Meta)
    requires SysInv(m, s) && !f.CloseBuy? && Meant(m, s, f)
    requires s.meta.execSteps >= 1 && Regular(s) && s.history[0].side.Sell? ==> f.Nothing? || f.Unlock? || f.Submit?
    requires var k := Active(s.meta.table); Enabled(s.meta, k, f) && meta == Apply(s.meta, k, f)
    ensures SysInv(m, AfterTick(m, s, f, meta, false))
  {
    hide Holding, AfterTick, RegularInv, Inv, Enabled, Buying, Net, GoodHistory, Filled;
    assert Inv(s.meta);
    ApplyInv(s.meta, Active(s.meta.table), f);
    BuyingAfter(s.meta, Active(s.meta.table), f);
    if f.Unlock? {
      CycleEnded(m, s, f, meta);
    } else {
      StepMoves(m, s, f, meta);
    }
  }

  /** Once a regular cycle is sold the engine ends it as soon as it sees the balance, and does nothing else. */
  lemma SoldThenUnlock(m: Params, s: Sys, e: Env)
    requires SysInv(m, s) && Sees(m, s, e)
    requires s.meta.execSteps >= 1 && Regular(s) && s.history[0].side.Sell?
    ensures Decide(s.meta, e) == if e.currency.Some? then Unlock else Nothing
  {
    PickIsActive(s.meta, 0);
  }

  lemma EffectInv(m: Params, s: Sys, f: Effect, meta: Meta, accepted: bool)
    requires SysInv(m, s) && Meant(m, s, f)
    requires accepted ==> f.Submit? && f.price.Some? && (f.side.Buy? ==> s.pending.None?)
    requires s.meta.execSteps >= 1 && Regular(s) && s.history[0].side.Sell? ==> f.Nothing? || f.Unlock?
    requires var k := Active(s.meta.table); Enabled(s.meta, k, f) && meta == Apply(s.meta, k, f)
    ensures SysInv(m, AfterTick(m, s, f, meta, accepted))
  {
    if accepted && f.side.Buy? {
      BuySubmitted(m, s, f, meta);
    } else if accepted {
      SellSubmitted(m, s, f, meta);
    } else if f.CloseBuy? {
      BuyClosed(m, s, f, meta);
    } else {
      OtherEffect(m, s, f, meta);
    }
  }

  lemma TickedInv(m: Params, s: Sys, ev: Event)
    requires SysInv(m, s) && Allowed(m, s, ev) && ev.Ticked?
    ensures SysInv(m, Next(m, s, ev))
  {
    var f, meta := Decide(s.meta, ev.e), Tick(s.meta, ev.e);
    DecisionMeant(m, s, ev.e);
    DecidedWhenEnabled(s.meta, ev.e);
    if s.meta.execSteps >= 1 && Regular(s) && s.history[0].side.Sell? {
      SoldThenUnlock(m, s, ev.e);
    }
    EffectInv(m, s, f, meta, ev.accepted);
  }

  lemma NextInv(m: Params, s: Sys, ev: Event)
    requires SysInv(m, s) && Allowed(m, s, ev)
    ensures SysInv(m, Next(m, s, ev))
  {
    hide SysInv, Decide, Tick, Normalised;
    match ev
    case Ticked(_, _) => TickedInv(m, s, ev);
    case BuyFilled(_, _, _, _) => BuyFilledInv(m, s, ev);
    case SellFilled(_, _, _) => SellFilledInv(m, s, ev);
    case BuyRejected => WithdrawnInv(m, s, Next(m, s, ev));
    case OfferGone => WithdrawnInv(m, s, Next(m, s, ev));
  }

  /** An order that is gone without a trade. */
  lemma WithdrawnInv(m: Params, s: Sys, t: Sys)
    requires SysInv(m, s) && (t == s.(pending := None) || t == s.(offer := None))
    ensures SysInv(m, t)
  {
    hide Inv, Exposure, CleanCycle, Net, Target, Buying;
  }

  // ----- Every run

  /** A pair before its first cycle, whatever was traded and held before. */
  predicate Start(m: Params, s: Sys) {
    && GoodParams(m) && Fresh(s.meta) && s.meta.maxSteps >= 0 && GoodHistory(s.history) && s.held >= 0.0
    && s.pending.None? && s.offer.None?
    && s.cycle == Cycle(s.held, |s.history|, false, false, false, false)
  }

  lemma {:induction false} Reachable(m: Params, s: Sys, evs: seq<Event>)
    requires Start(m, s) && After(m, s, evs).Some?
    ensures SysInv(m, After(m, s, evs).value)
  {
    if evs == [] {
      FreshInv(s.meta);
      assert s.history[..0] == [];
    } else {
      Reachable(m, s, evs[..|evs|-1]);
      NextInv(m, After(m, s, evs[..|evs|-1]).value, evs[|evs|-1]);
    }
  }

  /** The sharp bounds on the fills of a cycle: no more than one for each step passed, nor than the cap, and no live
      offer stands while a buy is in flight. */
  predicate Bounded(s: Sys) {
    && Filled(s) <= Active(s.meta.table) + 1
    && Filled(s) <= Cap(s.meta.maxSteps)
    && (s.pending.Some? ==> !Live(s))
  }

  lemma BoundedWithoutOverlap(m: Params, s: Sys)
    requires SysInv(m, s) && s.meta.execSteps >= 1 && !s.cycle.overlap
    ensures Bounded(s)
  {
    hide RegularInv, OfferOk, Net, Window;
  }

  /** Fill accounting, in every state of every cycle: at most one filled buy is not credited, and none is in flight
      then, so at most one buy more fills than steps were passed, or than the cap. If the zero step did not close with a
      buy in flight the extra buy does not occur, and if moreover no sale landed late, no credited buy is lost. */
  lemma FillAccounting(m: Params, s: Sys, evs: seq<Event>)
    requires Start(m, s) && After(m, s, evs).Some? && After(m, s, evs).value.meta.execSteps >= 1
    ensures var t := After(m, s, evs).value;
            && 1 <= Filled(t) <= t.meta.execSteps + 1
            && (t.pending.Some? ==> Filled(t) <= t.meta.execSteps)
            && Filled(t) <= Active(t.meta.table) + 2
            && Filled(t) <= Cap(t.meta.maxSteps) + 1
            && (!t.cycle.overlap ==> Bounded(t))
            && (Regular(t) ==> t.meta.execSteps <= Filled(t) && (t.pending.Some? ==> Filled(t) == t.meta.execSteps))
  {
    hide Next, Allowed, Holding, Bounded;
    Reachable(m, s, evs);
    var t := After(m, s, evs).value;
    if !t.cycle.overlap {
      BoundedWithoutOverlap(m, t);
    }
  }

  // ----- The zero step closes with its own buy in flight

  /** A start with one coin from an older buy, which the zero step's rules do not tell from its own. */
  function OverlapParams(): Params { Params(0.0, 1.0, 0.5, 0.5, 0.0, 2.0, 0.0) }

  function OverlapStart(meta: Meta): Sys {
    Sys(meta, [Trade(Buy, 1.0, 1.0, 1.0, 0.0, 1000)], 1.0, None, None, Cycle(1.0, 1, false, false, false, false))
  }

  function OverlapEnv(price: Positive): Env {
    Env(OverlapParams(), false, 0.0, Some(Balance(9.0, 9.0)), Some(Balance(1.0, 1.0)),
        Some(Quote(price, 9.0)), Some(Quote(0.5, 9.0)), [Trade(Buy, 1.0, 1.0, 1.0, 0.0, 1000)], None, false)
  }

  /** Two coins are ordered at price 1; at price 2 the old coin alone is worth the stake and closes the step; then the
      order fills. */
  function OverlapRun(): seq<Event> {
    [Ticked(OverlapEnv(1.0), true), Ticked(OverlapEnv(2.0), false), BuyFilled(1.0, 2.0, 0.0, 9000)]
  }

  /** The states of that run after its first two events, and at its end. */
  function OverlapPending(meta: Meta): Sys {
    OverlapStart(meta).(pending := Some(Pending(2.0, false)))
  }

  function OverlapClosed(meta: Meta): Sys
    requires Fresh(meta)
  {
    OverlapPending(meta).(meta := Apply(meta, 0, CloseBuy(Some(1000))), cycle := Cycle(1.0, 1, true, true, false, false))
  }

  function OverlapEnd(meta: Meta): Sys
    requires Fresh(meta)
  {
    var s := OverlapClosed(meta);
    s.(history := [Trade(Buy, 1.0, 2.0, 2.0, 0.0, 9000)] + s.history, held := 3.0, pending := None)
  }

  lemma OverlapTicket()
    ensures Normalised(OverlapParams(), Buy, 1.0, 2.0).volume == 2.0
    ensures !NeedsFixup(OverlapParams(), Buy, 1.0, 2.0)
  {
    WholeSteps(1.0, 1);
    WholeSteps(0.5, 4);
    WholeIsKept(1.0, 1.0);
    WholeIsKept(0.5, 2.0);
    assert Rounded(OverlapParams(), Buy, 1.0, 2.0) == Ticket(1.0, 2.0, 2.0);
  }

  lemma AfterOne(m: Params, s: Sys, evs: seq<Event>, n: nat, t: Sys)
    requires n < |evs| && After(m, s, evs[..n]) == Some(t) && Allowed(m, t, evs[n])
    ensures After(m, s, evs[..n+1]) == Some(Next(m, t, evs[n]))
  {
    hide Next, Allowed;
    assert evs[..n+1][..n] == evs[..n];
  }

  lemma OverlapSubmits(meta: Meta)
    requires Fresh(meta) && meta.maxSteps >= 0
    ensures var m, s, ev := OverlapParams(), OverlapStart(meta), OverlapRun()[0];
            Allowed(m, s, ev) && Next(m, s, ev) == OverlapPending(meta)
  {
    hide Normalised, NeedsFixup;
    OverlapTicket();
    assert Pick(meta, 0) == BuyAt(0);
    assert Decide(meta, OverlapEnv(1.0)) == Submit(Buy, Some(1.0), 2.0);
  }

  lemma OverlapCloses(meta: Meta)
    requires Fresh(meta) && meta.maxSteps >= 0
    ensures var m, s, ev := OverlapParams(), OverlapPending(meta), OverlapRun()[1];
            Allowed(m, s, ev) && Next(m, s, ev) == OverlapClosed(meta)
  {
    hide Normalised, NeedsFixup;
    assert Pick(meta, 0) == BuyAt(0);
    assert Decide(meta, OverlapEnv(2.0)) == CloseBuy(Some(1000));
  }

  lemma OverlapFills(meta: Meta)
    requires Fresh(meta)
    ensures var m, s, ev := OverlapParams(), OverlapClosed(meta), OverlapRun()[2];
            Allowed(m, s, ev) && Next(m, s, ev) == OverlapEnd(meta)
  {
    assert Second(9000) == 9000 && Second(1000) == 1000;
  }

  lemma OverlapReached(meta: Meta)
    requires Fresh(meta) && meta.maxSteps >= 0
    ensures Start(OverlapParams(), OverlapStart(meta))
    ensures After(OverlapParams(), OverlapStart(meta), OverlapRun()) == Some(OverlapEnd(meta))
  {
    hide Next, Allowed;
    var m, s, evs := OverlapParams(), OverlapStart(meta), OverlapRun();
    OverlapSubmits(meta);
    AfterOne(m, s, evs, 0, s);
    OverlapCloses(meta);
    AfterOne(m, s, evs, 1, OverlapPending(meta));
    OverlapFills(meta);
    AfterOne(m, s, evs, 2, OverlapClosed(meta));
    assert evs[..3] == evs;
  }

  /** The zero step closes on value and newest trade alone, so it can close while its own buy is in flight. Then the
      sharper bounds fail: two buys are counted with one step passed, also against a cap of one, and the holding is
      past the doubling bound. */
  lemma OverlapBreaksBounds(meta: Meta)
    requires Fresh(meta) && meta.maxSteps >= 0
    ensures var m, t := OverlapParams(), OverlapEnd(meta);
            && Start(m, OverlapStart(meta)) && After(m, OverlapStart(meta), OverlapRun()) == Some(t)
            && t.meta.execSteps == 1 && t.cycle.overlap && !t.cycle.corrected && !t.cycle.late
            && Filled(t) == 2 == Active(t.meta.table) + 2
            && (meta.maxSteps == 0 ==> Filled(t) == Cap(meta.maxSteps) + 1)
            && t.held > Doubled(Filled(t) - 1) * t.cycle.first + (Doubled(Filled(t) - 1) - 1.0) * m.lot
  {
    OverlapReached(meta);
    var t := OverlapEnd(meta);
    ActiveIs(t.meta.table, 0);
    var h := OverlapStart(meta).history;
    assert Second(1000) == 1000;
    OneBuyCounted(h);
    WindowAfterBuy(h, t.meta.cycleStart, t.history[0]);
    assert Doubled(1) == 2.0;
  }

  /** These events all happen before the cycle ends. */
  predicate WithinCycle(m: Params, s: Sys, evs: seq<Event>) {
    evs == [] || (var n := |evs| - 1;
                  && WithinCycle(m, s, evs[..n])
                  && After(m, s, evs[..n]).Some? && Allowed(m, After(m, s, evs[..n]).value, evs[n])
                  && !(evs[n].Ticked? && Decide(After(m, s, evs[..n]).value.meta, evs[n].e).Unlock?))
  }

  lemma OverlapFixed(m: Params, s: Sys, ev: Event)
    requires SysInv(m, s) && s.meta.execSteps >= 1 && Allowed(m, s, ev)
    requires !(ev.Ticked? && Decide(s.meta, ev.e).Unlock?)
    ensures Next(m, s, ev).meta.execSteps >= 1 && Next(m, s, ev).cycle.overlap == s.cycle.overlap
  {
    hide Decide, Normalised, NeedsFixup, CycleInv, RegularInv, OfferOk, Net;
    if ev.Ticked? {
      DecidedWhenEnabled(s.meta, ev.e);
      BuyingAfter(s.meta, Active(s.meta.table), Decide(s.meta, ev.e));
    }
  }

  lemma {:induction false} CycleContinues(m: Params, s: Sys, evs: seq<Event>)
    requires SysInv(m, s) && s.meta.execSteps >= 1 && WithinCycle(m, s, evs)
    ensures After(m, s, evs).Some?
    ensures var t := After(m, s, evs).value;
            SysInv(m, t) && t.meta.execSteps >= 1 && t.cycle.overlap == s.cycle.overlap
  {
    hide Next, Allowed, SysInv, Decide;
    if evs != [] {
      var n := |evs| - 1;
      CycleContinues(m, s, evs[..n]);
      var before := After(m, s, evs[..n]).value;
      NextInv(m, before, evs[n]);
      OverlapFixed(m, before, evs[n]);
    }
  }

  /** The zero step closes. */
  predicate Closing(m: Params, s: Sys, ev: Event) {
    ev.Ticked? && Allowed(m, s, ev) && Decide(s.meta, ev.e).CloseBuy? && Decide(s.meta, ev.e).stamp.Some?
  }

  lemma ClosedState(m: Params, s: Sys, closing: Event)
    requires SysInv(m, s) && Closing(m, s, closing)
    ensures var t := Next(m, s, closing);
            && SysInv(m, t) && t.meta.execSteps == 1 && Active(t.meta.table) == 0 && !Buying(t.meta)
            && t.history == s.history != [] && t.history[0].side.Buy? && t.held == s.held
            && t.pending == s.pending && t.cycle.overlap == s.pending.Some? && t.cycle.first == s.held
            && Filled(t) == 1 && !t.cycle.corrected
  {
    hide Normalised, OfferOk, RegularInv, Net, Decide, Tick;
    var e := closing.e;
    NextInv(m, s, closing);
    DecisionMeant(m, s, e);
    DecidedWhenEnabled(s.meta, e);
    ApplyInv(s.meta, Active(s.meta.table), Decide(s.meta, e));
    BuyingAfter(s.meta, Active(s.meta.table), Decide(s.meta, e));
    OneBuyCounted(s.history);
  }

  /** When a buy is in flight at the close, its fill always breaks the bound on steps passed; the doubling bound then
      holds if and only if the filled volume lies between what was held at the close and one lot more. */
  lemma OverlapCounts(m: Params, s: Sys, closing: Event, fill: Event)
    requires SysInv(m, s) && Closing(m, s, closing) && s.pending.Some?
    requires fill.BuyFilled? && Allowed(m, Next(m, s, closing), fill)
    ensures var t := Next(m, Next(m, s, closing), fill);
            && t.meta.execSteps == 1 && Active(t.meta.table) == 0 && Filled(t) == 2 && !Bounded(t)
            && (Exposure(m.lot, t.held, t.cycle.first, 2, t.cycle.corrected) <==>
                && s.pending.value.volume >= t.cycle.first
                && (s.pending.value.corrected || s.pending.value.volume <= t.cycle.first + m.lot))
  {
    hide SysInv, Decide, Tick, Normalised;
    ClosedState(m, s, closing);
    var t := Next(m, s, closing);
    FilledOnce(m, t, fill);
    assert Doubled(1) == 2.0;
  }

  lemma FilledOnce(m: Params, t: Sys, fill: Event)
    requires SysInv(m, t) && t.meta.execSteps >= 1 && t.history != [] && t.history[0].side.Buy?
    requires fill.BuyFilled? && Allowed(m, t, fill)
    ensures Filled(Next(m, t, fill)) == Filled(t) + 1
  {
    hide RegularInv, OfferOk, Net;
    var b := Next(m, t, fill).history[0];
    FillKeepsHistory(t.history, b);
    FillKeepsCycle(t, b);
  }

  /** The bounds hold in every continuation of the cycle exactly when no buy is in flight as the zero step closes. */
  lemma BoundsHoldIff(m: Params, s: Sys, closing: Event)
    requires SysInv(m, s) && Closing(m, s, closing)
    ensures var t := Next(m, s, closing);
            (forall evs: seq<Event> | WithinCycle(m, t, evs) :: After(m, t, evs).Some? && Bounded(After(m, t, evs).value))
            <==> s.pending.None?
  {
    hide Next, SysInv, Decide, Bounded, WithinCycle;
    ClosedState(m, s, closing);
    var t := Next(m, s, closing);
    if s.pending.None? {
      forall evs: seq<Event> | WithinCycle(m, t, evs)
        ensures After(m, t, evs).Some? && Bounded(After(m, t, evs).value)
      {
        CycleContinues(m, t, evs);
        BoundedWithoutOverlap(m, After(m, t, evs).value);
      }
    } else {
      var evs := BreakingFill(m, s, closing);
      assert WithinCycle(m, t, evs) && !(After(m, t, evs).Some? && Bounded(After(m, t, evs).value));
    }
  }

  lemma BreakingFill(m: Params, s: Sys, closing: Event) returns (evs: seq<Event>)
    requires SysInv(m, s) && Closing(m, s, closing) && s.pending.Some?
    ensures WithinCycle(m, Next(m, s, closing), evs) && After(m, Next(m, s, closing), evs).Some?
    ensures !Bounded(After(m, Next(m, s, closing), evs).value)
  {
    hide SysInv, Decide, Tick, Normalised, Bounded;
    ClosedState(m, s, closing);
    var t := Next(m, s, closing);
    var fill := BuyFilled(1.0, 1.0, 0.0, t.history[0].time + 1000);
    evs := [fill];
    assert Allowed(m, t, fill);
    OverlapCounts(m, s, closing, fill);
    assert evs[..0] == [];
    assert After(m, t, evs[..0]) == Some(t);
    assert WithinCycle(m, t, evs[..0]);
  }

  // ----- What is held

  lemma DoubledMonotone(a: nat, b: nat)
    requires a <= b
    ensures Doubled(a) <= Doubled(b)
    decreases b
  {
    if a < b {
      DoubledMonotone(a, b - 1);
    }
  }

  /** A regular cycle that has not been sold. */
  predicate Unsold(s: Sys) {
    s.meta.execSteps >= 1 && Regular(s) && s.history != [] && s.history[0].side.Buy?
  }

  /** Exposure over a whole cycle: every averaging buy at least doubles the holding, and unless one of them had to be
      corrected to the exchange's minimum it at most doubles it and adds a lot. */
  lemma ExposureBound(m: Params, s: Sys, evs: seq<Event>)
    requires Start(m, s) && After(m, s, evs).Some? && Unsold(After(m, s, evs).value)
    ensures var t := After(m, s, evs).value;
            && Filled(t) >= 1 && t.meta.maxSteps >= 0
            && t.held >= Doubled(Filled(t) - 1) * t.cycle.first
            && (!t.cycle.corrected ==>
                  t.held <= Doubled(Filled(t) - 1) * t.cycle.first + (Doubled(Filled(t) - 1) - 1.0) * m.lot)
            && (!t.cycle.corrected ==> t.held + m.lot <= Doubled(Cap(t.meta.maxSteps) - 1) * (t.cycle.first + m.lot))
  {
    hide Next, Allowed, After, SysInv, Unsold, Filled;
    Reachable(m, s, evs);
    UnsoldExposure(m, After(m, s, evs).value);
  }

  lemma UnsoldExposure(m: Params, t: Sys)
    requires SysInv(m, t) && Unsold(t)
    ensures Filled(t) >= 1 && t.meta.maxSteps >= 0 && Exposure(m.lot, t.held, t.cycle.first, Filled(t), t.cycle.corrected)
    ensures !t.cycle.corrected ==> t.held + m.lot <= Doubled(Cap(t.meta.maxSteps) - 1) * (t.cycle.first + m.lot)
  {
    hide OfferOk, Window, CleanCycle, Net;
    DoubledMonotone(Filled(t) - 1, Cap(t.meta.maxSteps) - 1);
    WholeCycleBound(t.held, t.cycle.first, m.lot, Doubled(Filled(t) - 1), Doubled(Cap(t.meta.maxSteps) - 1), t.cycle.corrected);
  }

  lemma WholeCycleBound(held: real, first: real, lot: Positive, d: real, cap: real, corrected: bool)
    requires first > 0.0 && d <= cap
    requires !corrected ==> held <= d * first + (d - 1.0) * lot
    ensures !corrected ==> held + lot <= cap * (first + lot)
  {
    var more, unit := cap - d, first + lot;
    ProductSign(more, unit);
    assert more * unit == cap * unit - d * unit;
    assert d * unit == d * first + (d - 1.0) * lot + lot;
  }

  /** Conservation, in every state of every run: what is held is what was held when the last zero step closed, plus
      what was bought and less what was sold since. In a regular unsold cycle that is the averaging buys alone. */
  lemma HoldingIsConserved(m: Params, s: Sys, evs: seq<Event>)
    requires Start(m, s) && After(m, s, evs).Some?
    ensures var t := After(m, s, evs).value;
            && t.cycle.mark <= |t.history|
            && t.held == t.cycle.first + Net(t.history[..|t.history|-t.cycle.mark])
            && (Unsold(t) ==> t.held == t.cycle.first + SumVolume(LaterBuys(t)))
  {
    hide Next, Allowed;
    Reachable(m, s, evs);
  }

  // ----- What is offered

  lemma {:induction false} NonNegativeCost(w: seq<Trade>)
    requires forall i | 0 <= i < |w| :: w[i].baseVolume >= 0.0 && w[i].fee >= 0.0
    ensures SumBase(w) >= 0.0 && SumFee(w) >= 0.0
  {
    if w != [] {
      NonNegativeCost(w[..|w|-1]);
    }
  }

  lemma {:induction false} WindowTrades(h: seq<Trade>, start: Option<nat>)
    requires GoodHistory(h)
    ensures forall t | t in Rest(h, start) || t in Window(h, start) :: t.baseVolume >= 0.0 && t.fee >= 0.0
  {
    if h != [] {
      assert GoodHistory(h[1..]) by {
        assert forall i | 0 <= i < |h| - 1 :: h[1..][i] == h[i+1];
      }
      WindowTrades(h[1..], start);
    }
  }

  /** Unless the zero step closed with a buy in flight, every live sell order keeps the promise for the cycle as it then
      stands: selling the bought volume at that price returns cost and profit, up to one price tick and 1e-8 a coin. It
      does not ask for more either: the proceeds do not exceed the cost, the profit on it and the fee on it. */
  lemma {:induction false} OpenOfferKeepsPromise(m: Params, s: Sys, evs: seq<Event>)
    requires Start(m, s) && After(m, s, evs).Some?
    requires !After(m, s, evs).value.cycle.overlap && Live(After(m, s, evs).value)
    ensures var t := After(m, s, evs).value;
            var a := AverageOf(t.history, t.meta.cycleStart);
            var cost := a.baseVolume + a.fee;
            && t.offer.value.volume <= t.held < t.offer.value.volume + m.lot
            && a.volume > 0.0
            && a.volume * t.offer.value.price * (1.0 - m.tradeFee) - cost
               > Promise(cost, m.profit, m.tradeFee) - a.volume * (PRECISION + m.tickSize)
            && a.volume * t.offer.value.price <= cost * (1.0 + m.profit + m.tradeFee)
               < a.volume * t.offer.value.price + a.volume * (m.tickSize + 0.00000001)
  {
    hide *;
    Reachable(m, s, evs);
    var t := After(m, s, evs).value;
    var a := AverageOf(t.history, t.meta.cycleStart);
    OfferAtTarget(m, t);
    SellKeepsPromise(a.fee, a.baseVolume, m, a.volume);
    OfferedPrice(a.fee, a.baseVolume, m, a.volume);
  }

  lemma OfferAtTarget(m: Params, t: Sys)
    requires SysInv(m, t) && !t.cycle.overlap && Live(t)
    ensures t.offer.Some?
    ensures var a := AverageOf(t.history, t.meta.cycleStart);
            && GoodParams(m) && 0.0 <= m.tradeFee <= 1.0 && m.profit >= 0.0
            && a.volume > 0.0 && a.baseVolume + a.fee >= 0.0
            && t.offer.value.price == RoundTruncate(m.tickSize, StopLoss(a.fee, a.baseVolume, m.tradeFee, a.volume, m.profit))
            && t.offer.value.volume <= t.held < t.offer.value.volume + m.lot
  {
    hide Inv, Exposure, StopLoss, CleanCycle, Net;
    WindowTrades(t.history, t.meta.cycleStart);
    NonNegativeCost(Window(t.history, t.meta.cycleStart));
  }

  /** And such an order stands until the price falls: a tick asks to withdraw it if and only if the balance is known and
      the price fell below the active step's line. */
  lemma OfferWithdrawnIff(m: Params, s: Sys, evs: seq<Event>, e: Env)
    requires Start(m, s) && After(m, s, evs).Some?
    requires var t := After(m, s, evs).value; !t.cycle.overlap && Live(t) && Sees(m, t, e)
    ensures var t := After(m, s, evs).value;
            && Allowed(m, t, Ticked(e, false))
            && (Live(Next(m, t, Ticked(e, false))) <==> !(e.currency.Some? && FellBelow(t.meta, e)))
  {
    hide After, CycleInv, RegularInv, GoodHistory, Net, RoundTruncate, Target, Inv, Decide, Tick;
    Reachable(m, s, evs);
    var t := After(m, s, evs).value;
    if e.currency.Some? {
      OfferKeptIff(t.meta, e);
    } else {
      SellsBlind(t.meta, e);
    }
  }

  // ----- What is ordered

  /** The size of every buy on its way: for the stake at the best price before the first purchase, and for as much again
      as is held afterwards, up to the next lot; more only if that costs no more than the exchange's minimum. */
  lemma OrderSize(m: Params, s: Sys, evs: seq<Event>, e: Env)
    requires Start(m, s) && After(m, s, evs).Some?
    requires var t := After(m, s, evs).value; Allowed(m, t, Ticked(e, true)) && Decide(t.meta, e).side.Buy?
    ensures e.topSell.Some?
    ensures var t := After(m, s, evs).value;
            var p, price := Next(m, t, Ticked(e, true)).pending, e.topSell.value.price;
            var wish := if t.meta.execSteps == 0 then m.tradeSumm / price else t.held;
            && p.Some? && p.value.volume >= wish > 0.0
            && (p.value.corrected <==> RoundTruncate(m.tickSize, price) * RoundCeil(m.lot, wish) <= m.minNotional)
            && (!p.value.corrected ==> p.value.volume < wish + m.lot)
  {
    hide After, CycleInv, RegularInv, OfferOk, GoodHistory, Net, Decide, Tick, Normalised, RoundTruncate, RoundCeil, Inv;
    Reachable(m, s, evs);
    var t := After(m, s, evs).value;
    DecisionMeant(m, t, e);
    WishOrdered(m, t, e);
    var f := Decide(t.meta, e);
    BuyVolume(m, f.price.value, f.volume);
    assert Worth(RoundCeil(m.lot, f.volume), RoundTruncate(m.tickSize, f.price.value))
           == RoundTruncate(m.tickSize, f.price.value) * RoundCeil(m.lot, f.volume);
  }

  lemma WishOrdered(m: Params, t: Sys, e: Env)
    requires SysInv(m, t) && Sees(m, t, e) && Decide(t.meta, e).Submit? && Decide(t.meta, e).side.Buy?
    ensures e.topSell.Some?
    ensures var f, price := Decide(t.meta, e), e.topSell.value.price;
            f.price == Some(price) && f.volume == if t.meta.execSteps == 0 then m.tradeSumm / price else t.held
  {
    hide CycleInv, RegularInv, OfferOk, GoodHistory, Net, Decide, Tick, Inv;
    assert Inv(t.meta);
    if t.meta.execSteps == 0 {
      ZeroStepIff(t.meta, e);
      Quotient(Decide(t.meta, e).volume, e.topSell.value.price, m.tradeSumm);
    } else {
      NotNegative(t.meta);
      BuyingOrSelling(t.meta, e);
      AveragingIff(t.meta, e);
    }
  }

  lemma BuyingOrSelling(meta: Meta, e: Env)
    requires Inv(meta) && Decide(meta, e).Submit? && Decide(meta, e).side.Buy?
    ensures Buying(meta)
  {
    PickIsActive(meta, 0);
  }

  lemma Quotient(volume: real, price: Positive, base: real)
    requires volume * price == base
    ensures volume == base / price
  {}

  // ----- When a cycle ends

  /** A tick ends the cycle if and only if the active step sells, no order is open, the balance is known, and either
      less than a lot is held or what is seen as available is worth less than the exchange's minimum at the target. */
  lemma CycleEndsIff(m: Params, s: Sys, evs: seq<Event>, e: Env)
    requires Start(m, s) && After(m, s, evs).Some? && Sees(m, After(m, s, evs).value, e)
    ensures var t := After(m, s, evs).value;
            var target := Target(t.history, t.meta.cycleStart, m);
            Decide(t.meta, e).Unlock? <==>
              && Selling(t) && t.offer.None? && e.currency.Some?
              && (t.held < m.lot || (target.Some? && Worth(e.currency.value.available, target.value) < m.minNotional))
  {
    hide Next, Allowed, Target, Window, RegularInv;
    Reachable(m, s, evs);
    PickIsActive(After(m, s, evs).value.meta, 0);
  }

  lemma WindowCounts(m: Params, s: Sys)
    requires SysInv(m, s) && s.meta.execSteps >= 1
    ensures Target(s.history, s.meta.cycleStart, m).Some?
  {
    hide Inv, RegularInv, OfferOk, Net, StopLoss;
    PositiveWindow(s.history, s.meta.cycleStart);
    PositiveSum(Window(s.history, s.meta.cycleStart));
  }

  /** So a cycle can end with every coin still held: a tick between the cancellation of the sell order and the release
      of its coins sees no order and nothing available. The next cycle then starts without a sale. */
  lemma EndsWhileHeld(m: Params, s: Sys, e: Env)
    requires SysInv(m, s) && Selling(s) && s.offer.None? && m.minNotional > 0.0
    requires Sees(m, s, e) && e.currency.Some? && e.currency.value.available == 0.0
    ensures Allowed(m, s, Ticked(e, false))
    ensures var t := Next(m, s, Ticked(e, false));
            t.meta == Unlocked(s.meta) && t.held == s.held && t.history == s.history
  {
    hide Target, RegularInv, OfferOk, Net;
    WindowCounts(m, s);
    PickIsActive(s.meta, 0);
  }

  /** The order was to be cancelled and fills instead: if it offered all that is held, the next step waits to buy with
      nothing to double. Whatever the trend does, as long as nothing is held no tick ends the cycle or counts anything. */
  lemma LateSaleStrands(m: Params, s: Sys, e: Env, sale: Event, envs: seq<Env>)
    requires SysInv(m, s) && s.meta.maxSteps >= 1
    requires Live(s) && s.offer.value.volume == s.held
    requires Allowed(m, s, Ticked(e, false)) && Decide(s.meta, e).CloseSell?
    requires sale.SellFilled? && Later(sale.time, s.history)
    requires forall x | x in envs :: EmptyHanded(x)
    ensures Allowed(m, Next(m, s, Ticked(e, false)), sale)
    ensures var t := Next(m, Next(m, s, Ticked(e, false)), sale);
            && t.held == 0.0 && t.offer.None? && t.cycle.late && t.meta.execSteps >= 1 && Buying(t.meta)
            && OneCycle(t.meta, envs)
            && Buying(Run(t.meta, envs)) && Run(t.meta, envs).execSteps == t.meta.execSteps
  {
    var meta := Tick(s.meta, e);
    TickInv(s.meta, e);
    DecidedWhenEnabled(s.meta, e);
    StrandedForever(meta, envs);
  }

  /** After a late sale the count of credited buys can exceed the fills still counted: the next fill starts the window
      anew. */
  lemma LateSaleLosesCount(m: Params, s: Sys, fill: Event)
    requires SysInv(m, s) && s.meta.execSteps >= 2 && s.history != [] && s.history[0].side.Sell?
    requires fill.BuyFilled? && Allowed(m, s, fill)
    ensures Filled(Next(m, s, fill)) == 1 < Next(m, s, fill).meta.execSteps
    ensures !Regular(Next(m, s, fill))
  {
    hide OfferOk, Net;
    var b := Next(m, s, fill).history[0];
    FillKeepsHistory(s.history, b);
    WindowAfterBuy(s.history, s.meta.cycleStart, b);
  }

  /** Such a run: close the zero step on the old coin, offer it, fall past the first row, and sell after all. */
  function LateSaleRun(rows: seq<Row>): seq<Event>
    requires GoodTable(rows)
  {
    var closing := OverlapEnv(2.0);
    var falling := closing.(trend := -rows[1].step - 1.0, openSell := Some(OpenOrder(7, 1.0)));
    [Ticked(closing, false), Ticked(closing, true), Ticked(falling, false), SellFilled(1.0, 0.0, 9000)]
  }

  lemma OfferTicket()
    ensures Target(OverlapStart(Meta(0, 0, None, [])).history, Some(1000), OverlapParams()) == Some(1.0)
    ensures Normalised(OverlapParams(), Sell, 1.0, 1.0) == Ticket(1.0, 1.0, 1.0)
    ensures RoundTruncate(0.5, 1.0) == 1.0
  {
    var m, h := OverlapParams(), OverlapStart(Meta(0, 0, None, [])).history;
    WholeSteps(1.0, 1);
    WholeSteps(0.5, 2);
    WholeIsKept(1.0, 1.0);
    WholeIsKept(0.5, 1.0);
    assert Second(1000) == 1000;
    OneBuyCounted(h);
    SumVolumeCons(h[0], []);
    assert h == [h[0]] + [] && h[..0] == [];
    assert AverageOf(h, Some(1000)).volume == 1.0 && AverageOf(h, Some(1000)).baseVolume == 1.0;
    assert StopLoss(0.0, 1.0, 0.0, 1.0, 0.0) == 1.0;
  }

  /** The states the run passes through after each of its first three events. */
  function LateSaleState(meta: Meta, n: nat): Sys
    requires Fresh(meta) && 1 <= n <= 3
  {
    var closed := Apply(meta, 0, CloseBuy(Some(1000)));
    var s := OverlapStart(meta).(meta := closed, cycle := Cycle(1.0, 1, false, true, false, false));
    if n == 1 then s
    else if n == 2 then s.(offer := Some(Offer(1.0, 1.0, false)))
    else s.(meta := Apply(closed, 0, CloseSell(7)), offer := Some(Offer(1.0, 1.0, true)))
  }

  lemma LateSaleCloses(meta: Meta)
    requires Fresh(meta) && meta.maxSteps >= 0
    ensures var m, s, ev := OverlapParams(), OverlapStart(meta), LateSaleRun(meta.table)[0];
            Allowed(m, s, ev) && Next(m, s, ev) == LateSaleState(meta, 1)
  {
    assert Pick(meta, 0) == BuyAt(0);
    assert Decide(meta, LateSaleRun(meta.table)[0].e) == CloseBuy(Some(1000));
  }

  lemma LateSaleOffers(meta: Meta)
    requires Fresh(meta) && meta.maxSteps >= 0
    ensures var m, s, ev := OverlapParams(), LateSaleState(meta, 1), LateSaleRun(meta.table)[1];
            Allowed(m, s, ev) && Next(m, s, ev) == LateSaleState(meta, 2)
  {
    hide Target, Normalised;
    OfferTicket();
    var closed := LateSaleState(meta, 1).meta;
    assert Second(1000) == 1000;
    assert Pick(closed, 0) == SellAt(0);
    assert Decide(closed, LateSaleRun(meta.table)[1].e) == Submit(Sell, Some(1.0), 1.0);
  }

  lemma LateSaleFalls(meta: Meta)
    requires Fresh(meta) && meta.maxSteps >= 1
    ensures var m, s, ev := OverlapParams(), LateSaleState(meta, 2), LateSaleRun(meta.table)[2];
            Allowed(m, s, ev) && Next(m, s, ev) == LateSaleState(meta, 3)
  {
    hide RoundTruncate, Target, Normalised, AverageOf;
    OfferTicket();
    var closed := LateSaleState(meta, 2).meta;
    assert Pick(closed, 0) == SellAt(0);
    assert Decide(closed, LateSaleRun(meta.table)[2].e) == CloseSell(7);
  }

  lemma LateSaleReached(meta: Meta)
    requires Fresh(meta) && meta.maxSteps >= 1
    ensures Start(OverlapParams(), OverlapStart(meta))
    ensures var end := After(OverlapParams(), OverlapStart(meta), LateSaleRun(meta.table));
            && end.Some?
            && end.value.held == 0.0 && end.value.offer.None? && end.value.cycle.late
            && end.value.meta.execSteps == 1 && Buying(end.value.meta)
  {
    hide Next, Allowed;
    var m, s, evs := OverlapParams(), OverlapStart(meta), LateSaleRun(meta.table);
    LateSaleCloses(meta);
    AfterOne(m, s, evs, 0, s);
    LateSaleOffers(meta);
    AfterOne(m, s, evs, 1, LateSaleState(meta, 1));
    LateSaleFalls(meta);
    AfterOne(m, s, evs, 2, LateSaleState(meta, 2));
    LateSaleSells(meta);
    AfterOne(m, s, evs, 3, LateSaleState(meta, 3));
    assert evs[..4] == evs;
  }

  lemma LateSaleSells(meta: Meta)
    requires Fresh(meta) && meta.maxSteps >= 1
    ensures var m, s, ev := OverlapParams(), LateSaleState(meta, 3), LateSaleRun(meta.table)[3];
            && Allowed(m, s, ev)
            && var end := Next(m, s, ev);
               && end.held == 0.0 && end.offer.None? && end.cycle.late
               && end.meta.execSteps == 1 && Buying(end.meta)
  {
    var meta3 := LateSaleState(meta, 3).meta;
    ActiveIs(meta3.table, 1);
    assert Second(9000) == 9000 && Second(1000) == 1000;
  }

  /** The run of a cycle that ends while everything is held: offer the coin, take the order back, and tick before its
      release is reported. */
  function LockedRun(): seq<Event> {
    var closing := OverlapEnv(2.0);
    [Ticked(closing, false), Ticked(closing, true), OfferGone,
     Ticked(closing.(currency := Some(Balance(1.0, 0.0))), false)]
  }

  lemma LockedEnds(meta: Meta)
    requires Fresh(meta) && meta.maxSteps >= 0
    ensures Start(OverlapParams(), OverlapStart(meta))
    ensures var end := After(OverlapParams(), OverlapStart(meta), LockedRun());
            end.Some? && end.value.meta == meta && end.value.held == 1.0 && |end.value.history| == 1
  {
    hide Next, Allowed;
    var m, s, evs := OverlapParams(), OverlapStart(meta), LockedRun();
    LateSaleCloses(meta);
    AfterOne(m, s, evs, 0, s);
    LateSaleOffers(meta);
    AfterOne(m, s, evs, 1, LateSaleState(meta, 1));
    OfferTakenBack(meta);
    AfterOne(m, s, evs, 2, LateSaleState(meta, 2));
    LockedTick(meta);
    AfterOne(m, s, evs, 3, LateSaleState(meta, 1));
    assert evs[..4] == evs;
  }

  lemma OfferTakenBack(meta: Meta)
    requires Fresh(meta)
    ensures var m, s := OverlapParams(), LateSaleState(meta, 2);
            Allowed(m, s, OfferGone) && Next(m, s, OfferGone) == LateSaleState(meta, 1)
  {}

  lemma LockedTick(meta: Meta)
    requires Fresh(meta) && meta.maxSteps >= 0
    ensures var m, s, ev := OverlapParams(), LateSaleState(meta, 1), LockedRun()[3];
            && Allowed(m, s, ev)
            && var t := Next(m, s, ev); t.meta == meta && t.held == 1.0 && |t.history| == 1
  {
    hide Target, Normalised;
    OfferTicket();
    var closed := LateSaleState(meta, 1).meta;
    assert Second(1000) == 1000;
    assert Pick(closed, 0) == SellAt(0);
    assert Decide(closed, LockedRun()[3].e) == Unlock;
    assert Unlocked(closed).table == meta.table;
  }

  /** With a buy in flight at the close, the old coin is offered while the buy is still out, and when that fills the
      order, still live, no longer covers what is held. */
  function OutgrownRun(): seq<Event> {
    OverlapRun()[..2] + [Ticked(OverlapEnv(2.0), true), OverlapRun()[2]]
  }

  lemma OfferOutgrown(meta: Meta)
    requires Fresh(meta) && meta.maxSteps >= 0
    ensures Start(OverlapParams(), OverlapStart(meta))
    ensures var m, s, evs := OverlapParams(), OverlapStart(meta), OutgrownRun();
            var before, end := After(m, s, evs[..3]), After(m, s, evs);
            && before.Some? && before.value.pending.Some? && Live(before.value)
            && end.Some? && Live(end.value) && end.value.offer.value.volume + m.lot < end.value.held
  {
    hide Next, Allowed;
    var m, s, evs := OverlapParams(), OverlapStart(meta), OutgrownRun();
    OverlapSubmits(meta);
    AfterOne(m, s, evs, 0, s);
    OverlapCloses(meta);
    AfterOne(m, s, evs, 1, OverlapPending(meta));
    OutgrownOffer(meta);
    AfterOne(m, s, evs, 2, OverlapClosed(meta));
    OutgrownFill(meta);
    AfterOne(m, s, evs, 3, OverlapClosed(meta).(offer := Some(Offer(1.0, 1.0, false))));
    assert evs[..4] == evs;
  }

  lemma OutgrownOffer(meta: Meta)
    requires Fresh(meta) && meta.maxSteps >= 0
    ensures var m, s, ev := OverlapParams(), OverlapClosed(meta), OutgrownRun()[2];
            Allowed(m, s, ev) && Next(m, s, ev) == s.(offer := Some(Offer(1.0, 1.0, false)))
  {
    hide Target, Normalised;
    OfferTicket();
    var closed := OverlapClosed(meta).meta;
    assert Second(1000) == 1000;
    assert Pick(closed, 0) == SellAt(0);
    assert Decide(closed, OverlapEnv(2.0)) == Submit(Sell, Some(1.0), 1.0);
  }

  lemma OutgrownFill(meta: Meta)
    requires Fresh(meta)
    ensures var m, s, ev := OverlapParams(), OverlapClosed(meta).(offer := Some(Offer(1.0, 1.0, false))), OutgrownRun()[3];
            && Allowed(m, s, ev)
            && var t := Next(m, s, ev); t.held == 3.0 && t.offer == s.offer
  {
    assert Second(9000) == 9000 && Second(1000) == 1000;
  }

  // ----- When a filled buy is credited

  /** The tick may buy at the active step: balances and book are known, and the trend is at or above the rebound line
      and above the next drop. */
  predicate InRange(meta: Meta, e: Env) {
    var k := Active(meta.table);
    && CanBuy(e)
    && (k < |meta.table| ==> e.trend >= -meta.table[k].growth)
    && (HasNext(meta, k) ==> e.trend > -meta.table[k+1].step)
  }

  /** In every unsold cycle a filled but uncredited buy is credited by a tick in range if and only if the holding is
      worth the minimum trade and covers 95 percent of twice the earlier buys, where buys since the last sell that
      predate the cycle count too. If not, the tick does nothing: the buy is not followed by another either. */
  lemma CreditedIff(m: Params, s: Sys, evs: seq<Event>, e: Env)
    requires Start(m, s) && After(m, s, evs).Some? && Unsold(After(m, s, evs).value)
    requires var t := After(m, s, evs).value;
             && Filled(t) > t.meta.execSteps && Sees(m, t, e) && InRange(t.meta, e)
    ensures var t := After(m, s, evs).value;
            var h, start := t.history, t.meta.cycleStart;
            && |Window(h, start)| >= 1
            && Decide(t.meta, e) ==
               if && t.held >= Floor8(SumVolume(Window(h, start)[1..]) + Uncounted(h[1..], start)) * 2.0 * 0.95
                  && Worth(t.held, e.topSell.value.price) >= m.minBasePrice
               then CloseBuy(None) else Nothing
  {
    hide Next, Allowed, Exposure, OfferOk, CleanCycle, Net;
    Reachable(m, s, evs);
    var t := After(m, s, evs).value;
    PrevSumIsCyclePlusUncounted(t.history, t.meta.cycleStart);
    CreditDecision(m, t, e);
  }

  lemma CreditDecision(m: Params, t: Sys, e: Env)
    requires Inv(t.meta) && t.meta.execSteps >= 1 && Buying(t.meta) && t.held > 0.0 && t.history != []
    requires Filled(t) > t.meta.execSteps && Sees(m, t, e) && InRange(t.meta, e)
    ensures Decide(t.meta, e) ==
            if t.held >= PrevVolume(t.history) * 2.0 * 0.95 && Worth(t.held, e.topSell.value.price) >= m.minBasePrice
            then CloseBuy(None) else Nothing
  {
    hide PrevVolume;
    PickIsActive(t.meta, 0);
    PositiveHolding(t.held, e.topSell.value.price);
  }

  lemma PositiveHolding(a: Positive, b: Positive)
    ensures a * b > 0.0
  {}

  /** So in a regular cycle with a clean start every filled averaging buy is credited by the first tick in range. */
  lemma {:induction false} FilledBuyIsCredited(m: Params, s: Sys, evs: seq<Event>, e: Env)
    requires Start(m, s) && After(m, s, evs).Some? && Unsold(After(m, s, evs).value)
    requires var t := After(m, s, evs).value;
             && t.cycle.clean
             && Filled(t) > t.meta.execSteps && Sees(m, t, e) && InRange(t.meta, e)
             && Worth(t.held, e.topSell.value.price) >= m.minBasePrice
    ensures Decide(After(m, s, evs).value.meta, e) == CloseBuy(None)
  {
    hide Next, Allowed, Exposure, OfferOk, Net, PrevVolume, CleanCycle;
    Reachable(m, s, evs);
    CreditedState(m, After(m, s, evs).value);
    CreditDecision(m, After(m, s, evs).value, e);
  }

  lemma CreditedState(m: Params, t: Sys)
    requires SysInv(m, t) && Unsold(t) && t.cycle.clean && Filled(t) > t.meta.execSteps
    ensures t.held >= PrevVolume(t.history) * 2.0 * 0.95
  {
    hide SysInv, Window, CleanCycle, SumVolume, PrevVolume, LaterBuys;
    var h, n := t.history, Filled(t);
    CleanHolding(m, t);
    ThreeScannersOneWindow(h, t.meta.cycleStart, n);
    LaterBuysAre(t, n);
    CreditedVolume(h, t.meta.cycleStart, n, t.held, t.cycle.first);
  }

  lemma LaterBuysAre(t: Sys, n: nat)
    requires 1 <= n <= |t.history| && Window(t.history, t.meta.cycleStart) == t.history[..n]
    ensures LaterBuys(t) == t.history[..n-1]
  {}

  lemma CleanHolding(m: Params, t: Sys)
    requires SysInv(m, t) && Unsold(t) && t.cycle.clean && Filled(t) > t.meta.execSteps
    ensures var h, n := t.history, Filled(t);
            && 2 <= n <= |h| && CleanCycle(h, t.meta.cycleStart, n) && h[n-1].volume <= t.cycle.first
            && t.held == t.cycle.first + SumVolume(LaterBuys(t))
            && 2.0 * h[0].volume >= t.held >= 0.0
  {
    hide Exposure, OfferOk, Net, Window, SumVolume, LaterBuys, Inv, GoodHistory, CycleInv;
  }

  /** The later buys of a clean cycle include the newest, which was at least as large as everything before it. */
  lemma CreditedVolume(h: seq<Trade>, start: Option<nat>, n: nat, held: real, first: real)
    requires n >= 2 && CleanCycle(h, start, n) && h[n-1].volume <= first
    requires held == first + SumVolume(h[..n-1])
    requires 2.0 * h[0].volume >= held >= 0.0
    ensures held >= PrevVolume(h) * 2.0 * 0.95
  {
    ThreeScannersOneWindow(h, start, n);
    assert h[..n-1] == [h[0]] + h[1..n-1];
    SumVolumeCons(h[0], h[1..n-1]);
    assert h[1..n][..n-2] == h[1..n-1];
    assert SumVolume(h[1..n]) == SumVolume(h[1..n-1]) + h[n-1].volume;
    assert PrevVolume(h) <= SumVolume(h[1..n]) <= held - h[0].volume;
  }

  /** A buy that filled during the run is covered by the holding as long as it is the newest trade, so a zero step that
      closes on it starts clean if and only if the trade behind it is a sale or absent. */
  lemma {:induction false} NewestInRunIsCovered(m: Params, s: Sys, evs: seq<Event>)
    requires Start(m, s) && After(m, s, evs).Some?
    ensures var t := After(m, s, evs).value;
            |t.history| >= |s.history|
            && (|t.history| > |s.history| && t.history[0].side.Buy? ==>
                  && t.history[0].volume <= t.held
                  && (CleanStart(t.history, t.held) <==> |t.history| == 1 || t.history[1].side.Sell?))
  {
    hide Normalised, Decide, Tick;
    if evs != [] {
      NewestInRunIsCovered(m, s, evs[..|evs|-1]);
      Reachable(m, s, evs[..|evs|-1]);
    }
  }

  /** The failing input: one coin, an old buy of ten before the cycle and no sale between. The second coin has filled,
      the holding is twice the first, and still the step neither credits it nor buys again, at any price and trend in
      range. */
  lemma OldBuyBlocksCredit(meta: Meta, growth: real, next: Option<Row>, e: Env)
    requires meta.execSteps == 1 && meta.cycleStart == Some(5000)
    requires CanBuy(e) && e.currency.value.total == 2.0 && e.trend >= -growth
    requires next.Some? ==> e.trend > -next.value.step
    requires e.history == [Trade(Buy, 1.0, 1.0, 1.0, 0.0, 9000), Trade(Buy, 1.0, 1.0, 1.0, 0.0, 5000),
                           Trade(Buy, 1.0, 10.0, 10.0, 0.0, 1000)]
    ensures PrevVolume(e.history) == 11.0
    ensures StepBuy(growth, next, meta, e) == Nothing
  {
    var h := e.history;
    var t1, t2 := h[1..], h[2..];
    assert t1[1..] == t2 && t2[1..] == [] && t1[0] == h[1] && t2[0] == h[2];
    assert Rest(t2, None) == [h[2]] + [] && Rest(t1, None) == [h[1]] + Rest(t2, None);
    SumVolumeCons(h[2], []);
    SumVolumeCons(h[1], [h[2]]);
    assert PrevSum(h) == 11.0;
    assert Floor8(11.0) == 11.0;
    assert Window(h, meta.cycleStart) == [h[0]] + Rest(t1, meta.cycleStart);
    assert Rest(t1, meta.cycleStart) == [h[1]] + Rest(t2, meta.cycleStart);
    PositiveHolding(2.0, e.topSell.value.price);
  }

  /** A run from nothing held that gets there: the stake of one coin is bought at price 1 and closes the zero step, the
      coin is offered, the price falls past the first row, the order goes, the price is back and the second coin is
      bought. */
  function OldBuyParams(): Params { OverlapParams().(tradeSumm := 1.0) }

  function OldBuy(time: nat, volume: real): Trade { Trade(Buy, 1.0, volume, volume, 0.0, time) }

  function OldBuyHistory(): seq<Trade> { [OldBuy(5000, 1.0), OldBuy(1000, 10.0)] }

  function OldBuyStart(meta: Meta): Sys {
    Sys(meta, [OldBuy(1000, 10.0)], 0.0, None, None, Cycle(0.0, 1, false, false, false, false))
  }

  function OldBuyBought(meta: Meta): Sys { OldBuyStart(meta).(history := OldBuyHistory(), held := 1.0) }

  function OldBuyClosed(meta: Meta): Sys
    requires Fresh(meta)
  {
    OldBuyBought(meta).(meta := Apply(meta, 0, CloseBuy(Some(5000))), cycle := Cycle(1.0, 2, false, false, false, false))
  }

  function OldBuyFallen(meta: Meta): Sys
    requires Fresh(meta)
  {
    OldBuyClosed(meta).(meta := Apply(OldBuyClosed(meta).meta, 0, CloseSell(7)))
  }

  function OldBuyEnd(meta: Meta): Sys
    requires Fresh(meta)
  {
    OldBuyFallen(meta).(history := [OldBuy(9000, 1.0)] + OldBuyHistory(), held := 2.0)
  }

  /** What a tick sees in a state, at price 1. */
  function OldBuyEnv(s: Sys, trend: real): Env {
    Env(OldBuyParams(), false, trend, Some(Balance(9.0, 9.0)), Some(Balance(s.held, s.held)),
        Some(Quote(1.0, 9.0)), Some(Quote(0.5, 9.0)), s.history,
        if s.offer.Some? then Some(OpenOrder(7, s.offer.value.volume)) else None, false)
  }

  function OldBuyCoin(): Pending { Pending(1.0, false) }

  function OldBuyOffer(cancelling: bool): Offer { Offer(1.0, 1.0, cancelling) }

  function OldBuyRun(meta: Meta): seq<Event>
    requires Fresh(meta)
  {
    [Ticked(OldBuyEnv(OldBuyStart(meta), 0.0), true), BuyFilled(1.0, 1.0, 0.0, 5000),
     Ticked(OldBuyEnv(OldBuyBought(meta), 0.0), false), Ticked(OldBuyEnv(OldBuyClosed(meta), 0.0), true),
     Ticked(OldBuyEnv(OldBuyClosed(meta).(offer := Some(OldBuyOffer(false))), -meta.table[1].step - 1.0), false), OfferGone,
     Ticked(OldBuyEnv(OldBuyFallen(meta), 0.0), true), BuyFilled(1.0, 1.0, 0.0, 9000)]
  }

  lemma OldBuyTickets()
    ensures Normalised(OldBuyParams(), Buy, 1.0, 1.0) == Ticket(1.0, 1.0, 1.0)
    ensures !NeedsFixup(OldBuyParams(), Buy, 1.0, 1.0)
    ensures Normalised(OldBuyParams(), Sell, 1.0, 1.0) == Ticket(1.0, 1.0, 1.0)
    ensures RoundTruncate(0.5, 1.0) == 1.0
  {
    WholeSteps(1.0, 1);
    WholeSteps(0.5, 2);
    WholeIsKept(1.0, 1.0);
    WholeIsKept(0.5, 1.0);
    assert Rounded(OldBuyParams(), Buy, 1.0, 1.0) == Ticket(1.0, 1.0, 1.0);
  }

  lemma OldBuyWindow()
    ensures Target(OldBuyHistory(), Some(5000), OldBuyParams()) == Some(1.0)
    ensures AverageOf(OldBuyHistory(), Some(5000)).ordersCount == 1
  {
    var h := OldBuyHistory();
    assert Second(5000) == 5000 && Second(1000) == 1000;
    OneBuyCounted(h);
    SumVolumeCons(h[0], []);
    assert [h[0]] + [] == [h[0]] && [h[0]][..0] == [];
    assert AverageOf(h, Some(5000)).volume == 1.0 && AverageOf(h, Some(5000)).baseVolume == 1.0;
    assert StopLoss(0.0, 1.0, 0.0, 1.0, 0.0) == 1.0;
  }

  /** The configuration after the zero step closed, and after the fall. */
  lemma OldBuyConfigured(meta: Meta)
    requires Fresh(meta) && meta.maxSteps >= 1
    ensures var closed := OldBuyClosed(meta).meta;
            && Pick(closed, 0) == SellAt(0) && closed.cycleStart == Some(5000) && closed.execSteps == 1
            && |closed.table| == |meta.table| > 2 && closed.table[1] == meta.table[1] && meta.table[1].step > 0.0
    ensures var fallen := OldBuyFallen(meta).meta;
            && Active(fallen.table) == 1 && Pick(fallen, 0) == BuyAt(1)
            && fallen.cycleStart == Some(5000) && fallen.execSteps == 1
            && |fallen.table| > 2 && fallen.table[1].growth >= 0.0 && fallen.table[2].step > 0.0
  {
    assert Second(5000) == 5000;
    var fallen := OldBuyFallen(meta).meta;
    ActiveIs(fallen.table, 1);
    assert Pick(fallen, 1) == BuyAt(1);
  }

  lemma OldBuyStarts(meta: Meta)
    requires Fresh(meta) && meta.maxSteps >= 1
    ensures Decide(meta, OldBuyEnv(OldBuyStart(meta), 0.0)) == Submit(Buy, Some(1.0), 1.0)
    ensures Decide(meta, OldBuyEnv(OldBuyBought(meta), 0.0)) == CloseBuy(Some(5000))
  {
    assert Pick(meta, 0) == BuyAt(0);
    assert VolumeFor(1.0, 1.0) == 1.0 && WithFee(1.0, 0.0) == 1.0;
  }

  lemma OldBuyOffers(meta: Meta)
    requires Fresh(meta) && meta.maxSteps >= 1
    ensures var s := OldBuyClosed(meta); Decide(s.meta, OldBuyEnv(s, 0.0)) == Submit(Sell, Some(1.0), 1.0)
  {
    hide Target, Apply, Pick;
    OldBuyWindow();
    OldBuyConfigured(meta);
  }

  lemma OldBuyFalls(meta: Meta)
    requires Fresh(meta) && meta.maxSteps >= 1
    ensures var s := OldBuyClosed(meta).(offer := Some(OldBuyOffer(false)));
            Decide(s.meta, OldBuyEnv(s, -meta.table[1].step - 1.0)) == CloseSell(7)
  {
    hide Target, Apply, Pick, RoundTruncate;
    OldBuyTickets();
    OldBuyConfigured(meta);
  }

  lemma OldBuyRebounds(meta: Meta)
    requires Fresh(meta) && meta.maxSteps >= 1
    ensures var s := OldBuyFallen(meta); Decide(s.meta, OldBuyEnv(s, 0.0)) == Submit(Buy, Some(1.0), 1.0)
  {
    hide AverageOf, Apply, Pick;
    OldBuyWindow();
    OldBuyConfigured(meta);
    assert Worth(1.0, 1.0) == 1.0 && WithFee(1.0, 0.0) == 1.0;
  }

  ghost predicate Leads(m: Params, s: Sys, ev: Event, t: Sys) {
    Allowed(m, s, ev) && Next(m, s, ev) == t
  }

  /** Up to the purchase, and up to the close of the zero step. */
  lemma OldBuyOpening(meta: Meta)
    requires Fresh(meta) && meta.maxSteps >= 1
    ensures var m, run, pending := OldBuyParams(), OldBuyRun(meta), OldBuyStart(meta).(pending := Some(OldBuyCoin()));
            && Leads(m, OldBuyStart(meta), run[0], pending) && Leads(m, pending, run[1], OldBuyBought(meta))
            && Leads(m, OldBuyBought(meta), run[2], OldBuyClosed(meta))
  {
    hide Decide, Normalised, NeedsFixup;
    OldBuyTickets();
    OldBuyStarts(meta);
    assert Second(5000) == 5000 && Second(1000) == 1000;
  }

  /** The coin is offered, the order is to be cancelled, and is gone. */
  lemma OldBuySelling(meta: Meta)
    requires Fresh(meta) && meta.maxSteps >= 1
    ensures var m, run, closed, fallen := OldBuyParams(), OldBuyRun(meta), OldBuyClosed(meta), OldBuyFallen(meta);
            var offered := closed.(offer := Some(OldBuyOffer(false)));
            var cancelled := fallen.(offer := Some(OldBuyOffer(true)));
            Leads(m, closed, run[3], offered) && Leads(m, offered, run[4], cancelled) && Leads(m, cancelled, run[5], fallen)
  {
    hide Decide, Normalised, NeedsFixup;
    OldBuyTickets();
    OldBuyOffers(meta);
    OldBuyFalls(meta);
    OldBuyConfigured(meta);
  }

  /** The second coin is ordered and bought. */
  lemma OldBuyDoubling(meta: Meta)
    requires Fresh(meta) && meta.maxSteps >= 1
    ensures var m, run, fallen := OldBuyParams(), OldBuyRun(meta), OldBuyFallen(meta);
            var pending := fallen.(pending := Some(OldBuyCoin()));
            Leads(m, fallen, run[6], pending) && Leads(m, pending, run[7], OldBuyEnd(meta))
  {
    hide Decide, Normalised, NeedsFixup;
    OldBuyTickets();
    OldBuyRebounds(meta);
    OldBuyConfigured(meta);
    assert Second(9000) == 9000 && Second(5000) == 5000;
  }

  lemma OldBuyReached(meta: Meta)
    requires Fresh(meta) && meta.maxSteps >= 1
    ensures After(OldBuyParams(), OldBuyStart(meta), OldBuyRun(meta)) == Some(OldBuyEnd(meta))
  {
    hide Next, Allowed;
    var m, s, evs := OldBuyParams(), OldBuyStart(meta), OldBuyRun(meta);
    var closed, fallen := OldBuyClosed(meta), OldBuyFallen(meta);
    OldBuyOpening(meta);
    AfterOne(m, s, evs, 0, s);
    AfterOne(m, s, evs, 1, s.(pending := Some(OldBuyCoin())));
    AfterOne(m, s, evs, 2, OldBuyBought(meta));
    OldBuySelling(meta);
    AfterOne(m, s, evs, 3, closed);
    AfterOne(m, s, evs, 4, closed.(offer := Some(OldBuyOffer(false))));
    AfterOne(m, s, evs, 5, fallen.(offer := Some(OldBuyOffer(true))));
    OldBuyDoubling(meta);
    AfterOne(m, s, evs, 6, fallen);
    AfterOne(m, s, evs, 7, fallen.(pending := Some(OldBuyCoin())));
    assert evs[..8] == evs;
  }

  /** Every tick in range that sees the end of this run does nothing, at any price. */
  lemma OldBuyBlocks(meta: Meta, e: Env)
    requires Fresh(meta) && meta.maxSteps >= 1
    ensures Start(OldBuyParams(), OldBuyStart(meta))
    ensures After(OldBuyParams(), OldBuyStart(meta), OldBuyRun(meta)) == Some(OldBuyEnd(meta))
    ensures var t := OldBuyEnd(meta);
            Sees(OldBuyParams(), t, e) && InRange(t.meta, e) ==> Decide(t.meta, e) == Nothing
  {
    hide StepBuy, PrevVolume, Apply, Pick;
    OldBuyReached(meta);
    OldBuyConfigured(meta);
    var t := OldBuyEnd(meta);
    if Sees(OldBuyParams(), t, e) && InRange(t.meta, e) {
      OldBuyBlocksCredit(t.meta, t.meta.table[1].growth, NextRow(t.meta, 1), e);
    }
  }

  // ----- The engine inside

  /** The ticks of a run, as the engine sees them. */
  function Ticks(evs: seq<Event>): seq<Env> {
    if evs == [] then []
    else Ticks(evs[..|evs|-1]) + if evs[|evs|-1].Ticked? then [evs[|evs|-1].e] else []
  }

  lemma NextMeta(m: Params, s: Sys, ev: Event)
    requires Allowed(m, s, ev)
    ensures Next(m, s, ev).meta == if ev.Ticked? then Tick(s.meta, ev.e) else s.meta
  {
    hide Tick, Decide, Normalised, NeedsFixup, Sees;
  }

  /** Between ticks the exchange never touches the configuration, so everything proved about engine runs (the shape of
      the flags, the cap, the rebound discipline, progress) holds of the whole system. */
  lemma {:induction false} EngineRunInside(m: Params, s: Sys, evs: seq<Event>)
    requires After(m, s, evs).Some?
    ensures After(m, s, evs).value.meta == Run(s.meta, Ticks(evs))
  {
    hide Tick, Next, Allowed;
    if evs != [] {
      var before, ev := evs[..|evs|-1], evs[|evs|-1];
      EngineRunInside(m, s, before);
      NextMeta(m, After(m, s, before).value, ev);
      if ev.Ticked? {
        assert Ticks(evs)[..|Ticks(before)|] == Ticks(before);
      } else {
        assert Ticks(evs) == Ticks(before);
      }
    }
  }
}
