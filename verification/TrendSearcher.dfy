/** The trend of every traded pair: how far the best sell price is, in percent, from the cycle's first buy. */
module TrendSearcher {
  import opened Exchange
  import opened CycleScanners
  import opened Rounding

  function Abs(x: real): real { if x < 0.0 then -x else x }

  /** `calcPerc`, case by case. */
  function CalcPerc(a: real, b: real): real {
    if a == 0.0 then 0.0
    else if a < 0.0 && b < 0.0 then
      if Abs(a) < Abs(b) then ((a - b) / a) * 100.0
      else if Abs(a) > Abs(b) then -((b - a) / a) * 100.0
      else 0.0
    else if a > b then -(((a - b) / a) * 100.0)
    else if a < b then Abs(((b - a) / a) * 100.0)
    else 0.0
  }

  /** All the cases are one formula: the change relative to the size of the first price. */
  lemma CalcPercIsChange(a: real, b: real)
    requires a != 0.0
    ensures CalcPerc(a, b) * Abs(a) == (b - a) * 100.0
  {}

  /** A drop in the table is a price: the trend is at or below minus `d` percent exactly when the best sell price is
      at or below the first price less `d` percent. */
  lemma DropIsPrice(first: Positive, top: real, d: real)
    ensures CalcPerc(first, top) <= -d <==> top * 100.0 <= first * (100.0 - d)
    ensures CalcPerc(first, top) < -d <==> top * 100.0 < first * (100.0 - d)
  {}

  // ----- The timer

  datatype Trend = Trend(current: real, min: real)

  /** What the timer sees of one pair. */
  datatype View = View(history: seq<Trade>, cycleStart: Option<nat>, topSell: Option<real>)

  /** The code leaves the whole loop, not just this pair. */
  predicate Leaves(v: View) {
    v.history == [] || (v.history[0].side.Buy? && (v.cycleStart.None? || v.topSell.None?))
  }

  function Updated(t: Trend, v: View): Trend
    requires !Leaves(v)
  {
    if v.history[0].side.Buy? then
      var rate := CalcPerc(FirstSellPrice(v.history, v.cycleStart), v.topSell.value);
      if t.current == rate then t else Trend(rate, if rate < t.min then rate else t.min)
    else if t.current != 0.0 then Trend(0.0, 0.0) else t
  }

  /** The timer's loop from pair `i` on. */
  function AfterTimer(ts: seq<Trend>, views: seq<View>, i: nat): (r: seq<Trend>)
    requires i <= |ts| == |views|
    ensures |r| == |ts|
    decreases |ts| - i
  {
    if i == |ts| || Leaves(views[i]) then ts else AfterTimer(ts[i := Updated(ts[i], views[i])], views, i + 1)
  }

  class Searcher {
    var trends: seq<Trend>

    constructor (n: nat)
      ensures trends == seq(n, _ => Trend(0.0, 0.0))
    {
      trends := seq(n, _ => Trend(0.0, 0.0));
    }

    /** The loop body for pair `i`. */
    method VisitPair(i: nat, v: View) returns (leave: bool)
      requires i < |trends|
      modifies this
      ensures leave == Leaves(v)
      ensures trends == if leave then old(trends) else old(trends)[i := Updated(old(trends)[i], v)]
    {
      if v.history == [] {
        return true;
      }
      if v.history[0].side == Buy {
        if v.cycleStart.None? {
          return true;
        }
        var first := FindFirstSellPrice(v.history, v.cycleStart);
        if v.topSell.None? {
          return true;
        }
        var rate := CalcPerc(first, v.topSell.value);
        if trends[i].current != rate {
          var min := trends[i].min;
          if rate < min {
            min := rate;
          }
          trends := trends[i := Trend(rate, min)];
        }
      } else if trends[i].current != 0.0 {
        trends := trends[i := Trend(0.0, 0.0)];
      }
      return false;
    }

    method TimerEvent(views: seq<View>)
      requires |views| == |trends|
      modifies this
      ensures trends == AfterTimer(old(trends), views, 0)
    {
      var i := 0;
      while i < |views|
        invariant 0 <= i <= |views| == |trends|
        invariant AfterTimer(old(trends), views, 0) == AfterTimer(trends, views, i)
      {
        var leave := VisitPair(i, views[i]);
        if leave {
          return;
        }
        i := i + 1;
      }
    }
  }

  /** A pair is brought up to date by a timer event exactly as far as no pair up to it makes the code leave the loop,
      that is, each of them has a history and, if its newest trade is a buy, a cycle start and a sell side of the book;
      all later pairs keep a stale trend. */
  lemma {:induction false} StaleAfterLeaving(ts: seq<Trend>, views: seq<View>, i: nat, k: nat)
    requires i <= |ts| == |views| && k < |ts|
    ensures AfterTimer(ts, views, i)[k] ==
            if && i <= k
               && forall j | i <= j <= k ::
                    && views[j].history != []
                    && (views[j].history[0].side.Buy? ==> views[j].cycleStart.Some? && views[j].topSell.Some?)
            then Updated(ts[k], views[k]) else ts[k]
    decreases |ts| - i
  {
    if i < |ts| && !Leaves(views[i]) {
      StaleAfterLeaving(ts[i := Updated(ts[i], views[i])], views, i + 1, k);
    }
  }

  /** What a refreshed trend says: zero after a sale, and otherwise a trend at or below minus `d` percent means that the
      best sell price is at or below the price of the cycle's oldest buy less `d` percent. */
  lemma TrendIsDrop(ts: seq<Trend>, views: seq<View>, k: nat, d: real)
    requires k < |ts| == |views|
    requires forall j | 0 <= j <= k ::
               && views[j].history != []
               && (views[j].history[0].side.Buy? ==> views[j].cycleStart.Some? && views[j].topSell.Some?)
    ensures var t, v := AfterTimer(ts, views, 0)[k], views[k];
            var w := Window(v.history, v.cycleStart);
            && (v.history[0].side.Sell? ==> t.current == 0.0)
            && (v.history[0].side.Buy? && w != [] && Floor8(w[|w|-1].price) > 0.0 ==>
                  (t.current <= -d <==> v.topSell.value * 100.0 <= Floor8(w[|w|-1].price) * (100.0 - d)))
  {
    hide Window, Floor8, CalcPerc;
    StaleAfterLeaving(ts, views, 0, k);
    var v := views[k];
    var w := Window(v.history, v.cycleStart);
    if v.history[0].side.Buy? && w != [] && Floor8(w[|w|-1].price) > 0.0 {
      DropIsPrice(Floor8(w[|w|-1].price), v.topSell.value, d);
    }
  }

  function Timers(t: Trend, views: seq<View>): Trend {
    if views == [] then t
    else
      var before, v := Timers(t, views[..|views|-1]), views[|views|-1];
      if Leaves(v) then before else Updated(before, v)
  }

  /** Over every run the stored minimum bounds the trend and never exceeds zero. */
  lemma {:induction false} MinimumBoundsTrend(views: seq<View>)
    ensures var t := Timers(Trend(0.0, 0.0), views); t.min <= t.current && t.min <= 0.0
  {
    if views != [] {
      MinimumBoundsTrend(views[..|views|-1]);
    }
  }

  /** A refresh after a buy, and the rate it computes. */
  predicate Priced(v: View) { !Leaves(v) && v.history[0].side.Buy? }
  predicate Sold(v: View) { !Leaves(v) && v.history[0].side.Sell? }

  function Rate(v: View): real
    requires Priced(v)
  {
    CalcPerc(FirstSellPrice(v.history, v.cycleStart), v.topSell.value)
  }

  /** The rate of the last refresh: zero before any, and after a sale. */
  function LastRate(views: seq<View>): real {
    if views == [] then 0.0
    else
      var v := views[|views|-1];
      if Priced(v) then Rate(v) else if Sold(v) then 0.0 else LastRate(views[..|views|-1])
  }

  /** A fall at event `i` outlives every later sale, because the trend stood at zero each time. */
  ghost predicate FallSurvives(views: seq<View>, i: nat)
    requires i < |views|
  {
    && Priced(views[i]) && Rate(views[i]) < 0.0
    && forall j | i < j < |views| && Sold(views[j]) :: LastRate(views[..j]) == 0.0
  }

  lemma FallSurvivesPrefix(views: seq<View>, i: nat)
    requires i < |views| - 1
    ensures var n := |views| - 1;
            FallSurvives(views, i) <==>
            FallSurvives(views[..n], i) && (Sold(views[n]) ==> LastRate(views[..n]) == 0.0)
  {
    var n := |views| - 1;
    forall j | i < j < n
      ensures views[..n][j] == views[j] && views[..n][..j] == views[..j]
    {}
  }

  /** Exactly which runs end with a negative minimum: those with a fall such that every later sale found the trend at
      zero, and so did not reset it. In particular a sale is followed by a fresh minimum only if the trend was not
      zero, or there was no such fall. */
  lemma {:induction false} MinimumSurvivesIff(views: seq<View>)
    ensures Timers(Trend(0.0, 0.0), views).current == LastRate(views)
    ensures Timers(Trend(0.0, 0.0), views).min < 0.0 <==> exists i | 0 <= i < |views| :: FallSurvives(views, i)
  {
    hide CalcPerc, FirstSellPrice;
    if views != [] {
      var n := |views| - 1;
      MinimumBoundsTrend(views[..n]);
      MinimumSurvivesIff(views[..n]);
      forall i | 0 <= i < n
        ensures FallSurvives(views, i) <==>
                FallSurvives(views[..n], i) && (Sold(views[n]) ==> LastRate(views[..n]) == 0.0)
      {
        FallSurvivesPrefix(views, i);
      }
      assert FallSurvives(views, n) <==> Priced(views[n]) && Rate(views[n]) < 0.0;
      if exists i | 0 <= i < n :: FallSurvives(views[..n], i) {
        var i :| 0 <= i < n && FallSurvives(views[..n], i);
        assert FallSurvives(views, i) <==> (Sold(views[n]) ==> LastRate(views[..n]) == 0.0);
      }
    }
  }

  /** Such a run: half the price, back to the price, sold. The sale is over and the old minimum of minus fifty percent
      stays for the next cycle. */
  lemma OldMinimumSurvives()
    ensures var buy := Trade(Buy, 100.0, 1.0, 100.0, 0.0, 1000);
            var sale := Trade(Sell, 100.0, 1.0, 100.0, 0.0, 3000);
            var views := [View([buy], Some(1000), Some(50.0)), View([buy], Some(1000), Some(100.0)),
                          View([sale, buy], Some(1000), Some(100.0))];
            Sold(views[2]) && Timers(Trend(0.0, 0.0), views) == Trend(0.0, -50.0)
  {
    var buy := Trade(Buy, 100.0, 1.0, 100.0, 0.0, 1000);
    var h := [buy];
    assert Window(h, Some(1000)) == [buy] + Rest(h[1..], Some(1000)) == [buy];
    assert FirstSellPrice(h, Some(1000)) == 100.0;
    var fall, back := View(h, Some(1000), Some(50.0)), View(h, Some(1000), Some(100.0));
    assert CalcPerc(100.0, 50.0) == -50.0;
    var sold := View([Trade(Sell, 100.0, 1.0, 100.0, 0.0, 3000), buy], Some(1000), Some(100.0));
    var views := [fall, back, sold];
    assert views[..2][..1] == [fall] && views[..2] == [fall, back] && [fall][..0] == [];
    assert Timers(Trend(0.0, 0.0), [fall]) == Trend(-50.0, -50.0);
    assert Timers(Trend(0.0, 0.0), [fall, back]) == Trend(0.0, -50.0);
  }
}
