/** The sell target: the price at which the whole cycle, fees included, is sold at the wanted profit. */
module SellTarget {
  import opened Exchange
  import opened Rounding
  import opened CycleScanners

  /** `calculateStopLoss` before its floor. */
  function ExactTarget(cost: real, fee: real, volume: Positive, profit: real): (r: real)
    ensures r * volume == cost * (1.0 + profit + fee)
  {
    var r := (cost * (1.0 + profit) + cost * fee) / volume;
    assert r * volume == cost * (1.0 + profit) + cost * fee;
    r
  }

  function StopLoss(oldFee: real, baseVolume: real, fee: real, volume: Positive, profit: real): real {
    Floor8(ExactTarget(baseVolume + oldFee, fee, volume, profit))
  }

  /** What the target is: the largest price with eight decimals at which the volume returns cost, profit on the cost and
      the fee on the cost. */
  lemma TargetIsLargest(oldFee: real, baseVolume: real, fee: real, volume: Positive, profit: real)
    ensures var r, due := StopLoss(oldFee, baseVolume, fee, volume, profit), (baseVolume + oldFee) * (1.0 + profit + fee);
            r * volume <= due < r * volume + 0.00000001 * volume && IsMultiple(0.00000001, r)
  {
    hide Floor8, IsMultiple, ExactTarget;
    var exact := ExactTarget(baseVolume + oldFee, fee, volume, profit);
    Floor8IsLargest(exact);
    FlooredProduct(Floor8(exact), exact, volume);
  }

  lemma FlooredProduct(r: real, exact: real, volume: Positive)
    requires r <= exact < r + 0.00000001
    ensures r * volume <= exact * volume < r * volume + 0.00000001 * volume
  {
    ProductSign(exact - r, volume);
    ProductSign(r + 0.00000001 - exact, volume);
    assert (exact - r) * volume == exact * volume - r * volume;
    assert (r + 0.00000001 - exact) * volume == r * volume + 0.00000001 * volume - exact * volume;
  }

  /** The target for the running cycle. Without a counted buy the code divides zero by zero: no price. */
  function Target(h: seq<Trade>, start: Option<nat>, m: Params): Option<real> {
    var a := AverageOf(h, start);
    if a.volume > 0.0 then Some(StopLoss(a.fee, a.baseVolume, m.tradeFee, a.volume, m.profit)) else None
  }

  /** The least net gain the target promises on a cost, per the fee `f` on the sale and profit `p`. */
  function Promise(cost: real, p: real, f: real): real {
    cost * (p * (1.0 - f) - f * f)
  }

  lemma GainArithmetic(c: real, p: real, f: real, v: Positive, e: Positive, exact: real, price: real)
    requires 0.0 <= f <= 1.0
    requires exact * v == c * (1.0 + p + f)
    requires price > exact - e
    ensures v * price * (1.0 - f) - c > Promise(c, p, f) - v * e
  {
    var above, kept := price - exact + e, 1.0 - f;
    ProductSign(above, v);
    ProductSign(v, e);
    var whole, short, loss := c * (1.0 + p + f), above * v, v * e;
    var sale := v * price;
    assert sale == whole - loss + short;
    assert whole * kept == c + Promise(c, p, f);
    Shortfall(whole, loss, short, f);
    assert v * price * (1.0 - f) == (whole - loss + short) * kept;
  }

  lemma Shortfall(whole: real, loss: Positive, short: Positive, f: real)
    requires 0.0 <= f <= 1.0
    ensures (whole - loss + short) * (1.0 - f) > whole * (1.0 - f) - loss
  {
    var kept := 1.0 - f;
    ProductSign(kept, short);
    ProductSign(f, loss);
    assert (whole - loss + short) * kept == whole * kept - loss + f * loss + kept * short;
  }

  /** Selling the counted volume at the target, after both floors (eight decimals and the price tick), keeps
      the promise up to one tick and 1e-8 a coin. */
  lemma SellKeepsPromise(oldFee: real, baseVolume: real, m: Params, volume: Positive)
    requires baseVolume + oldFee >= 0.0 && 0.0 <= m.tradeFee <= 1.0 && m.profit >= 0.0
    ensures var c := baseVolume + oldFee;
            var price := RoundTruncate(m.tickSize, StopLoss(oldFee, baseVolume, m.tradeFee, volume, m.profit));
            volume * price * (1.0 - m.tradeFee) - c > Promise(c, m.profit, m.tradeFee) - volume * (PRECISION + m.tickSize)
  {
    hide RoundTruncate, Floor8, ExactTarget, Promise;
    var c := baseVolume + oldFee;
    var exact := ExactTarget(c, m.tradeFee, volume, m.profit);
    NonNegativeTarget(c, m.tradeFee, volume, m.profit, exact);
    var price := RoundTruncate(m.tickSize, Floor8(exact));
    assert price > exact - (PRECISION + m.tickSize);
    GainArithmetic(c, m.profit, m.tradeFee, volume, PRECISION + m.tickSize, exact, price);
  }

  /** The price offered is that target cut to the price tick, and no lower: less than a tick and 1e-8 below what is due. */
  lemma OfferedPrice(oldFee: real, baseVolume: real, m: Params, volume: Positive)
    requires baseVolume + oldFee >= 0.0 && m.tradeFee >= 0.0 && m.profit >= 0.0
    ensures var due := (baseVolume + oldFee) * (1.0 + m.profit + m.tradeFee);
            var price := RoundTruncate(m.tickSize, StopLoss(oldFee, baseVolume, m.tradeFee, volume, m.profit));
            volume * price <= due < volume * price + volume * (m.tickSize + 0.00000001)
  {
    hide RoundTruncate, StopLoss;
    var target := StopLoss(oldFee, baseVolume, m.tradeFee, volume, m.profit);
    TargetIsLargest(oldFee, baseVolume, m.tradeFee, volume, m.profit);
    NonNegativeTarget(baseVolume + oldFee, m.tradeFee, volume, m.profit, ExactTarget(baseVolume + oldFee, m.tradeFee, volume, m.profit));
    StopLossSign(oldFee, baseVolume, m.tradeFee, volume, m.profit);
    var price := RoundTruncate(m.tickSize, target);
    ProductSign(target - price, volume);
    ProductSign(price + m.tickSize - target, volume);
    assert (target - price) * volume == target * volume - volume * price;
    assert (price + m.tickSize - target) * volume == volume * price + volume * m.tickSize - target * volume;
  }

  lemma StopLossSign(oldFee: real, baseVolume: real, fee: real, volume: Positive, profit: real)
    requires ExactTarget(baseVolume + oldFee, fee, volume, profit) >= 0.0
    ensures StopLoss(oldFee, baseVolume, fee, volume, profit) >= 0.0
  {}

  lemma NonNegativeTarget(c: real, f: real, v: Positive, p: real, exact: real)
    requires c >= 0.0 && f >= 0.0 && p >= 0.0
    requires exact * v == c * (1.0 + p + f)
    ensures exact >= 0.0
  {}

  /** Mediant inequality: adding a lot whose all-in unit cost is no higher than the average does not raise it, and
      only then. */
  lemma MediantIff(c: real, v: Positive, c2: real, v2: Positive, k: Positive, before: real, after: real)
    requires before * v == c * k
    requires after * (v + v2) == (c + c2) * k
    ensures after <= before <==> c2 * v <= c * v2
  {}

  /** Averaging down: when the newest trade is a counted buy, prepending a buy whose all-in unit cost is at most the
      cycle's never raises the target; before the floor the converse holds too. */
  lemma AveragingDown(h: seq<Trade>, start: Option<nat>, b: Trade, m: Params)
    requires h != [] && Counted(h[0], start) && Counted(b, start)
    requires PositiveBuys([b] + h)
    requires m.tradeFee >= 0.0 && m.profit >= 0.0
    ensures AverageOf(h, start).volume > 0.0 && AverageOf([b] + h, start).volume > 0.0
    ensures var a, a2 := AverageOf(h, start), AverageOf([b] + h, start);
            var cheaper := (b.baseVolume + b.fee) * a.volume <= (a.baseVolume + a.fee) * b.volume;
            && (cheaper <==>
                ExactTarget(a2.baseVolume + a2.fee, m.tradeFee, a2.volume, m.profit)
                <= ExactTarget(a.baseVolume + a.fee, m.tradeFee, a.volume, m.profit))
            && (cheaper ==> Target([b] + h, start, m).value <= Target(h, start, m).value)
  {
    OneMoreBuy(h, start, b);
    var a, a2 := AverageOf(h, start), AverageOf([b] + h, start);
    var before := ExactTarget(a.baseVolume + a.fee, m.tradeFee, a.volume, m.profit);
    var after := ExactTarget(a2.baseVolume + a2.fee, m.tradeFee, a2.volume, m.profit);
    MediantIff(a.baseVolume + a.fee, a.volume, b.baseVolume + b.fee, b.volume, 1.0 + m.profit + m.tradeFee, before, after);
    if after <= before {
      Floor8Monotone(after, before);
    }
  }

  /** In the user's terms: when every fee is the same part of its trade, a buy at or below the volume-weighted average
      price of the cycle never raises the target. */
  lemma AveragingDownByPrice(h: seq<Trade>, start: Option<nat>, b: Trade, m: Params, rate: real)
    requires h != [] && Counted(h[0], start) && Counted(b, start)
    requires PositiveBuys([b] + h)
    requires m.tradeFee >= 0.0 && m.profit >= 0.0 && rate >= 0.0
    requires var a := AverageOf(h, start);
             && a.fee == rate * a.baseVolume && b.fee == rate * b.baseVolume
             && b.baseVolume * a.volume <= a.baseVolume * b.volume
    ensures Target(h, start, m).Some? && Target([b] + h, start, m).Some?
    ensures Target([b] + h, start, m).value <= Target(h, start, m).value
  {
    AveragingDown(h, start, b, m);
    var a := AverageOf(h, start);
    SameFeeRate(a.baseVolume, a.volume, b.baseVolume, b.volume, rate);
  }

  lemma SameFeeRate(c: real, v: real, c2: real, v2: real, rate: real)
    requires rate >= 0.0 && c2 * v <= c * v2
    ensures (c2 + rate * c2) * v <= (c + rate * c) * v2
  {
    var gap := c * v2 - c2 * v;
    assert rate * gap >= 0.0;
    assert (c + rate * c) * v2 - (c2 + rate * c2) * v == gap + rate * gap;
  }

  /** One more counted buy adds itself to every total of the cycle. */
  lemma OneMoreBuy(h: seq<Trade>, start: Option<nat>, b: Trade)
    requires h != [] && Counted(h[0], start) && Counted(b, start)
    requires PositiveBuys([b] + h)
    ensures var a, a2 := AverageOf(h, start), AverageOf([b] + h, start);
            && a.volume > 0.0 && b.volume > 0.0
            && a2.volume == a.volume + b.volume && a2.baseVolume == a.baseVolume + b.baseVolume
            && a2.fee == a.fee + b.fee && a2.ordersCount == a.ordersCount + 1
  {
    assert PositiveBuys(h) by {
      assert forall i | 0 <= i < |h| :: ([b] + h)[i+1] == h[i];
    }
    assert b.volume > 0.0 by { assert ([b] + h)[0] == b; }
    PositiveWindow(h, start);
    PositiveSum(Window(h, start));
    WindowAfterBuy(h, start, b);
    SumVolumeAppend([b], Window(h, start));
    assert [b][..0] == [];
  }
}
