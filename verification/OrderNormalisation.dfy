/** The part of `BinanceAPI::submitOrder` that turns a wish into an order the exchange accepts. */
module OrderNormalisation {
  import opened Exchange
  import opened Rounding

  /** What is sent: price, currency volume and their product. */
  datatype Ticket = Ticket(price: real, volume: real, base: real)

  /** The ticket before the min-notional check. */
  function Rounded(m: Params, side: Side, price: real, volume: real): Ticket {
    var p := RoundTruncate(m.tickSize, price);
    var v := if side.Buy? then RoundCeil(m.lot, volume) else RoundTruncate(m.lot, volume);
    Ticket(p, v, Worth(v, p))
  }

  predicate NeedsFixup(m: Params, side: Side, price: real, volume: real) {
    side.Buy? && Rounded(m, side, price, volume).base <= m.minNotional
  }

  /** What the correction aims for: the minimum plus the fee on it, in base currency. */
  function CorrectedBase(m: Params): real {
    m.minNotional * (1.0 + m.tradeFee)
  }

  /** How much of something at this price an amount pays for. */
  function Affordable(base: real, price: Positive): (q: real)
    ensures q * price == base
  {
    base / price
  }

  function Normalised(m: Params, side: Side, price: real, volume: real): Ticket
    requires side.Buy? ==> price >= m.tickSize
  {
    var t := Rounded(m, side, price, volume);
    if NeedsFixup(m, side, price, volume) then
      PriceAtLeastTick(m, price);
      var v := RoundTruncate(m.lot, Affordable(CorrectedBase(m), t.price));
      Ticket(t.price, v, Worth(v, t.price))
    else t
  }

  lemma PriceAtLeastTick(m: Params, price: real)
    requires price >= m.tickSize
    ensures RoundTruncate(m.tickSize, price) >= m.tickSize
  {
    WholeSteps(m.tickSize, 1);
    LargestMultiple(m.tickSize, m.tickSize, price);
  }

  /** The code's own shape: locals reassigned, one nested correction. */
  method NormaliseOrder(m: Params, side: Side, price: real, currencyVolume: real) returns (t: Ticket)
    requires side.Buy? ==> price >= m.tickSize
    ensures t == Normalised(m, side, price, currencyVolume)
  {
    hide RoundTruncate, RoundCeil, Affordable, CorrectedBase, Worth;
    var tickSize := RoundTruncate(m.tickSize, price);
    var stepSize;
    if side == Buy {
      stepSize := RoundCeil(m.lot, currencyVolume);
    } else {
      stepSize := RoundTruncate(m.lot, currencyVolume);
    }
    var baseStepSize := Worth(stepSize, tickSize);
    if baseStepSize <= m.minNotional {
      if side == Buy {
        PriceAtLeastTick(m, price);
        var newBaseMinVolume := CorrectedBase(m);
        var newMinVolume := Affordable(newBaseMinVolume, tickSize);
        stepSize := RoundTruncate(m.lot, newMinVolume);
        baseStepSize := Worth(stepSize, tickSize);
      }
    }
    t := Ticket(tickSize, stepSize, baseStepSize);
  }

  /** Whatever happens, the ticket is on the exchange's grid, its price at most one tick below the wish and its
      base volume the product of the other two. */
  lemma OnGrid(m: Params, side: Side, price: real, volume: real)
    requires price >= m.tickSize && volume >= 0.0
    ensures var t := Normalised(m, side, price, volume);
            && IsMultiple(m.tickSize, t.price) && IsMultiple(m.lot, t.volume)
            && price - m.tickSize < t.price <= price
            && t.base == t.price * t.volume
            && (side.Sell? ==> volume - m.lot < t.volume <= volume)
            && (side.Buy? && !NeedsFixup(m, side, price, volume) ==> volume <= t.volume < volume + m.lot)
  {
    hide RoundTruncate, RoundCeil, IsMultiple, Affordable, CorrectedBase;
    var t := Rounded(m, side, price, volume);
    assert price >= m.tickSize > 0.0;
    if NeedsFixup(m, side, price, volume) {
      PriceAtLeastTick(m, price);
      assert Normalised(m, side, price, volume).volume == RoundTruncate(m.lot, Affordable(CorrectedBase(m), t.price));
    }
  }

  lemma FactorBounds(a: real, q: real, p: Positive)
    ensures a <= q <==> a * p <= q * p
    ensures a < q <==> a * p < q * p
  {}

  lemma CorrectionIsLarger(m: Params)
    requires m.minNotional >= 0.0 && m.tradeFee >= 0.0
    ensures CorrectedBase(m) == m.minNotional + m.minNotional * m.tradeFee >= m.minNotional
  {}

  /** The min-notional correction never shrinks a buy: it never goes below the wish rounded up to whole lots. */
  lemma BuyNeverShrinks(m: Params, price: real, volume: real)
    requires price >= m.tickSize && volume >= 0.0 && m.minNotional >= 0.0 && m.tradeFee >= 0.0
    ensures Normalised(m, Buy, price, volume).volume >= RoundCeil(m.lot, volume) >= volume
  {
    hide RoundTruncate, RoundCeil, IsMultiple, Affordable, CorrectedBase;
    if NeedsFixup(m, Buy, price, volume) {
      PriceAtLeastTick(m, price);
      CorrectionIsLarger(m);
      var t := Rounded(m, Buy, price, volume);
      var wish := CorrectedBase(m);
      assert t.price * t.volume == t.base <= m.minNotional <= wish;
      AffordableAtLeast(t.volume, wish, t.price);
      LargestMultiple(m.lot, t.volume, Affordable(wish, t.price));
    }
  }

  lemma AffordableAtLeast(volume: real, base: real, price: Positive)
    requires price * volume <= base
    ensures volume <= Affordable(base, price)
  {}

  /** The number of whole lots, at this price, that a base amount pays for. */
  function LotsFor(m: Params, price: Positive, base: real): int {
    Affordable(Affordable(base, price), m.lot).Floor
  }

  lemma LotCount(m: Params, price: Positive, base: real)
    requires base >= 0.0
    ensures LotsFor(m, price, base) as real * m.lot == RoundTruncate(m.lot, Affordable(base, price))
  {
    var x := Affordable(base, price);
    FactorBounds(0.0, x, price);
    assert (x * SCALE) / (m.lot * SCALE) == Affordable(x, m.lot);
    FactorBounds(0.0, Affordable(x, m.lot), m.lot);
  }

  /** The corrected order is the whole lots the corrected base pays for, so it is short of it by less than a lot. */
  lemma FixupBase(m: Params, price: real, volume: real)
    requires price >= m.tickSize && m.minNotional >= 0.0 && m.tradeFee >= 0.0
    requires NeedsFixup(m, Buy, price, volume)
    ensures var t := Normalised(m, Buy, price, volume);
            && t.price > 0.0
            && t.volume == LotsFor(m, t.price, CorrectedBase(m)) as real * m.lot
            && CorrectedBase(m) - t.price * m.lot < t.base <= CorrectedBase(m)
  {
    hide RoundTruncate, RoundCeil, Affordable, LotsFor, IsMultiple;
    PriceAtLeastTick(m, price);
    CorrectionIsLarger(m);
    var p: Positive := RoundTruncate(m.tickSize, price);
    var wish := CorrectedBase(m);
    LotCount(m, p, wish);
    FlooredBase(m.lot, p, wish);
  }

  lemma FlooredBase(lot: Positive, price: Positive, base: real)
    requires base >= 0.0
    ensures base - price * lot < price * RoundTruncate(lot, Affordable(base, price)) <= base
  {}

  /** Exactly when the corrected buy clears the exchange's minimum: some whole number of lots must cost more than
      the minimum and no more than the minimum plus the fee. */
  lemma FixupClearsMinimumIff(m: Params, price: real, volume: real)
    requires price >= m.tickSize && m.minNotional >= 0.0 && m.tradeFee >= 0.0
    requires NeedsFixup(m, Buy, price, volume)
    ensures var t := Normalised(m, Buy, price, volume);
            && t.price > 0.0
            && (t.base > m.minNotional <==>
                LotsFor(m, t.price, CorrectedBase(m)) > LotsFor(m, t.price, m.minNotional))
  {
    hide Affordable, CorrectedBase, LotsFor, RoundTruncate, RoundCeil;
    FixupBase(m, price, volume);
    var t := Normalised(m, Buy, price, volume);
    var n := LotsFor(m, t.price, CorrectedBase(m));
    MoreLotsIff(m, t.price, n, t.volume, m.minNotional);
  }

  lemma MoreLotsIff(m: Params, price: Positive, n: int, volume: real, base: real)
    requires volume == n as real * m.lot
    ensures price * volume > base <==> n > LotsFor(m, price, base)
  {
    hide Affordable;
    var x := Affordable(base, price);
    CompareLots(price, m.lot, n, volume, base, x, Affordable(x, m.lot));
  }

  lemma CompareLots(price: Positive, lot: Positive, n: int, volume: real, base: real, x: real, q: real)
    requires volume == n as real * lot && x * price == base && q * lot == x
    ensures price * volume > base <==> n > q.Floor
  {
    FactorBounds(x, volume, price);
    FactorBounds(q, n as real, lot);
    assert price * volume == volume * price;
    assert volume > x <==> n as real > q;
  }

  /** The sufficient condition a pair can be checked for once: one lot costs no more than the fee on the minimum. */
  lemma FixupClearsMinimum(m: Params, price: real, volume: real)
    requires price >= m.tickSize && m.minNotional >= 0.0 && m.tradeFee >= 0.0
    requires NeedsFixup(m, Buy, price, volume)
    requires RoundTruncate(m.tickSize, price) * m.lot <= m.minNotional * m.tradeFee
    ensures Normalised(m, Buy, price, volume).base > m.minNotional
  {
    hide Affordable, LotsFor, RoundTruncate, RoundCeil;
    FixupBase(m, price, volume);
    CorrectionIsLarger(m);
  }

  /** A pair for which the correction still leaves the order below the minimum. */
  lemma FixupCanFail()
    ensures exists m: Params, price, volume ::
              && price >= m.tickSize && m.minNotional >= 0.0 && m.tradeFee >= 0.0
              && NeedsFixup(m, Buy, price, volume)
              && Normalised(m, Buy, price, volume).base <= m.minNotional
  {
    var m := Params(0.001, 1.0, 3.0, 10.0, 0.0, 1.0, 0.01);
    var price, volume := 1.0, 1.0;
    var t := Rounded(m, Buy, price, volume);
    WholeSteps(1.0, 1);
    assert RoundTruncate(1.0, 1.0) == 1.0 by {
      LargestMultiple(1.0, 1.0, 1.0);
    }
    assert t.volume < 4.0;
    assert NeedsFixup(m, Buy, price, volume);
    assert IsMultiple(3.0, RoundTruncate(3.0, 10.01));
    assert Affordable(CorrectedBase(m), 1.0) == 10.01;
    var r := RoundTruncate(3.0, 10.01);
    var n := (r / 3.0).Floor;
    assert n as real * 3.0 == r <= 10.01;
    assert n <= 3;
    assert Normalised(m, Buy, price, volume).base <= m.minNotional;
  }

  /** Every order, from the wish alone. A sale is rounded down and never corrected. A buy whose rounded-up volume costs
      more than the minimum is sent so; any other buy is sent for the minimum and the fee on it, short by less than a
      lot. The price is always the tick at or below the wish. */
  lemma OrderSent(m: Params, side: Side, price: real, volume: real)
    requires price >= m.tickSize && m.minNotional >= 0.0 && m.tradeFee >= 0.0
    ensures var t, p := Normalised(m, side, price, volume), RoundTruncate(m.tickSize, price);
            && t.price == p && t.base == p * t.volume
            && (side.Sell? ==> t.volume == RoundTruncate(m.lot, volume))
            && (side.Buy? && p * RoundCeil(m.lot, volume) > m.minNotional ==> t.volume == RoundCeil(m.lot, volume))
            && (side.Buy? && p * RoundCeil(m.lot, volume) <= m.minNotional ==>
                  && m.minNotional * (1.0 + m.tradeFee) - p * m.lot < t.base <= m.minNotional * (1.0 + m.tradeFee)
                  && IsMultiple(m.lot, t.volume))
  {
    hide RoundTruncate, RoundCeil, IsMultiple, Affordable, LotsFor;
    if NeedsFixup(m, side, price, volume) {
      FixupBase(m, price, volume);
    }
  }

  /** So when one lot costs at most the fee on the minimum, every buy clears the exchange's minimum. */
  lemma EveryBuyClears(m: Params, price: real, volume: real)
    requires price >= m.tickSize && m.minNotional >= 0.0 && m.tradeFee >= 0.0
    requires RoundTruncate(m.tickSize, price) * m.lot <= m.minNotional * m.tradeFee
    ensures Normalised(m, Buy, price, volume).base > m.minNotional
  {
    hide RoundTruncate, RoundCeil, IsMultiple, Normalised;
    OrderSent(m, Buy, price, volume);
    var minimum, fee := m.minNotional, m.tradeFee;
    assert minimum * (1.0 + fee) == minimum + minimum * fee;
  }
}
