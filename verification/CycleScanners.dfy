/** The three loops that read the newest-first trade history of one market. */
module CycleScanners {
  import opened Exchange
  import opened Rounding

  /** An absent cycle start is a null date, which every trade is later than. */
  predicate Counted(t: Trade, start: Option<nat>) {
    t.side.Buy? && (start.None? || t.time >= start.value)
  }

  /** The buys a scanner looks at: after the first counted buy, up to the next sell. */
  function Rest(h: seq<Trade>, start: Option<nat>): seq<Trade> {
    if h == [] || h[0].side.Sell? then []
    else (if Counted(h[0], start) then [h[0]] else []) + Rest(h[1..], start)
  }

  function Window(h: seq<Trade>, start: Option<nat>): seq<Trade> {
    if h == [] then []
    else if Counted(h[0], start) then Rest(h, start)
    else Window(h[1..], start)
  }

  function SumPrice(w: seq<Trade>): real { if w == [] then 0.0 else SumPrice(w[..|w|-1]) + w[|w|-1].price }
  function SumFee(w: seq<Trade>): real { if w == [] then 0.0 else SumFee(w[..|w|-1]) + w[|w|-1].fee }
  function SumBase(w: seq<Trade>): real { if w == [] then 0.0 else SumBase(w[..|w|-1]) + w[|w|-1].baseVolume }
  function SumVolume(w: seq<Trade>): real { if w == [] then 0.0 else SumVolume(w[..|w|-1]) + w[|w|-1].volume }

  datatype AverageData = AverageData(baseVolume: real, price: real, fee: real, volume: real, ordersCount: nat)

  function Summary(w: seq<Trade>): AverageData {
    AverageData(SumBase(w), if |w| > 0 then Floor8(SumPrice(w) / |w| as real) else 0.0, SumFee(w), SumVolume(w), |w|)
  }

  function AverageOf(h: seq<Trade>, start: Option<nat>): AverageData {
    Summary(Window(h, start))
  }

  /** `calculateAverate`: running totals in one pass, stopping at the first sell after a counted buy. */
  method CalculateAverage(h: seq<Trade>, start: Option<nat>) returns (ret: AverageData)
    ensures ret == AverageOf(h, start)
  {
    ret := AverageData(0.0, 0.0, 0.0, 0.0, 0);
    var find := false;
    ghost var seen: seq<Trade> := [];
    var i := 0;
    while i < |h|
      invariant 0 <= i <= |h|
      invariant !find ==> seen == [] && Window(h, start) == Window(h[i..], start)
      invariant find ==> seen != [] && Window(h, start) == seen + Rest(h[i..], start)
      invariant ret == AverageData(SumBase(seen), SumPrice(seen), SumFee(seen), SumVolume(seen), |seen|)
    {
      assert h[i..][1..] == h[i+1..];
      if Counted(h[i], start) {
        find := true;
        assert (seen + [h[i]])[..|seen|] == seen;
        assert seen + ([h[i]] + Rest(h[i+1..], start)) == (seen + [h[i]]) + Rest(h[i+1..], start);
        seen := seen + [h[i]];
        ret := AverageData(ret.baseVolume + h[i].baseVolume, ret.price + h[i].price, ret.fee + h[i].fee,
                           ret.volume + h[i].volume, ret.ordersCount + 1);
      }
      if h[i].side == Sell && find {
        break;
      }
      i := i + 1;
    }
    assert Window(h, start) == seen;
    if ret.ordersCount > 0 {
      ret := ret.(price := Floor8(ret.price / ret.ordersCount as real));
    }
  }

  /** What the previous-volume scan sums before it floors: every buy behind the newest trade, up to the next sell. */
  function PrevSum(h: seq<Trade>): real
    requires h != []
  {
    SumVolume(Rest(h[1..], None))
  }

  function PrevVolume(h: seq<Trade>): real
    requires h != []
  {
    Floor8(PrevSum(h))
  }

  /** `calculatePrevVolume`: skips the newest trade, then sums buys up to the next sell. It does not look at the
      cycle start. The code increments the begin iterator, so an empty history is not allowed. */
  method CalculatePrevVolume(h: seq<Trade>) returns (ret: real)
    requires h != []
    ensures ret == PrevVolume(h)
  {
    ret := 0.0;
    ghost var seen: seq<Trade> := [];
    var i := 1;
    while i < |h|
      invariant 1 <= i <= |h|
      invariant Rest(h[1..], None) == seen + Rest(h[i..], None)
      invariant ret == SumVolume(seen)
    {
      assert h[i..][1..] == h[i+1..];
      if h[i].side == Buy {
        assert (seen + [h[i]])[..|seen|] == seen;
        assert seen + ([h[i]] + Rest(h[i+1..], None)) == (seen + [h[i]]) + Rest(h[i+1..], None);
        seen := seen + [h[i]];
        ret := ret + h[i].volume;
      }
      if h[i].side == Sell {
        break;
      }
      i := i + 1;
    }
    assert Rest(h[1..], None) == seen;
    ret := Floor8(ret);
  }

  function FirstSellPrice(h: seq<Trade>, start: Option<nat>): real {
    var w := Window(h, start);
    Floor8(if w == [] then 0.0 else w[|w|-1].price)
  }

  /** `findFirstSellPrice`: overwrites the price at every counted buy, so the oldest one wins. */
  method FindFirstSellPrice(h: seq<Trade>, start: Option<nat>) returns (ret: real)
    ensures ret == FirstSellPrice(h, start)
  {
    ret := 0.0;
    var find := false;
    ghost var seen: seq<Trade> := [];
    var i := 0;
    while i < |h|
      invariant 0 <= i <= |h|
      invariant !find ==> seen == [] && Window(h, start) == Window(h[i..], start)
      invariant find ==> seen != [] && Window(h, start) == seen + Rest(h[i..], start)
      invariant ret == if seen == [] then 0.0 else seen[|seen|-1].price
    {
      assert h[i..][1..] == h[i+1..];
      if Counted(h[i], start) {
        find := true;
        assert seen + ([h[i]] + Rest(h[i+1..], start)) == (seen + [h[i]]) + Rest(h[i+1..], start);
        seen := seen + [h[i]];
        ret := h[i].price;
      }
      if h[i].side == Sell && find {
        break;
      }
      i := i + 1;
    }
    assert Window(h, start) == seen;
    ret := Floor8(ret);
  }

  // ----- What the window is

  /** The history opens with the buys of one cycle, all counted, and nothing older belongs to it. */
  predicate CleanCycle(h: seq<Trade>, start: Option<nat>, n: nat) {
    && 1 <= n <= |h|
    && (forall i | 0 <= i < n :: Counted(h[i], start))
    && (n < |h| ==> h[n].side.Sell?)
  }

  lemma {:induction false} RestOfBuys(h: seq<Trade>, start: Option<nat>, n: nat)
    requires n <= |h|
    requires forall i | 0 <= i < n :: Counted(h[i], start)
    requires n < |h| ==> h[n].side.Sell?
    ensures Rest(h, start) == h[..n]
  {
    if n > 0 {
      forall i | 0 <= i < n - 1 ensures Counted(h[1..][i], start) {
        assert h[1..][i] == h[i+1];
      }
      RestOfBuys(h[1..], start, n - 1);
      assert [h[0]] + h[1..][..n-1] == h[..n];
    }
  }

  /** Three scanners, one window: on a clean cycle the average sums all of it, the previous volume leaves out the
      newest buy, and the first price is that of the oldest buy. */
  lemma ThreeScannersOneWindow(h: seq<Trade>, start: Option<nat>, n: nat)
    requires CleanCycle(h, start, n)
    ensures Window(h, start) == h[..n]
    ensures AverageOf(h, start).ordersCount == n
    ensures AverageOf(h, start).volume == SumVolume(h[..n])
    ensures AverageOf(h, start).baseVolume == SumBase(h[..n])
    ensures AverageOf(h, start).fee == SumFee(h[..n])
    ensures PrevVolume(h) == Floor8(SumVolume(h[1..n]))
    ensures FirstSellPrice(h, start) == Floor8(h[n-1].price)
  {
    RestOfBuys(h, start, n);
    forall i | 0 <= i < n - 1 ensures Counted(h[1..][i], None) {
      assert h[1..][i] == h[i+1] && Counted(h[i+1], start);
    }
    RestOfBuys(h[1..], None, n - 1);
    assert h[1..][..n-1] == h[1..n];
  }

  lemma {:induction false} SumPriceBounds(w: seq<Trade>, low: real, high: real)
    requires forall i | 0 <= i < |w| :: low <= w[i].price <= high
    ensures |w| as real * low <= SumPrice(w) <= |w| as real * high
  {
    if w != [] {
      SumPriceBounds(w[..|w|-1], low, high);
    }
  }

  /** The average price of a cycle lies between its lowest and its highest purchase, up to the last of eight decimals. */
  lemma AveragePriceBetween(h: seq<Trade>, start: Option<nat>, low: real, high: real)
    requires Window(h, start) != []
    requires forall t | t in Window(h, start) :: low <= t.price <= high
    ensures low - 0.00000001 < AverageOf(h, start).price <= high
  {
    hide Window, SumPrice;
    var w := Window(h, start);
    SumPriceBounds(w, low, high);
    MeanBetween(SumPrice(w), |w| as real, low, high);
  }

  lemma MeanBetween(sum: real, n: real, low: real, high: real)
    requires n > 0.0 && n * low <= sum <= n * high
    ensures low <= sum / n <= high
  {}

  /** How many trades there are before the next sell. */
  function UntilSell(h: seq<Trade>): (n: nat)
    ensures n <= |h|
    ensures forall i | 0 <= i < n :: h[i].side.Buy?
    ensures n < |h| ==> h[n].side.Sell?
  {
    if h == [] || h[0].side.Sell? then 0 else 1 + UntilSell(h[1..])
  }

  ghost predicate PositiveVolumes(h: seq<Trade>) {
    forall i | 0 <= i < |h| :: h[i].volume > 0.0
  }

  ghost predicate PositiveBuys(h: seq<Trade>) {
    forall i | 0 <= i < |h| :: h[i].side.Buy? ==> h[i].volume > 0.0
  }

  lemma {:induction false} SumVolumeAppend(a: seq<Trade>, b: seq<Trade>)
    ensures SumVolume(a + b) == SumVolume(a) + SumVolume(b)
    ensures SumBase(a + b) == SumBase(a) + SumBase(b)
    ensures SumFee(a + b) == SumFee(a) + SumFee(b)
    decreases |b|
  {
    if b == [] {
      assert a + b == a;
    } else {
      SumVolumeAppend(a, b[..|b|-1]);
      assert (a + b)[..|a+b|-1] == a + b[..|b|-1];
    }
  }

  /** The volume of the buys before the next sell that the cycle start leaves out. */
  function Uncounted(h: seq<Trade>, start: Option<nat>): real {
    if h == [] || h[0].side.Sell? then 0.0
    else (if Counted(h[0], start) then 0.0 else h[0].volume) + Uncounted(h[1..], start)
  }

  lemma SumVolumeCons(t: Trade, w: seq<Trade>)
    ensures SumVolume([t] + w) == t.volume + SumVolume(w)
  {
    SumVolumeAppend([t], w);
    assert [t][..0] == [];
    assert SumVolume([t]) == t.volume;
  }

  lemma {:induction false} RestSplits(h: seq<Trade>, start: Option<nat>)
    ensures SumVolume(Rest(h, None)) == SumVolume(Rest(h, start)) + Uncounted(h, start)
  {
    if h != [] && h[0].side.Buy? {
      RestSplits(h[1..], start);
      SumVolumeCons(h[0], Rest(h[1..], None));
      SumVolumeCons(h[0], Rest(h[1..], start));
      assert [] + Rest(h[1..], start) == Rest(h[1..], start);
    }
  }

  lemma {:induction false} UncountedZeroIff(h: seq<Trade>, start: Option<nat>)
    requires PositiveBuys(h)
    ensures Uncounted(h, start) >= 0.0
    ensures Uncounted(h, start) == 0.0 <==> forall i | 0 <= i < UntilSell(h) :: Counted(h[i], start)
  {
    if h != [] && h[0].side.Buy? {
      var t := h[1..];
      assert forall i | 0 <= i < |t| :: t[i] == h[i+1];
      UncountedZeroIff(t, start);
      if forall i | 0 <= i < UntilSell(h) :: Counted(h[i], start) {
        assert forall i | 0 <= i < UntilSell(t) :: Counted(t[i], start);
      } else if Counted(h[0], start) {
        var i :| 0 <= i < UntilSell(h) && !Counted(h[i], start);
        assert !Counted(t[i-1], start);
      }
    }
  }

  /** When the newest trade is a counted buy, the scan sums the cycle without its newest buy, and on top of it every
      buy since the last sell that predates the cycle. */
  lemma PrevSumIsCyclePlusUncounted(h: seq<Trade>, start: Option<nat>)
    requires h != [] && Counted(h[0], start)
    ensures |Window(h, start)| >= 1
    ensures PrevSum(h) == SumVolume(Window(h, start)[1..]) + Uncounted(h[1..], start)
  {
    RestSplits(h[1..], start);
    assert Window(h, start) == [h[0]] + Rest(h[1..], start);
  }

  /** So it reads exactly the cycle if and only if no buy behind the newest, up to the next sell, predates the cycle
      start. Otherwise it reads more, and a completed purchase is judged against too large a volume. */
  lemma PrevVolumeReadsCycleIff(h: seq<Trade>, start: Option<nat>)
    requires h != [] && Counted(h[0], start) && PositiveBuys(h)
    ensures |Window(h, start)| >= 1
    ensures PrevSum(h) >= SumVolume(Window(h, start)[1..])
    ensures PrevSum(h) == SumVolume(Window(h, start)[1..]) <==>
            forall i | 0 <= i < UntilSell(h[1..]) :: Counted(h[1..][i], start)
  {
    PrevSumIsCyclePlusUncounted(h, start);
    assert forall i | 0 <= i < |h| - 1 :: h[1..][i] == h[i+1];
    UncountedZeroIff(h[1..], start);
  }

  // ----- How one more trade changes the window

  lemma WindowAfterBuy(h: seq<Trade>, start: Option<nat>, b: Trade)
    requires Counted(b, start)
    ensures h != [] && Counted(h[0], start) ==> Window([b] + h, start) == [b] + Window(h, start)
    ensures h == [] || h[0].side.Sell? ==> Window([b] + h, start) == [b]
  {
    assert ([b] + h)[1..] == h;
    assert Rest([b] + h, start) == [b] + Rest(h, start);
    assert h == [] || h[0].side.Sell? ==> [b] + Rest(h, start) == [b];
  }

  lemma WindowAfterSell(h: seq<Trade>, start: Option<nat>, s: Trade)
    requires s.side.Sell?
    ensures Window([s] + h, start) == Window(h, start)
  {
    assert ([s] + h)[1..] == h;
  }

  lemma {:induction false} NothingCounted(h: seq<Trade>, start: Option<nat>)
    requires forall i | 0 <= i < |h| :: !Counted(h[i], start)
    ensures Rest(h, start) == [] && Window(h, start) == []
  {
    if h != [] {
      forall i | 0 <= i < |h| - 1 ensures !Counted(h[1..][i], start) {
        assert h[1..][i] == h[i+1];
      }
      NothingCounted(h[1..], start);
    }
  }

  lemma {:induction false} PositiveWindow(h: seq<Trade>, start: Option<nat>)
    requires PositiveBuys(h)
    ensures PositiveVolumes(Rest(h, start)) && PositiveVolumes(Window(h, start))
  {
    if h != [] {
      assert forall i | 0 <= i < |h[1..]| :: h[1..][i] == h[i+1];
      PositiveWindow(h[1..], start);
    }
  }

  lemma {:induction false} PositiveSum(w: seq<Trade>)
    requires PositiveVolumes(w)
    ensures SumVolume(w) >= 0.0
    ensures w != [] ==> SumVolume(w) > 0.0
  {
    if w != [] {
      assert forall i | 0 <= i < |w| - 1 :: w[..|w|-1][i] == w[i];
      PositiveSum(w[..|w|-1]);
    }
  }
}
