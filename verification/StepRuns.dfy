/** Whole runs of the engine against an environment that may report anything at every tick. */
module StepRuns {
  import opened Exchange
  import opened Rounding
  import opened CycleScanners
  import opened StepMachine

  // ----- Runs

  /** The configuration after all ticks of a run. */
  function Run(meta: Meta, envs: seq<Env>): (r: Meta)
    ensures |r.table| == |meta.table| && r.maxSteps == meta.maxSteps
  {
    if envs == [] then meta else Tick(Run(meta, envs[..|envs|-1]), envs[|envs|-1])
  }

  /** The number of steps at the front of the table with both sides closed; the next one is the active step. */
  function Active(rows: seq<Row>): (k: nat)
    ensures k <= |rows|
    ensures forall i | 0 <= i < k :: rows[i].buyBlocked && rows[i].sellBlocked
    ensures k < |rows| ==> !(rows[k].buyBlocked && rows[k].sellBlocked)
  {
    if rows == [] || !(rows[0].buyBlocked && rows[0].sellBlocked) then 0 else 1 + Active(rows[1..])
  }

  /** What the user's table has to satisfy. */
  predicate GoodTable(rows: seq<Row>) {
    && |rows| > 2
    && (forall i | 1 <= i < |rows| :: 0.0 <= rows[i].growth < rows[i].step)
    && (forall i | 1 < i < |rows| :: rows[i-1].step < rows[i].step)
  }

  /** A pair as it is when trading starts, and again after every cycle. */
  predicate Fresh(meta: Meta) {
    && GoodTable(meta.table)
    && meta.execSteps == 0 && meta.cycleStart.None?
    && forall i | 0 <= i < |meta.table| :: !meta.table[i].buyBlocked && !meta.table[i].sellBlocked
  }

  // ----- The invariant of every run

  /** A blocked prefix, one step that is open or only buy-blocked, and an untouched rest. */
  predicate Shape(rows: seq<Row>) {
    var k := Active(rows);
    && k < |rows|
    && !rows[k].sellBlocked
    && forall i | k < i < |rows| :: !rows[i].buyBlocked && !rows[i].sellBlocked
  }

  /** The bound on credited purchases. */
  function Cap(maxSteps: int): int {
    if maxSteps <= 0 then 1 else if maxSteps == 1 then 2 else maxSteps
  }

  /** The active step is one that buys: it is open and, below the zero step, there is still budget for a purchase. */
  predicate Buying(meta: Meta) {
    var k := Active(meta.table);
    k < |meta.table| && BuysNow(meta, k)
  }

  predicate Inv(meta: Meta) {
    var k := Active(meta.table);
    && GoodTable(meta.table)
    && meta.maxSteps >= 0
    && Shape(meta.table)
    && (meta.execSteps == 0 <==> k == 0 && !meta.table[0].buyBlocked)
    && (meta.execSteps == 0 <==> meta.cycleStart.None?)
    && (k >= 1 && !meta.table[k].buyBlocked ==> meta.execSteps == 1 || meta.execSteps < meta.maxSteps)
    && 0 <= meta.execSteps <= Cap(meta.maxSteps)
    && meta.execSteps <= (if meta.table[k].buyBlocked then k + 1 else k)
  }

  lemma {:induction false} ActiveIs(rows: seq<Row>, k: nat)
    requires k <= |rows|
    requires forall i | 0 <= i < k :: rows[i].buyBlocked && rows[i].sellBlocked
    requires k < |rows| ==> !(rows[k].buyBlocked && rows[k].sellBlocked)
    ensures Active(rows) == k
  {
    var a := Active(rows);
  }

  /** Each tick runs exactly one logic, that of the active step. */
  lemma {:induction false} PickIsActive(meta: Meta, from: nat)
    requires Inv(meta) && from <= Active(meta.table)
    ensures Pick(meta, from) == var k := Active(meta.table); if BuysNow(meta, k) then BuyAt(k) else SellAt(k)
    decreases Active(meta.table) - from
  {
    if from < Active(meta.table) {
      PickIsActive(meta, from + 1);
    }
  }

  lemma FreshInv(meta: Meta)
    requires Fresh(meta) && meta.maxSteps >= 0
    ensures Inv(meta) && Active(meta.table) == 0
  {
    ActiveIs(meta.table, 0);
  }

  /** What the flags and counters must be for an effect to occur at step `k`. */
  ghost predicate Enabled(meta: Meta, k: nat, f: Effect)
    requires k < |meta.table|
  {
    match f
    case CloseBuy(stamp) => BuysNow(meta, k) && (k == 0 <==> stamp.Some?)
    case Skip => BuysNow(meta, k) && k >= 1 && HasNext(meta, k)
    case CloseSell(_) => !BuysNow(meta, k) && HasNext(meta, k) && (k >= 1 ==> meta.execSteps < meta.maxSteps)
    case Unlock => !BuysNow(meta, k)
    case Cancel(_) => !BuysNow(meta, k)
    case Submit(side, _, _) => side.Buy? <==> BuysNow(meta, k)
    case Nothing => true
  }

  lemma DecidedWhenEnabled(meta: Meta, e: Env)
    requires Inv(meta)
    ensures var k, f := Active(meta.table), Decide(meta, e); Enabled(meta, k, f) && Tick(meta, e) == Apply(meta, k, f)
  {
    PickIsActive(meta, 0);
  }

  /** What a tick does to the active step, besides keeping the invariant: it stays, moves down by one, or the cycle
      ends and everything is as it was at the start. */
  lemma ApplyInv(meta: Meta, k: nat, f: Effect)
    requires Inv(meta) && k == Active(meta.table) && Enabled(meta, k, f)
    ensures var next := Apply(meta, k, f);
            && Inv(next)
            && (f.Unlock? ==> Fresh(next) && Active(next.table) == 0)
            && (f.Skip? || f.CloseSell? ==> Active(next.table) == k + 1 && !next.table[k+1].buyBlocked)
            && (!f.Unlock? && !f.Skip? && !f.CloseSell? ==> Active(next.table) == k)
  {
    if f.Unlock? {
      FreshInv(Apply(meta, k, f));
    } else if f.Skip? || f.CloseSell? {
      StepLeft(meta, k, f);
    } else {
      StepStays(meta, k, f);
    }
  }

  lemma StepLeft(meta: Meta, k: nat, f: Effect)
    requires Inv(meta) && k == Active(meta.table) && Enabled(meta, k, f) && (f.Skip? || f.CloseSell?)
    ensures var next := Apply(meta, k, f); Inv(next) && Active(next.table) == k + 1 && !next.table[k+1].buyBlocked
  {
    var next := Apply(meta, k, f);
    assert forall i | 0 <= i < |next.table| && i != k :: next.table[i] == meta.table[i];
    ActiveIs(next.table, k + 1);
  }

  lemma StepStays(meta: Meta, k: nat, f: Effect)
    requires Inv(meta) && k == Active(meta.table) && Enabled(meta, k, f)
    requires !f.Unlock? && !f.Skip? && !f.CloseSell?
    ensures var next := Apply(meta, k, f); Inv(next) && Active(next.table) == k
  {
    var next := Apply(meta, k, f);
    assert forall i | 0 <= i < |next.table| && i != k :: next.table[i] == meta.table[i];
    ActiveIs(next.table, k);
  }

  /** A completed buy leaves the active step selling; a skip leaves it buying. */
  lemma BuyingAfter(meta: Meta, k: nat, f: Effect)
    requires Inv(meta) && k == Active(meta.table) && Enabled(meta, k, f)
    ensures f.CloseBuy? ==> !Buying(Apply(meta, k, f))
    ensures f.Skip? ==> Buying(Apply(meta, k, f))
    ensures f.Nothing? || f.CloseBuy? || f.Skip? || f.Submit? || !Buying(meta)
    ensures f.CloseBuy? || f.Skip? ==> Buying(meta)
    ensures f.Unlock? || f.CloseBuy? || Apply(meta, k, f).execSteps == meta.execSteps
    ensures f.Unlock? || (f.CloseBuy? && f.stamp.Some?) || Apply(meta, k, f).cycleStart == meta.cycleStart
    ensures f.CloseBuy? ==> Apply(meta, k, f).execSteps == meta.execSteps + 1 && (f.stamp.Some? <==> meta.execSteps == 0)
    ensures f.CloseBuy? && f.stamp.Some? ==> Apply(meta, k, f).cycleStart == Some(Second(f.stamp.value))
    ensures f.Unlock? ==> Apply(meta, k, f).execSteps == 0
    ensures f.Unlock? || f.CloseSell? || f.Cancel? ==> meta.execSteps >= 1
  {
    ApplyInv(meta, k, f);
  }

  lemma {:induction false} TickInv(meta: Meta, e: Env)
    requires Inv(meta)
    ensures var k, f, next := Active(meta.table), Decide(meta, e), Tick(meta, e);
            && Inv(next)
            && (f.Unlock? ==> Fresh(next) && Active(next.table) == 0)
            && (f.Skip? || f.CloseSell? ==> Active(next.table) == k + 1 && !next.table[k+1].buyBlocked)
            && (!f.Unlock? && !f.Skip? && !f.CloseSell? ==> Active(next.table) == k)
  {
    DecidedWhenEnabled(meta, e);
    ApplyInv(meta, Active(meta.table), Decide(meta, e));
  }

  lemma {:induction false} RunInv(meta: Meta, envs: seq<Env>)
    requires Fresh(meta) && meta.maxSteps >= 0
    ensures Inv(Run(meta, envs))
  {
    if envs == [] {
      FreshInv(meta);
    } else {
      RunInv(meta, envs[..|envs|-1]);
      TickInv(Run(meta, envs[..|envs|-1]), envs[|envs|-1]);
    }
  }

  // ----- Main results

  /** Whatever the exchange reports: the flags always have the shape above, the last step is never closed for
      selling, and the number of credited purchases is bounded by the cap and by the rows passed. */
  lemma {:induction false} EveryRun(meta: Meta, envs: seq<Env>)
    requires Fresh(meta) && meta.maxSteps >= 0
    ensures var r := Run(meta, envs);
            && Shape(r.table)
            && !r.table[|r.table|-1].sellBlocked
            && 0 <= r.execSteps <= Cap(r.maxSteps)
            && r.execSteps <= |r.table|
  {
    RunInv(meta, envs);
  }

  /** An exchange state in which the zero step closes on a buy that has just filled. */
  function ZeroCloseEnv(): Env {
    var b := Trade(Buy, 2.0, 1.0, 2.0, 0.0, 5000);
    Env(Params(0.0, 1.0, 1.0, 0.0, 0.0, 1.0, 0.0), false, 0.0, Some(Balance(1.0, 1.0)), Some(Balance(1.0, 1.0)),
        Some(Quote(2.0, 1.0)), Some(Quote(1.0, 1.0)), [b], None, false)
  }

  /** The price fell far enough to close the zero step's selling. */
  function FallEnv(rows: seq<Row>): Env
    requires GoodTable(rows)
  {
    ZeroCloseEnv().(trend := -rows[1].step - 1.0, openSell := Some(OpenOrder(7, 1.0)))
  }

  /** The price is back and a second buy has filled. */
  function ReboundEnv(): Env {
    var b2 := Trade(Buy, 2.0, 1.0, 2.0, 0.0, 9000);
    ZeroCloseEnv().(currency := Some(Balance(2.0, 2.0)), history := [b2] + ZeroCloseEnv().history)
  }

  /** The configuration after each of these ticks. */
  function Closed(meta: Meta): Meta
    requires Fresh(meta)
  {
    Apply(meta, 0, CloseBuy(Some(5000)))
  }

  function Fallen(meta: Meta): Meta
    requires Fresh(meta)
  {
    Apply(Closed(meta), 0, CloseSell(7))
  }

  lemma RunOne(meta: Meta, envs: seq<Env>, e: Env, next: Meta)
    requires Tick(Run(meta, envs), e) == next
    ensures Run(meta, envs + [e]) == next
  {
    hide Tick;
    assert (envs + [e])[..|envs|] == envs;
  }

  lemma ZeroCloses(meta: Meta)
    requires Fresh(meta) && meta.maxSteps >= 0
    ensures Run(meta, [ZeroCloseEnv()]) == Closed(meta) && Closed(meta).execSteps == 1
  {
    assert Pick(meta, 0) == BuyAt(0);
    assert Decide(meta, ZeroCloseEnv()) == CloseBuy(Some(5000));
    RunOne(meta, [], ZeroCloseEnv(), Closed(meta));
    assert [] + [ZeroCloseEnv()] == [ZeroCloseEnv()];
  }

  lemma FallCloses(meta: Meta)
    requires Fresh(meta) && meta.maxSteps >= 1
    ensures Tick(Closed(meta), FallEnv(meta.table)) == Fallen(meta)
  {
    assert RoundTruncate(1.0, 1.0) <= 1.0;
    assert Pick(Closed(meta), 0) == SellAt(0);
    assert Decide(Closed(meta), FallEnv(meta.table)) == CloseSell(7);
  }

  lemma ReboundHistory()
    ensures var h := ReboundEnv().history;
            && AverageOf(h, Some(5000)).ordersCount == 2
            && PrevVolume(h) <= 1.0
  {
    var h := ReboundEnv().history;
    ThreeScannersOneWindow(h, Some(5000), 2);
    SumVolumeCons(h[1], []);
    assert h[1..2] == [h[1]] + [];
  }

  lemma ReboundBuys(meta: Meta)
    requires Fresh(meta) && meta.maxSteps == 1
    ensures Tick(Fallen(meta), ReboundEnv()).execSteps == 2
  {
    hide AverageOf, PrevVolume;
    var m2 := Fallen(meta);
    assert Second(5000) == 5000;
    assert m2.cycleStart == Some(5000) && m2.execSteps == 1;
    assert Pick(m2, 1) == BuyAt(1);
    assert Pick(m2, 0) == BuyAt(1);
    ReboundHistory();
    assert HasNext(m2, 1) && m2.table[2].step > 0.0;
    assert Decide(m2, ReboundEnv()) == CloseBuy(None);
  }

  lemma SecondPurchase(meta: Meta)
    requires Fresh(meta) && meta.maxSteps == 1
    ensures Run(meta, [ZeroCloseEnv(), FallEnv(meta.table), ReboundEnv()]).execSteps == 2
  {
    hide Tick;
    ZeroCloses(meta);
    FallCloses(meta);
    ReboundBuys(meta);
    var one := [ZeroCloseEnv()];
    RunOne(meta, one, FallEnv(meta.table), Fallen(meta));
    RunOne(meta, one + [FallEnv(meta.table)], ReboundEnv(), Tick(Fallen(meta), ReboundEnv()));
    assert one + [FallEnv(meta.table)] + [ReboundEnv()] == [ZeroCloseEnv(), FallEnv(meta.table), ReboundEnv()];
  }

  /** The configured maximum is respected on every run exactly when it is at least two. The scheduler compares with
      `<=` and the first fall is not checked at all, so a maximum of one still allows a second credited purchase. */
  lemma MaximumRespectedIff(meta: Meta)
    requires Fresh(meta)
    ensures (forall envs: seq<Env> :: Run(meta, envs).execSteps <= meta.maxSteps) <==> meta.maxSteps >= 2
  {
    hide Tick;
    if meta.maxSteps >= 2 {
      forall envs: seq<Env> ensures Run(meta, envs).execSteps <= meta.maxSteps {
        RunInv(meta, envs);
      }
    } else {
      var envs := Excess(meta);
      assert !(Run(meta, envs).execSteps <= meta.maxSteps);
    }
  }

  /** A run that goes over a maximum below two. */
  lemma Excess(meta: Meta) returns (envs: seq<Env>)
    requires Fresh(meta) && meta.maxSteps < 2
    ensures Run(meta, envs).execSteps > meta.maxSteps
  {
    hide Tick, Closed;
    if meta.maxSteps < 0 {
      envs := [];
    } else if meta.maxSteps == 0 {
      ZeroCloses(meta);
      envs := [ZeroCloseEnv()];
    } else {
      SecondPurchase(meta);
      envs := [ZeroCloseEnv(), FallEnv(meta.table), ReboundEnv()];
    }
  }

  /** The shape of the flags survives every run exactly when the configured maximum is not negative. */
  lemma ShapeKeptIff(meta: Meta)
    requires Fresh(meta)
    ensures (forall envs: seq<Env> :: Shape(Run(meta, envs).table)) <==> meta.maxSteps >= 0
  {
    hide Tick, Shape;
    if meta.maxSteps >= 0 {
      forall envs: seq<Env> ensures Shape(Run(meta, envs).table) {
        RunInv(meta, envs);
        InvShape(Run(meta, envs));
      }
    } else {
      BadShape(meta);
      assert !Shape(Run(meta, [FallEnv(meta.table)]).table);
    }
  }

  lemma InvShape(meta: Meta)
    requires Inv(meta)
    ensures Shape(meta.table)
  {}

  /** Below zero the zero step sells before it ever bought, and a fall closes its selling side alone. */
  lemma BadShape(meta: Meta)
    requires Fresh(meta) && meta.maxSteps < 0
    ensures !Shape(Run(meta, [FallEnv(meta.table)]).table)
  {
    var e := FallEnv(meta.table);
    assert Pick(meta, 0) == SellAt(0);
    assert RoundTruncate(1.0, 1.0) <= 1.0;
    assert Decide(meta, e) == CloseSell(7);
    var next := Apply(meta, 0, CloseSell(7));
    RunOne(meta, [], e, next);
    assert [] + [e] == [e];
    ActiveIs(next.table, 0);
  }

  /** A purchase below the zero step was preceded, in the same cycle, by a fall beyond its rebound line: some
      earlier tick entered this very step with the trend below it, and the step has been active ever since. */
  ghost predicate EnteredByFall(meta: Meta, envs: seq<Env>, i: nat, k: nat, j: nat)
    requires k < |meta.table| && i <= |envs|
  {
    && j < i
    && envs[j].trend < -meta.table[k].growth
    && ActiveAt(meta, envs, j) + 1 == k
    && forall t | j < t <= i :: ActiveAt(meta, envs, t) == k
  }

  lemma {:induction false} RowsFixed(meta: Meta, envs: seq<Env>, k: nat)
    requires k < |meta.table|
    ensures Run(meta, envs).table[k].growth == meta.table[k].growth
    ensures Run(meta, envs).table[k].step == meta.table[k].step
  {
    hide Decide;
    if envs != [] {
      RowsFixed(meta, envs[..|envs|-1], k);
    }
  }

  /** All three ways into a step (the zero step or a later one closes its sale, or a step is skipped) need the trend
      below the rebound line of the step entered. */
  lemma Moves(meta: Meta, e: Env)
    requires Inv(meta)
    ensures var k, n := Active(meta.table), Active(Tick(meta, e).table);
            || n == 0 || n == k
            || (n == k + 1 && HasNext(meta, k) && e.trend < -meta.table[n].growth)
  {
    hide Decide, Tick, Inv;
    TickInv(meta, e);
    EntryTrend(meta, e);
  }

  lemma EntryTrend(meta: Meta, e: Env)
    requires Inv(meta)
    ensures var k, f := Active(meta.table), Decide(meta, e);
            f.Skip? || f.CloseSell? ==> HasNext(meta, k) && e.trend < -meta.table[k+1].growth
  {
    PickIsActive(meta, 0);
    var k := Active(meta.table);
    assert HasNext(meta, k) ==> meta.table[k+1].growth < meta.table[k+1].step;
  }

  /** The active step before tick `t` of a run. */
  function ActiveAt(meta: Meta, envs: seq<Env>, t: nat): (k: nat)
    requires t <= |envs|
    ensures k <= |meta.table|
  {
    Active(Run(meta, envs[..t]).table)
  }

  lemma RunMoves(meta: Meta, envs: seq<Env>, t: nat)
    requires Fresh(meta) && meta.maxSteps >= 0 && t < |envs|
    ensures var k, n := ActiveAt(meta, envs, t), ActiveAt(meta, envs, t + 1);
            || n == 0 || n == k
            || (n == k + 1 && n < |meta.table| && envs[t].trend < -meta.table[n].growth)
  {
    hide Tick, Inv;
    RunInv(meta, envs[..t]);
    var before := Run(meta, envs[..t]);
    Moves(before, envs[t]);
    assert envs[..t+1][..t] == envs[..t];
    var n := Active(before.table) + 1;
    if n < |meta.table| {
      RowsFixed(meta, envs[..t], n);
    }
  }

  /** A counter that only resets, stays or steps by one last reached its positive value by a step. */
  lemma {:induction false} LastStep(a: seq<nat>) returns (j: nat)
    requires a != [] && a[0] == 0 && a[|a|-1] > 0
    requires forall t | 0 <= t < |a| - 1 :: a[t+1] == 0 || a[t+1] == a[t] || a[t+1] == a[t] + 1
    ensures j < |a| - 1 && a[j] + 1 == a[|a|-1] && forall t | j < t < |a| :: a[t] == a[|a|-1]
  {
    var n := |a| - 1;
    assert a[n] == 0 || a[n] == a[n-1] || a[n] == a[n-1] + 1;
    if a[n-1] == a[n] {
      j := LastStep(a[..n]);
    } else {
      j := n - 1;
    }
  }

  lemma StepEntered(meta: Meta, envs: seq<Env>, i: nat) returns (j: nat)
    requires Fresh(meta) && meta.maxSteps >= 0 && i <= |envs|
    requires ActiveAt(meta, envs, i) >= 1
    ensures ActiveAt(meta, envs, i) < |meta.table|
    ensures EnteredByFall(meta, envs, i, ActiveAt(meta, envs, i), j)
  {
    var a := seq(i + 1, t requires 0 <= t <= i => ActiveAt(meta, envs, t));
    forall t | 0 <= t < i
      ensures a[t+1] == 0 || a[t+1] == a[t] || a[t+1] == a[t] + 1
    {
      RunMoves(meta, envs, t);
    }
    assert a[0] == 0 by {
      FreshInv(meta);
    }
    j := LastStep(a);
    RunMoves(meta, envs, j);
    forall t | j < t <= i
      ensures ActiveAt(meta, envs, t) == ActiveAt(meta, envs, i)
    {
      assert a[t] == a[i];
    }
  }

  /** Rebound discipline, on every run and at every step below the first. */
  lemma {:induction false} ReboundDiscipline(meta: Meta, envs: seq<Env>, i: nat) returns (k: nat, j: nat)
    requires Fresh(meta) && meta.maxSteps >= 0 && i < |envs|
    requires Decide(Run(meta, envs[..i]), envs[i]).Submit? && Decide(Run(meta, envs[..i]), envs[i]).side.Buy?
    requires Run(meta, envs[..i]).execSteps > 0
    ensures k == Active(Run(meta, envs[..i]).table) && 1 <= k < |meta.table|
    ensures envs[i].trend >= -meta.table[k].growth
    ensures k + 1 < |meta.table| ==> envs[i].trend > -meta.table[k+1].step
    ensures EnteredByFall(meta, envs, i, k, j)
  {
    var s := Run(meta, envs[..i]);
    RunInv(meta, envs[..i]);
    PickIsActive(s, 0);
    k := Active(s.table);
    j := StepEntered(meta, envs, i);
    RowsFixed(meta, envs[..i], k);
    if k + 1 < |meta.table| {
      RowsFixed(meta, envs[..i], k + 1);
    }
  }

  // ----- Progress

  function Open(r: Row): nat { (if r.buyBlocked then 0 else 1) + (if r.sellBlocked then 0 else 1) }

  /** The sides still open along the table. */
  function OpenFlags(rows: seq<Row>): (n: nat)
    ensures n <= 2 * |rows|
  {
    if rows == [] then 0 else OpenFlags(rows[..|rows|-1]) + Open(rows[|rows|-1])
  }

  lemma {:induction false} OpenFlagsUpdate(rows: seq<Row>, k: nat, r: Row)
    requires k < |rows|
    ensures OpenFlags(rows[k := r]) == OpenFlags(rows) - Open(rows[k]) + Open(r)
  {
    var n := |rows| - 1;
    if k == n {
      assert rows[k := r][..n] == rows[..n];
    } else {
      OpenFlagsUpdate(rows[..n], k, r);
      assert rows[k := r][..n] == rows[..n][k := r];
    }
  }

  /** A tick either leaves the table alone, or closes sides, or ends the cycle. */
  lemma TickLowers(meta: Meta, e: Env)
    ensures var next := Tick(meta, e);
            || Decide(meta, e).Unlock?
            || next.table == meta.table
            || OpenFlags(next.table) < OpenFlags(meta.table)
  {
    var c, f := Pick(meta, 0), Decide(meta, e);
    if !c.NoStep? {
      PickOpen(meta, 0);
      var r := meta.table[c.k];
      match f
      case CloseBuy(_) => OpenFlagsUpdate(meta.table, c.k, r.(buyBlocked := true));
      case CloseSell(_) => OpenFlagsUpdate(meta.table, c.k, r.(sellBlocked := true));
      case Skip => OpenFlagsUpdate(meta.table, c.k, r.(buyBlocked := true, sellBlocked := true));
      case _ =>
    }
  }

  lemma {:induction false} PickOpen(meta: Meta, k: nat)
    requires k <= |meta.table|
    ensures match Pick(meta, k)
            case BuyAt(j) => !meta.table[j].buyBlocked
            case SellAt(j) => !meta.table[j].sellBlocked
            case NoStep => true
    decreases |meta.table| - k
  {
    if k < |meta.table| && !BuysNow(meta, k) && meta.table[k].sellBlocked {
      PickOpen(meta, k + 1);
    }
  }

  /** No cycle ends during these ticks. */
  predicate OneCycle(meta: Meta, envs: seq<Env>) {
    envs == [] || var n := |envs| - 1; OneCycle(meta, envs[..n]) && !Decide(Run(meta, envs[..n]), envs[n]).Unlock?
  }

  function Changes(meta: Meta, envs: seq<Env>): nat {
    if envs == [] then 0
    else
      var n := |envs| - 1;
      Changes(meta, envs[..n]) + if Run(meta, envs).table != Run(meta, envs[..n]).table then 1 else 0
  }

  lemma {:induction false} ChangesLower(meta: Meta, envs: seq<Env>)
    requires OneCycle(meta, envs)
    ensures Changes(meta, envs) + OpenFlags(Run(meta, envs).table) <= OpenFlags(meta.table)
  {
    if envs != [] {
      var n := |envs| - 1;
      ChangesLower(meta, envs[..n]);
      TickLowers(Run(meta, envs[..n]), envs[n]);
    }
  }

  /** Between two unlocks the engine only moves down the table, and at most two ticks per row change anything; the
      last row's selling side is never closed. */
  lemma {:induction false} ForwardOnly(meta: Meta, envs: seq<Env>, i: nat)
    requires Fresh(meta) && meta.maxSteps >= 0 && OneCycle(meta, envs) && i <= |envs|
    ensures Active(Run(meta, envs[..i]).table) <= Active(Run(meta, envs).table)
    ensures Changes(meta, envs) <= 2 * |meta.table| - 1
  {
    RunInv(meta, envs);
    ChangesLower(meta, envs);
    var rows := Run(meta, envs).table;
    assert Open(rows[|rows|-1]) >= 1;
    ActiveNeverFalls(meta, envs, i);
  }

  lemma {:induction false} ActiveNeverFalls(meta: Meta, envs: seq<Env>, i: nat)
    requires Fresh(meta) && meta.maxSteps >= 0 && OneCycle(meta, envs) && i <= |envs|
    ensures Active(Run(meta, envs[..i]).table) <= Active(Run(meta, envs).table)
  {
    var n := |envs|;
    if i == n {
      assert envs[..n] == envs;
    } else {
      ActiveNeverFalls(meta, envs[..n-1], i);
      assert envs[..n-1][..i] == envs[..i];
      RunInv(meta, envs[..n-1]);
      TickInv(Run(meta, envs[..n-1]), envs[n-1]);
    }
  }

  /** The end of a cycle restores exactly the start: same drops and rebounds, every side open, nothing counted. */
  lemma UnlockRestoresStart(meta: Meta, envs: seq<Env>, e: Env)
    requires Fresh(meta) && meta.maxSteps >= 0
    requires Decide(Run(meta, envs), e).Unlock?
    ensures Tick(Run(meta, envs), e) == meta
  {
    hide Decide;
    RunInv(meta, envs);
    var s, t := Run(meta, envs), Tick(Run(meta, envs), e);
    PickIsActive(s, 0);
    assert t == Unlocked(s);
    forall k | 0 <= k < |meta.table| ensures t.table[k] == meta.table[k] {
      RowsFixed(meta, envs, k);
    }
    assert t.table == meta.table;
  }

  // ----- When a sold cycle ends

  /** With nothing left to sell and no sell order open, the engine ends the cycle if and only if the active step is not
      one that buys. */
  lemma EmptyUnlocksIff(meta: Meta, e: Env)
    requires Inv(meta)
    requires e.openSell.None? && e.history != [] && e.currency.Some? && e.m.lot > e.currency.value.total
    ensures Decide(meta, e).Unlock? <==> !Buying(meta)
  {
    PickIsActive(meta, 0);
  }

  /** The balance, when it is reported, is empty. */
  predicate EmptyHanded(e: Env) {
    e.currency.Some? ==> e.currency.value.total == 0.0
  }

  lemma EmptyHandedTick(meta: Meta, e: Env)
    requires Inv(meta) && Buying(meta) && meta.execSteps >= 1 && EmptyHanded(e)
    ensures Decide(meta, e).Nothing? || Decide(meta, e).Skip?
    ensures e.trend == 0.0 ==> Decide(meta, e).Nothing?
  {
    PickIsActive(meta, 0);
    var k := Active(meta.table);
    assert HasNext(meta, k) ==> meta.table[k+1].step > 0.0;
  }

  /** A sale that lands while the active step is one that buys strands the engine: as long as nothing is held, and
      whatever the trend, it can only skip further down the table. The cycle never ends, nothing is counted, and it
      stays at a step that buys. */
  lemma {:induction false} StrandedForever(meta: Meta, envs: seq<Env>)
    requires Inv(meta) && Buying(meta) && meta.execSteps >= 1
    requires forall e | e in envs :: EmptyHanded(e)
    ensures OneCycle(meta, envs)
    ensures var r := Run(meta, envs);
            Inv(r) && Buying(r) && r.execSteps == meta.execSteps && r.cycleStart == meta.cycleStart
  {
    hide Decide, Inv, Buying;
    if envs != [] {
      var before, e := Run(meta, envs[..|envs|-1]), envs[|envs|-1];
      StrandedForever(meta, envs[..|envs|-1]);
      EmptyHandedTick(before, e);
      DecidedWhenEnabled(before, e);
      ApplyInv(before, Active(before.table), Decide(before, e));
      BuyingAfter(before, Active(before.table), Decide(before, e));
    }
  }

  /** With the trend at zero, where a sale puts it, not even a step is skipped. */
  lemma {:induction false} StrandedStill(meta: Meta, envs: seq<Env>)
    requires Inv(meta) && Buying(meta) && meta.execSteps >= 1
    requires forall e | e in envs :: EmptyHanded(e) && e.trend == 0.0
    ensures Run(meta, envs) == meta
  {
    hide Decide;
    if envs != [] {
      StrandedStill(meta, envs[..|envs|-1]);
      EmptyHandedTick(meta, envs[|envs|-1]);
    }
  }
}
