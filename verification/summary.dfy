/** The analytics of summation/summary.py: the derived series a `Summary`
    computes from a finished backtest, the annualisation factor, the yearly
    return, and the maximum drawdown over the whole run and per year. */
module Analytics {
  import opened Outcomes
  import opened Numeric
  import opened Ledger
  import opened Rebalance
  import opened Drawdowns
  import opened Lossless

  const MinutesPerDay: int := 1440

  /** Trading days in a year, for daily or coarser data. */
  const TradingDays: real := 252.0

  /** The factor the source uses below daily frequency. */
  const IntradayDays: real := 42.0

  /** A `Summary`: the ledger series without their seed row, the derived
      series, the frequency in days and the annualisation factor `_T`. */
  datatype Summary = Summary(
    stamps: seq<Stamp>,
    n: nat,
    totalCapital: seq<real>,
    cash: seq<real>,
    balance: seq<seq<real>>,
    share: seq<seq<int>>,
    position: seq<seq<Num>>,
    pnl: seq<seq<real>>,
    sumPnl: seq<real>,
    sumPct: seq<Num>,
    netValue: seq<Num>,
    frequency: int,
    periodsPerYear: real)

  /** `(b - a).days`: the whole days between two labels, rounded down as
      `Timedelta.days` rounds. */
  function DaysBetween(a: Stamp, b: Stamp): (r: int)
    ensures r * MinutesPerDay <= b.minute - a.minute < (r + 1) * MinutesPerDay
  {
    (b.minute - a.minute) / MinutesPerDay
  }

  /** The data frequency in days: the index's own frequency when pandas
      knows one, otherwise the gap between its first two labels, which
      raises IndexError on an index with fewer than two labels. */
  function Frequency(ti: TimeIndex): (r: Result<int>)
    ensures r.Err? <==> ti.freqDays.None? && |ti.stamps| < 2
    ensures r.Err? ==> r.error == IndexOutOfRange
    ensures ti.freqDays.Some? ==> r == Ok(ti.freqDays.value)
    ensures r.Ok? && ti.freqDays.None? ==> r.value == DaysBetween(ti.stamps[0], ti.stamps[1])
  {
    match ti.freqDays
    case Some(d) => Ok(d)
    case None =>
      if |ti.stamps| < 2 then Err(IndexOutOfRange)
      else Ok(DaysBetween(ti.stamps[0], ti.stamps[1]))
  }

  /** `_T`, the number of periods in a year: 252 trading days over the
      frequency from daily upwards, otherwise 42 over the frequency. A
      frequency of 0 days divides by zero; only positive frequencies give a
      positive factor. */
  function AnnualFactor(f: int): (r: Result<real>)
    ensures r.Err? <==> f == 0
    ensures r.Err? ==> r.error == ZeroDivision
    ensures r.Ok? ==> (r.value > 0.0 <==> f > 0)
    ensures f >= 1 ==> r.value * f as real == TradingDays
    ensures f < 0 ==> r.value * f as real == IntradayDays
  {
    if f >= 1 then Ok(TradingDays / f as real)
    else if f == 0 then Err(ZeroDivision)
    else Ok(IntradayDays / f as real)
  }

  /** `part` is `full[1:]`: the series without its first (seed) entry,
      empty when `full` is. */
  predicate Dropped<T(==)>(full: seq<T>, part: seq<T>)
  {
    && |part| == (if |full| == 0 then 0 else |full| - 1)
    && forall i :: 0 <= i < |part| ==> part[i] == full[i + 1]
  }

  /** Python's `xs[1:]`. */
  function DropFirst<T(==)>(xs: seq<T>): (r: seq<T>)
    ensures Dropped(xs, r)
  {
    if |xs| == 0 then [] else xs[1..]
  }

  /** Every series of the summary is the ledger's series without its seed step. */
  predicate DropsSeed(w: Series, s: Summary)
  {
    && Dropped(w.totalCapital, s.totalCapital) && Dropped(w.cash, s.cash)
    && Dropped(w.balance, s.balance) && Dropped(w.share, s.share)
    && Dropped(w.position, s.position) && Dropped(w.pnl, s.pnl)
  }

  /** The series a summary can be built from: N-wide rows with one P&L row
      per total capital entry. Every completed step leaves such a window, and
      so does a rebalance that raised OverflowError after marking to market
      (`RaisedTradeSummarisable`); the cash, share and position series may be
      one step shorter, since the summary only slices them. */
  predicate Summarisable(w: Series, n: nat)
  {
    n > 0 && WellFormed(w, n) && |w.pnl| == Steps(w)
  }

  /** A rebalance that raised after marking to market leaves a window that
      can still be summarised, though its cash, share and position series
      are one step short. */
  lemma RaisedTradeSummarisable(w: Series, n: nat, initialCapital: real, to: seq<real>, price: seq<real>)
    requires n > 0 && Aligned(w, n) && Examine(n, to, price).None?
    requires Trade(w, n, initialCapital, to, price).Raised?
    ensures var r := Trade(w, n, initialCapital, to, price).value;
      && Summarisable(r, n) && !Aligned(r, n)
      && Steps(r) == Steps(w) + 1 && |r.cash| == |r.share| == |r.position| == Steps(w)
  {
  }

  /** The derived series: `sum_pnl` is the row sum of `pnl`, `sum_pct` that
      sum over the step's total capital, and `netValue` the total capital
      over the first one. */
  predicate Derived(s: Summary)
  {
    && |s.totalCapital| > 0
    && |s.pnl| == |s.totalCapital| && |s.sumPnl| == |s.totalCapital|
    && |s.sumPct| == |s.totalCapital| && |s.netValue| == |s.totalCapital|
    && forall i :: 0 <= i < |s.totalCapital| ==>
         && s.sumPnl[i] == SumR(s.pnl[i])
         && s.sumPct[i] == Divide(s.sumPnl[i], s.totalCapital[i])
         && s.netValue[i] == Divide(s.totalCapital[i], s.totalCapital[0])
  }

  /** `Summary.__init__` on the active series of a backtest (its `info`).
      Dropping the seed leaves nothing for a backtest that never stepped,
      and `totalCapital[0]` raises IndexError; then a missing time index
      fails, then an index too short to give a frequency, then a frequency
      of 0 days. */
  function MakeSummary(l: Ledger): (r: Result<Summary>)
    requires Summarisable(l.window, l.cfg.n)
    ensures Steps(l.window) == 1 ==> r == Err(IndexOutOfRange)
    ensures Steps(l.window) > 1 && l.cfg.timeIndex.None? ==> r == Err(MissingTimeIndex)
    ensures l.cfg.timeIndex.Some? && Frequency(l.cfg.timeIndex.value).Err? && Steps(l.window) > 1
            ==> r == Err(IndexOutOfRange)
    ensures l.cfg.timeIndex.Some? && Frequency(l.cfg.timeIndex.value) == Ok(0) && Steps(l.window) > 1
            ==> r == Err(ZeroDivision)
    ensures r.Ok? <==> Steps(l.window) > 1 && l.cfg.timeIndex.Some?
                       && Frequency(l.cfg.timeIndex.value).Ok?
                       && Frequency(l.cfg.timeIndex.value).value != 0
    ensures r.Ok? ==> r.value.n == l.cfg.n && DropsSeed(l.window, r.value) && Derived(r.value)
    ensures r.Ok? ==> r.value.stamps == l.cfg.timeIndex.value.stamps
                      && Ok(r.value.frequency) == Frequency(l.cfg.timeIndex.value)
                      && Ok(r.value.periodsPerYear) == AnnualFactor(r.value.frequency)
  {
    var w := l.window;
    if Steps(w) == 1 then Err(IndexOutOfRange)
    else
      var tc := DropFirst(w.totalCapital);
      var pnl := DropFirst(w.pnl);
      var sumPnl := seq(|pnl|, i requires 0 <= i < |pnl| => SumR(pnl[i]));
      var sumPct := DivideEach(sumPnl, tc);
      var netValue := DivideAll(tc, tc[0]);
      match l.cfg.timeIndex
      case None => Err(MissingTimeIndex)
      case Some(ti) =>
        match Frequency(ti)
        case Err(e) => Err(e)
        case Ok(f) =>
          match AnnualFactor(f)
          case Err(e) => Err(e)
          case Ok(t) =>
            Ok(Summary(ti.stamps, l.cfg.n, tc, DropFirst(w.cash), DropFirst(w.balance),
                       DropFirst(w.share), DropFirst(w.position), pnl, sumPnl, sumPct, netValue, f, t))
  }

  /** A summary over data sampled more often than daily, on an index
      without a declared frequency, divides by zero: the gap between the
      first two labels is 0 whole days. */
  lemma IntradayIndexRaises(l: Ledger)
    requires Summarisable(l.window, l.cfg.n) && Steps(l.window) > 1
    requires l.cfg.timeIndex.Some? && l.cfg.timeIndex.value.freqDays.None?
    requires |l.cfg.timeIndex.value.stamps| >= 2
    requires var st := l.cfg.timeIndex.value.stamps;
             0 <= st[1].minute - st[0].minute < MinutesPerDay
    ensures MakeSummary(l) == Err(ZeroDivision)
  {
    var st := l.cfg.timeIndex.value.stamps;
    assert DaysBetween(st[0], st[1]) == 0;
  }

  /** The net value starts at 1 exactly when the first total capital is not
      0, and then every net value is its total capital relative to the
      first; from a zero start every net value is NaN or infinite. */
  lemma NetValueStartsAtOne(s: Summary)
    requires Derived(s)
    ensures s.netValue[0] == Val(1.0) <==> s.totalCapital[0] != 0.0
    ensures s.totalCapital[0] != 0.0 ==>
              forall i :: 0 <= i < |s.netValue| ==>
                s.netValue[i].Val? && s.netValue[i].v * s.totalCapital[0] == s.totalCapital[i]
    ensures s.totalCapital[0] == 0.0 ==> forall i :: 0 <= i < |s.netValue| ==> !s.netValue[i].Val?
  {
    var c := s.totalCapital[0];
    if c != 0.0 {
      assert c / c == 1.0;
    }
  }

  /** `sum_pct` is the step's profit as a fraction of its total capital. */
  lemma SumPctIsStepReturn(s: Summary, i: nat)
    requires Derived(s) && i < |s.totalCapital|
    ensures s.totalCapital[i] != 0.0 ==>
              s.sumPct[i].Val? && s.sumPct[i].v * s.totalCapital[i] == SumR(s.pnl[i])
    ensures s.totalCapital[i] == 0.0 ==> !s.sumPct[i].Val?
  {
  }

  /** On booked series the profits of the summary's steps add up to the
      change in total capital since the seed step. */
  lemma TotalPnlTelescopes(l: Ledger)
    requires l.cfg.n > 0 && Booked(l.window, l.cfg.n) && MakeSummary(l).Ok?
    ensures SumR(MakeSummary(l).value.sumPnl)
            == Last(l.window.totalCapital) - l.window.totalCapital[0]
  {
    var w := l.window;
    var s := MakeSummary(l).value;
    PnlPrefix(w, l.cfg.n, s, |s.sumPnl|);
    assert s.sumPnl[..|s.sumPnl|] == s.sumPnl;
  }

  lemma {:induction false} PnlPrefix(w: Series, n: nat, s: Summary, k: nat)
    requires Booked(w, n) && s.n == n && DropsSeed(w, s) && Derived(s)
    requires k <= |s.sumPnl|
    ensures SumR(s.sumPnl[..k]) == w.totalCapital[k] - w.totalCapital[0]
    decreases k
  {
    if k > 0 {
      PnlPrefix(w, n, s, k - 1);
      assert s.sumPnl[..k][..k - 1] == s.sumPnl[..k - 1];
      assert s.sumPnl[k - 1] == SumR(w.pnl[k]);
    }
  }

  /** For a run that went through its whole time index, the summed profit
      of the summary is its final total capital less the starting capital,
      with or without batching. */
  lemma FinishedRunTotalPnl(capital: real, n: nat, ti: TimeIndex, batch: bool,
                            batchSize: int, compound: int, orders: seq<Order>)
    requires n > 0 && compound >= 0 && 0 < |orders| == |ti.stamps|
    requires var l := Init(capital, n, Some(ti), batch, batchSize, compound).value;
             Simulate(l, orders).Done? && Steps(Simulate(l, orders).value.window) > 1
    ensures var l := Init(capital, n, Some(ti), batch, batchSize, compound).value;
            var w := Simulate(l, orders).value.window;
      && Booked(w, n)
      && (MakeSummary(Simulate(l, orders).value).Ok? ==>
            var s := MakeSummary(Simulate(l, orders).value).value;
            SumR(s.sumPnl) == Last(s.totalCapital) - capital)
  {
    var l := Init(capital, n, Some(ti), batch, batchSize, compound).value;
    FreshLedgerBooked(capital, n, Some(ti), batch, batchSize, compound);
    RunKeepsBooks(l, orders, capital);
    var r := Simulate(l, orders).value;
    if MakeSummary(r).Ok? {
      TotalPnlTelescopes(r);
      var s := MakeSummary(r).value;
      assert Last(s.totalCapital) == s.totalCapital[|s.totalCapital| - 1];
    }
  }

  /** `yearlyReturn`: the mean of `sum_pct` times `_T`. */
  function YearlyReturn(s: Summary): Num
  {
    Scale(Mean(s.sumPct), s.periodsPerYear)
  }

  /** The yearly return is finite exactly when there is a step and every
      step's return is finite, and it is then their average scaled by the
      periods per year. */
  lemma YearlyReturnIsAnnualisedMean(s: Summary)
    ensures YearlyReturn(s).Val? <==> |s.sumPct| > 0 && AllFinite(s.sumPct)
    ensures YearlyReturn(s).Val? ==>
              YearlyReturn(s).v
              == SumR(Values(s.sumPct)) / (|s.sumPct| as real) * s.periodsPerYear
  {
    SumFiniteIff(s.sumPct);
    if |s.sumPct| > 0 && AllFinite(s.sumPct) {
      SumOfFinite(s.sumPct);
      var total := SumR(Values(s.sumPct));
      var k := |s.sumPct| as real;
      assert total * (1.0 / k) == total / k;
    }
  }

  // ---------------------------------------------------------------------
  // Drawdown

  /** The frame `maxDrawdown` builds: each net value with its time label. */
  function NavRows(s: Summary): (rows: seq<Row>)
    requires AllFinite(s.netValue) && |s.netValue| == |s.stamps|
    ensures |rows| == |s.netValue|
    ensures forall i :: 0 <= i < |rows| ==> rows[i] == Row(s.netValue[i].v, s.stamps[i])
  {
    seq(|s.netValue|, i requires 0 <= i < |s.netValue| => Row(s.netValue[i].v, s.stamps[i]))
  }

  /** A finite net value series starts at 1. */
  lemma FiniteNetValueStartsAtOne(s: Summary)
    requires Derived(s) && AllFinite(s.netValue)
    ensures s.netValue[0] == Val(1.0)
  {
    NetValueStartsAtOne(s);
  }

  /** `maxDrawdown`: the frame needs one label per net value; the scan's
      result is never positive. */
  function SummaryMaxDrawdown(s: Summary): (r: Result<Drawdown>)
    requires Derived(s) && AllFinite(s.netValue)
    ensures r.Ok? <==> |s.netValue| == |s.stamps|
    ensures r.Err? ==> r.error == ShapeMismatch
    ensures r.Ok? ==> Ok(r.value) == MaxDrawdown(NavRows(s)) && r.value.value <= 0.0
  {
    if |s.netValue| != |s.stamps| then Err(ShapeMismatch)
    else
      FiniteNetValueStartsAtOne(s);
      MaxDrawdown(NavRows(s))
  }

  /** `maxDrawdownYearly`: one scan per calendar year of the labels. */
  function SummaryMaxDrawdownYearly(s: Summary): (r: Result<map<int, Drawdown>>)
    requires AllFinite(s.netValue)
    requires |s.netValue| == |s.stamps| ==> YearsStartPositive(NavRows(s))
    ensures r.Ok? <==> |s.netValue| == |s.stamps|
    ensures r.Err? ==> r.error == ShapeMismatch
    ensures r.Ok? ==> r.value.Keys == (set i | 0 <= i < |s.stamps| :: s.stamps[i].year)
    ensures r.Ok? ==> r.value == MaxDrawdownYearly(NavRows(s))
  {
    if |s.netValue| != |s.stamps| then Err(ShapeMismatch)
    else
      var rows := NavRows(s);
      assert Years(rows) == (set i | 0 <= i < |s.stamps| :: s.stamps[i].year) by {
        assert forall i :: 0 <= i < |rows| ==> rows[i].at == s.stamps[i];
      }
      Ok(MaxDrawdownYearly(rows))
  }

  /** The whole-run drawdown is at least as severe as each year's. */
  lemma SummaryWholeAtLeastAsSevere(s: Summary, y: int)
    requires Derived(s) && AllFinite(s.netValue)
    requires forall i :: 0 <= i < |s.netValue| ==> s.netValue[i].v > 0.0
    requires |s.netValue| == |s.stamps|
    ensures YearsStartPositive(NavRows(s))
    ensures SummaryMaxDrawdownYearly(s).Ok? && SummaryMaxDrawdown(s).Ok?
    ensures y in SummaryMaxDrawdownYearly(s).value ==>
              SummaryMaxDrawdown(s).value.value <= SummaryMaxDrawdownYearly(s).value[y].value
  {
    AllPositiveYears(NavRows(s));
    if y in SummaryMaxDrawdownYearly(s).value {
      WholeAtLeastAsSevere(NavRows(s), y);
    }
  }
}
