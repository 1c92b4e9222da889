/** The portfolio ledger of core/backtest.py: parallel append-only series,
    one scalar or one N-wide row per step, with the batching scheme that
    archives all but the last step and the packing that stitches the
    archive back together.

    The source keeps the per-asset series as flat numpy arrays that grow by
    exactly N entries at a time; here each such array is the sequence of its
    N-wide rows, so `x[-N:]` is the last row and `x.reshape(-1, N)` is the
    sequence itself. */
module Ledger {
  import opened Outcomes
  import opened Numeric

  /** One time label: its calendar year and its position in minutes on a
      common clock. */
  datatype Stamp = Stamp(year: int, minute: int)

  /** The pandas DatetimeIndex the backtest is given: its labels and, when
      pandas knows one, its fixed frequency in whole days. */
  datatype TimeIndex = TimeIndex(stamps: seq<Stamp>, freqDays: Option<int>)

  /** The constructor parameters (`PARAMETERS` and friends). */
  datatype Config = Config(
    n: nat,                          // assetCapacity
    timeIndex: Option<TimeIndex>,    // None when no time index was given
    batch: bool,
    batchSize: int,
    compound: nat)

  /** The six parallel series. `totalCapital` and `cash` hold one scalar per
      step; the others one N-wide row per step. */
  datatype Series = Series(
    totalCapital: seq<real>,
    cash: seq<real>,
    balance: seq<seq<real>>,
    share: seq<seq<int>>,
    position: seq<seq<Num>>,
    pnl: seq<seq<real>>)

  /** The post-trade record `adjustPosition` builds before handing it to
      `_addRecord`. */
  datatype Snapshot = Snapshot(
    share: seq<int>,
    balance: seq<real>,
    cash: real,
    totalCapital: real,
    position: seq<Num>)

  /** A backtest: its configuration, the active window of the series, the
      archived batches (`subTest`), the capital basis `initialCapital` and
      the step counter that the source keeps in the global `COUNT`. */
  datatype Ledger = Ledger(
    cfg: Config,
    window: Series,
    archive: seq<Series>,
    initialCapital: real,
    count: nat)

  // ---------------------------------------------------------------------
  // Shape predicates

  predicate Rows<T>(rows: seq<seq<T>>, n: nat)
  {
    forall i :: 0 <= i < |rows| ==> |rows[i]| == n
  }

  /** Every per-asset row is N wide. */
  predicate Shaped(s: Series, n: nat)
  {
    Rows(s.balance, n) && Rows(s.share, n) && Rows(s.position, n) && Rows(s.pnl, n)
  }

  /** Shaped, and the last capital, cash, balance row and share row that a
      step reads all exist. */
  predicate WellFormed(s: Series, n: nat)
  {
    Shaped(s, n)
    && |s.totalCapital| > 0 && |s.cash| > 0 && |s.balance| > 0 && |s.share| > 0
  }

  function Steps(s: Series): nat
  {
    |s.totalCapital|
  }

  /** The alignment of a completed step: every series holds one entry per step. */
  predicate Aligned(s: Series, n: nat)
  {
    WellFormed(s, n)
    && |s.cash| == Steps(s) && |s.balance| == Steps(s) && |s.share| == Steps(s)
    && |s.position| == Steps(s) && |s.pnl| == Steps(s)
  }

  /** The invariant every reachable ledger keeps. */
  predicate Valid(l: Ledger)
  {
    l.cfg.n > 0
    && WellFormed(l.window, l.cfg.n)
    && forall b :: b in l.archive ==> Shaped(b, l.cfg.n)
  }

  // ---------------------------------------------------------------------
  // Construction

  function Zeros(n: nat): (r: seq<real>)
    ensures |r| == n && forall i :: 0 <= i < n ==> r[i] == 0.0
  {
    seq(n, _ => 0.0)
  }

  /** `Record.__init__` together with the zero `pnl` row `BackTest.__init__`
      adds: one seed step holding the whole capital as cash. */
  function Seed(capital: real, n: nat): (r: Series)
    ensures Aligned(r, n) && Steps(r) == 1
    ensures r.totalCapital == [capital] && r.cash == [capital]
    ensures forall i :: 0 <= i < n ==>
              r.balance[0][i] == 0.0 && r.share[0][i] == 0
              && r.position[0][i] == Val(0.0) && r.pnl[0][i] == 0.0
  {
    Series([capital], [capital], [Zeros(n)], [seq(n, _ => 0)],
           [seq(n, _ => Val(0.0))], [Zeros(n)])
  }

  /** `BackTest.__init__`: a negative compound cycle is refused; otherwise a
      fresh ledger with an empty archive and a zero counter. */
  function Init(capital: real, n: nat, timeIndex: Option<TimeIndex>,
                batch: bool, batchSize: int, compound: int): (r: Result<Ledger>)
    requires n > 0
    ensures r.Err? <==> compound < 0
    ensures r.Err? ==> r.error == BadCompound
    ensures r.Ok? ==> Valid(r.value) && Aligned(r.value.window, n)
                      && r.value.window == Seed(capital, n)
                      && r.value.archive == [] && r.value.count == 0
                      && r.value.initialCapital == capital
                      && r.value.cfg.compound == compound
  {
    if compound < 0 then Err(BadCompound)
    else Ok(Ledger(Config(n, timeIndex, batch, batchSize, compound),
                   Seed(capital, n), [], capital, 0))
  }

  // ---------------------------------------------------------------------
  // One step: mark to market, then the post-trade record

  /** `_updateHoldings`: values the last share row at the new prices,
      appends that balance row, the P&L row against the previous balance
      row and the marked total capital. Cash, shares and positions are not
      touched. */
  function MarkToMarket(s: Series, n: nat, price: seq<real>): (r: Series)
    requires WellFormed(s, n) && |price| == n
    ensures WellFormed(r, n) && |r.pnl| == |s.pnl| + 1
    ensures r.cash == s.cash && r.share == s.share && r.position == s.position
    ensures r.totalCapital == s.totalCapital + [Last(r.totalCapital)]
    ensures r.balance == s.balance + [Last(r.balance)]
    ensures r.pnl == s.pnl + [Last(r.pnl)]
    ensures forall i :: 0 <= i < n ==>
              Last(r.balance)[i] == Last(s.share)[i] as real * price[i]
              && Last(r.pnl)[i] == Last(r.balance)[i] - Last(s.balance)[i]
    ensures Last(r.totalCapital) == SumR(Last(r.balance)) + Last(s.cash)
    ensures SumR(Last(r.pnl))
            == Last(r.totalCapital) - (SumR(Last(s.balance)) + Last(s.cash))
  {
    var marked := Mul(Last(s.share), price);
    SumSub(marked, Last(s.balance));
    s.(pnl := s.pnl + [Sub(marked, Last(s.balance))],
       balance := s.balance + [marked],
       totalCapital := s.totalCapital + [SumR(marked) + Last(s.cash)])
  }

  /** The series part of `_addRecord`: positions, shares and cash are
      appended, while the balance row and the total capital that
      `_updateHoldings` appended are overwritten, so one step adds exactly
      one entry to every series. */
  function AddRecordSeries(s: Series, n: nat, snap: Snapshot): (r: Series)
    requires WellFormed(s, n)
    requires |snap.share| == n && |snap.balance| == n && |snap.position| == n
    ensures WellFormed(r, n)
    ensures r.position == s.position + [snap.position]
    ensures r.share == s.share + [snap.share]
    ensures r.cash == s.cash + [snap.cash]
    ensures r.balance == DropLast(s.balance) + [snap.balance]
    ensures r.totalCapital == DropLast(s.totalCapital) + [snap.totalCapital]
    ensures r.pnl == s.pnl
  {
    s.(position := s.position + [snap.position],
       share := s.share + [snap.share],
       balance := SetLast(s.balance, snap.balance),
       totalCapital := SetLast(s.totalCapital, snap.totalCapital),
       cash := s.cash + [snap.cash])
  }

  // ---------------------------------------------------------------------
  // Batching and packing

  /** The seed step a new window keeps: `x[-1:]` and `x[-N:]` of every series. */
  function LastStep(s: Series): Series
  {
    Series(KeepLast(s.totalCapital), KeepLast(s.cash), KeepLast(s.balance),
           KeepLast(s.share), KeepLast(s.position), KeepLast(s.pnl))
  }

  /** A batch without its trailing seed step: `x[:-1]` and `x[:-N]`. */
  function WithoutLastStep(s: Series): Series
  {
    Series(DropLast(s.totalCapital), DropLast(s.cash), DropLast(s.balance),
           DropLast(s.share), DropLast(s.position), DropLast(s.pnl))
  }

  /** Series-wise concatenation. */
  function Prepend(p: Series, s: Series): Series
  {
    Series(p.totalCapital + s.totalCapital, p.cash + s.cash, p.balance + s.balance,
           p.share + s.share, p.position + s.position, p.pnl + s.pnl)
  }

  /** Splitting off the seed step and putting it back gives the series back. */
  lemma SplitLastStep(s: Series)
    ensures Prepend(WithoutLastStep(s), LastStep(s)) == s
  {
  }

  /** `_batching`: the whole window goes to the archive and the window keeps
      only its last step. The stitched view is unchanged. */
  function Batching(l: Ledger): (r: Ledger)
    requires Valid(l)
    ensures Valid(r)
    ensures r.archive == l.archive + [l.window]
    ensures Steps(r.window) == 1 && |r.window.cash| == 1
    ensures |r.window.balance| == 1 && |r.window.share| == 1
    ensures |l.window.position| > 0 ==> |r.window.position| == 1
    ensures |l.window.pnl| > 0 ==> |r.window.pnl| == 1
    ensures Last(r.window.totalCapital) == Last(l.window.totalCapital)
    ensures Pack(r.archive, r.window) == Pack(l.archive, l.window)
    ensures r.cfg == l.cfg && r.initialCapital == l.initialCapital && r.count == l.count
  {
    var r := l.(archive := l.archive + [l.window], window := LastStep(l.window));
    assert r.archive[..|r.archive| - 1] == l.archive;
    SplitLastStep(l.window);
    r
  }

  /** `_pack_batches`' loop: walking the archive from the newest batch to
      the oldest, each batch minus its trailing seed step is put in front. */
  function Pack(archive: seq<Series>, s: Series): Series
    decreases |archive|
  {
    if |archive| == 0 then s
    else Pack(archive[..|archive| - 1], Prepend(WithoutLastStep(Last(archive)), s))
  }

  /** The history the archive contributes: each batch without its seed step,
      oldest first. */
  function History(archive: seq<Series>): Series
    decreases |archive|
  {
    if |archive| == 0 then Series([], [], [], [], [], [])
    else Prepend(History(archive[..|archive| - 1]), WithoutLastStep(Last(archive)))
  }

  /** Packing puts the whole archived history in front of the window. */
  lemma {:induction false} PackIsPrepend(archive: seq<Series>, s: Series)
    ensures Pack(archive, s) == Prepend(History(archive), s)
    decreases |archive|
  {
    if |archive| > 0 {
      var front := archive[..|archive| - 1];
      var d := WithoutLastStep(Last(archive));
      calc {
        Pack(archive, s);
        Pack(front, Prepend(d, s));
        { PackIsPrepend(front, Prepend(d, s)); }
        Prepend(History(front), Prepend(d, s));
        { PrependAssociative(History(front), d, s); }
        Prepend(Prepend(History(front), d), s);
        Prepend(History(archive), s);
      }
    }
  }

  lemma PrependAssociative(a: Series, b: Series, c: Series)
    ensures Prepend(a, Prepend(b, c)) == Prepend(Prepend(a, b), c)
  {
    assert a.totalCapital + (b.totalCapital + c.totalCapital)
           == (a.totalCapital + b.totalCapital) + c.totalCapital;
    assert a.cash + (b.cash + c.cash) == (a.cash + b.cash) + c.cash;
    assert a.balance + (b.balance + c.balance) == (a.balance + b.balance) + c.balance;
    assert a.share + (b.share + c.share) == (a.share + b.share) + c.share;
    assert a.position + (b.position + c.position) == (a.position + b.position) + c.position;
    assert a.pnl + (b.pnl + c.pnl) == (a.pnl + b.pnl) + c.pnl;
  }

  /** Packed archives keep their rows N wide. */
  lemma {:induction false} HistoryShaped(archive: seq<Series>, n: nat)
    requires forall b :: b in archive ==> Shaped(b, n)
    ensures Shaped(History(archive), n)
    decreases |archive|
  {
    if |archive| > 0 {
      var front := archive[..|archive| - 1];
      assert forall b :: b in front ==> b in archive;
      HistoryShaped(front, n);
      assert Last(archive) in archive;
      WithoutLastStepShaped(Last(archive), n);
      PrependKeepsShape(History(front), WithoutLastStep(Last(archive)), n);
    }
  }

  /** Dropping the last step keeps the rows N wide. */
  lemma WithoutLastStepShaped(s: Series, n: nat)
    requires Shaped(s, n)
    ensures Shaped(WithoutLastStep(s), n)
  {
  }

  /** Series-wise concatenation of N-wide rows has N-wide rows. */
  lemma PrependKeepsShape(p: Series, s: Series, n: nat)
    requires Shaped(p, n)
    requires Shaped(s, n)
    ensures Shaped(Prepend(p, s), n)
  {
    RowsConcat(p.balance, s.balance, n);
    RowsConcat(p.share, s.share, n);
    RowsConcat(p.position, s.position, n);
    RowsConcat(p.pnl, s.pnl, n);
  }

  lemma RowsConcat<T>(a: seq<seq<T>>, b: seq<seq<T>>, n: nat)
    requires Rows(a, n) && Rows(b, n)
    ensures Rows(a + b, n)
  {
  }

  /** The series the ledger stands for, whatever its batching layout. */
  function FullSeries(l: Ledger): Series
  {
    Pack(l.archive, l.window)
  }

  /** The stitched series of a valid ledger end in its window and are well formed. */
  lemma FullSeriesWellFormed(l: Ledger)
    requires Valid(l)
    ensures FullSeries(l) == Prepend(History(l.archive), l.window)
    ensures WellFormed(FullSeries(l), l.cfg.n)
  {
    PackIsPrepend(l.archive, l.window);
    HistoryShaped(l.archive, l.cfg.n);
  }

  /** `_pack_batches`: the window becomes the stitched series. The archive is
      left in place, as the source never clears `subTest`. */
  function PackBatches(l: Ledger): (r: Ledger)
    requires Valid(l)
    ensures Valid(r)
    ensures r.window == FullSeries(l) && r.archive == l.archive
    ensures r.cfg == l.cfg && r.initialCapital == l.initialCapital && r.count == l.count
  {
    FullSeriesWellFormed(l);
    l.(window := FullSeries(l))
  }

  /** The batching check at the end of `_addRecord`: when batching is on and
      the window has reached `batch_size` steps, the window is archived. */
  function Settle(l: Ledger): (r: Ledger)
    requires Valid(l)
    ensures Valid(r)
    ensures r.cfg == l.cfg && r.initialCapital == l.initialCapital && r.count == l.count
    ensures FullSeries(r) == FullSeries(l)
    ensures l.cfg.batch && Steps(l.window) >= l.cfg.batchSize
            <==> r.archive == l.archive + [l.window]
    ensures !(l.cfg.batch && Steps(l.window) >= l.cfg.batchSize) ==> r == l
  {
    if l.cfg.batch && Steps(l.window) >= l.cfg.batchSize then Batching(l) else l
  }

  // ---------------------------------------------------------------------
  // Step counter, compounding and finalisation

  /** `_compound_returns`: at every multiple of the cycle the capital basis
      becomes the latest total capital. */
  function CompoundReturns(l: Ledger, count: nat): (r: Ledger)
    requires Valid(l) && l.cfg.compound > 0
    ensures Valid(r) && r.window == l.window && r.archive == l.archive
    ensures r.cfg == l.cfg && r.count == l.count
    ensures count % l.cfg.compound == 0 ==> r.initialCapital == Last(l.window.totalCapital)
    ensures count % l.cfg.compound != 0 ==> r.initialCapital == l.initialCapital
  {
    if count % l.cfg.compound == 0 then l.(initialCapital := Last(l.window.totalCapital))
    else l
  }

  /** `_final_work`: resets the counter and packs the batches. */
  function FinalWork(l: Ledger): (r: Ledger)
    requires Valid(l)
    ensures Valid(r) && r.count == 0 && r.window == FullSeries(l) && r.archive == l.archive
  {
    PackBatches(l).(count := 0)
  }

  /** `updateStatus`: counts the step, compounds when a cycle is complete,
      and finalises once the count reaches the length of the time index.
      Without a time index `len(None)` raises TypeError, and an empty index
      divides by zero; both after the count and the compounding happened. */
  function UpdateStatus(l: Ledger): (r: Outcome<Ledger>)
    requires Valid(l)
    ensures Valid(r.value)
    ensures r.Raised? <==> l.cfg.timeIndex.None? || |l.cfg.timeIndex.value.stamps| == 0
    ensures r.Raised? ==> r.value.count == l.count + 1
                          && (r.error == MissingTimeIndex <==> l.cfg.timeIndex.None?)
    ensures r.value.cfg == l.cfg
    ensures l.cfg.compound > 0 && (l.count + 1) % l.cfg.compound == 0
            ==> r.value.initialCapital == Last(l.window.totalCapital)
    ensures l.cfg.compound == 0 || (l.count + 1) % l.cfg.compound != 0
            ==> r.value.initialCapital == l.initialCapital
    ensures r.Done? && l.count + 1 >= |l.cfg.timeIndex.value.stamps|
            ==> r.value.count == 0 && r.value.window == FullSeries(l)
                && r.value.archive == l.archive
    ensures r.Done? && l.count + 1 < |l.cfg.timeIndex.value.stamps|
            ==> r.value.count == l.count + 1 && r.value.window == l.window
                && r.value.archive == l.archive
  {
    var c := l.count + 1;
    var counted := l.(count := c);
    var l' := if l.cfg.compound > 0 then CompoundReturns(counted, c) else counted;
    match l.cfg.timeIndex
    case None => Raised(MissingTimeIndex, l')
    case Some(ti) =>
      if |ti.stamps| == 0 then Raised(ZeroDivision, l')
      else if c >= |ti.stamps| then Done(FinalWork(l'))
      else Done(l')
  }
}
