/** Batching is a pure memory-layout optimisation: a backtest run with
    batching, once its batches are packed, holds exactly the series the same
    run holds without batching. Every step only reads and rewrites the tail
    of the series, so it commutes with putting archived history in front. */
module Lossless {
  import opened Outcomes
  import opened Numeric
  import opened Ledger
  import opened Rebalance

  // ---------------------------------------------------------------------
  // Steps touch only the tail

  lemma LastOfConcat<T>(p: seq<T>, w: seq<T>)
    requires |w| > 0
    ensures Last(p + w) == Last(w)
  {
  }

  lemma SetLastOfConcat<T>(p: seq<T>, w: seq<T>, v: T)
    requires |w| > 0
    ensures SetLast(p + w, v) == p + SetLast(w, v)
  {
    assert (p + w)[..|p + w| - 1] == p + w[..|w| - 1];
  }

  lemma PrependShaped(p: Series, w: Series, n: nat)
    requires Shaped(p, n) && WellFormed(w, n)
    ensures WellFormed(Prepend(p, w), n)
  {
  }

  /** Marking to market after some history is marking the window to market. */
  lemma MarkToMarketCommutes(p: Series, w: Series, n: nat, price: seq<real>)
    requires Shaped(p, n) && WellFormed(w, n) && |price| == n
    ensures WellFormed(Prepend(p, w), n)
    ensures MarkToMarket(Prepend(p, w), n, price) == Prepend(p, MarkToMarket(w, n, price))
  {
    PrependShaped(p, w, n);
    var pw := Prepend(p, w);
    LastOfConcat(p.share, w.share);
    LastOfConcat(p.balance, w.balance);
    LastOfConcat(p.cash, w.cash);
    assert (p.pnl + w.pnl) + [Sub(Mul(Last(w.share), price), Last(w.balance))]
           == p.pnl + (w.pnl + [Sub(Mul(Last(w.share), price), Last(w.balance))]);
    assert (p.balance + w.balance) + [Mul(Last(w.share), price)]
           == p.balance + (w.balance + [Mul(Last(w.share), price)]);
    assert (p.totalCapital + w.totalCapital) + [SumR(Mul(Last(w.share), price)) + Last(w.cash)]
           == p.totalCapital + (w.totalCapital + [SumR(Mul(Last(w.share), price)) + Last(w.cash)]);
  }

  /** Recording a snapshot after some history is recording it in the window. */
  lemma AddRecordCommutes(p: Series, w: Series, n: nat, snap: Snapshot)
    requires Shaped(p, n) && WellFormed(w, n)
    requires |snap.share| == n && |snap.balance| == n && |snap.position| == n
    ensures WellFormed(Prepend(p, w), n)
    ensures AddRecordSeries(Prepend(p, w), n, snap) == Prepend(p, AddRecordSeries(w, n, snap))
  {
    PrependShaped(p, w, n);
    SetLastOfConcat(p.balance, w.balance, snap.balance);
    SetLastOfConcat(p.totalCapital, w.totalCapital, snap.totalCapital);
    assert (p.position + w.position) + [snap.position] == p.position + (w.position + [snap.position]);
    assert (p.share + w.share) + [snap.share] == p.share + (w.share + [snap.share]);
    assert (p.cash + w.cash) + [snap.cash] == p.cash + (w.cash + [snap.cash]);
  }

  /** Puts history in front of whatever series an outcome carries. */
  function Shift(p: Series, o: Outcome<Series>): Outcome<Series>
  {
    match o
    case Done(s) => Done(Prepend(p, s))
    case Raised(e, s) => Raised(e, Prepend(p, s))
  }

  /** Sizing and recording after some history is sizing and recording the
      window with the history in front. */
  lemma SizeAndRecordCommutes(p: Series, m: Series, n: nat, initialCapital: real,
                              to: seq<real>, price: seq<real>)
    requires Shaped(p, n) && WellFormed(m, n) && |to| == n && |price| == n
    ensures WellFormed(Prepend(p, m), n)
    ensures SizeAndRecord(Prepend(p, m), n, initialCapital, to, price)
            == Shift(p, SizeAndRecord(m, n, initialCapital, to, price))
  {
    PrependShaped(p, m, n);
    var pm := Prepend(p, m);
    LastOfConcat(p.totalCapital, m.totalCapital);
    var capital := CapitalBasis(Last(m.totalCapital), initialCapital);
    assert CapitalBasis(Last(pm.totalCapital), initialCapital) == capital;
    var t := TargetShares(capital, to, price);
    if t.Ok? {
      LastOfConcat(p.balance, m.balance);
      LastOfConcat(p.cash, m.cash);
      var snap := PostTrade(m, n, t.value, price);
      assert PostTrade(pm, n, t.value, price) == snap;
      AddRecordCommutes(p, m, n, snap);
    }
  }

  /** A rebalance after some history is the rebalance of the window with the
      history in front. */
  lemma TradeCommutes(p: Series, w: Series, n: nat, initialCapital: real,
                      to: seq<real>, price: seq<real>)
    requires Shaped(p, n) && WellFormed(w, n)
    ensures WellFormed(Prepend(p, w), n)
    ensures Trade(Prepend(p, w), n, initialCapital, to, price)
            == Shift(p, Trade(w, n, initialCapital, to, price))
  {
    PrependShaped(p, w, n);
    if Examine(n, to, price).None? {
      MarkToMarketCommutes(p, w, n, price);
      SizeAndRecordCommutes(p, MarkToMarket(w, n, price), n, initialCapital, to, price);
    }
  }

  // ---------------------------------------------------------------------
  // Ledgers standing for the same series

  /** Two ledgers that stand for the same series with the same capital
      basis, counter and configuration, however differently they are
      batched. */
  predicate Mirror(l1: Ledger, l2: Ledger)
  {
    && Valid(l1) && Valid(l2)
    && l1.cfg.n == l2.cfg.n && l1.cfg.timeIndex == l2.cfg.timeIndex
    && l1.cfg.compound == l2.cfg.compound
    && l1.initialCapital == l2.initialCapital && l1.count == l2.count
    && FullSeries(l1) == FullSeries(l2)
  }

  /** The latest total capital is the same in the window and in the full series. */
  lemma LastCapitalOfFullSeries(l: Ledger)
    requires Valid(l)
    ensures WellFormed(FullSeries(l), l.cfg.n)
    ensures Last(FullSeries(l).totalCapital) == Last(l.window.totalCapital)
  {
    FullSeriesWellFormed(l);
    LastOfConcat(History(l.archive).totalCapital, l.window.totalCapital);
  }

  /** Seen through the full series, `adjustPosition` is the rebalance of
      the full series: same outcome, same error, and the full series it
      leaves behind is the one the rebalance produces. */
  lemma AdjustPositionOnFullSeries(l: Ledger, to: seq<real>, price: seq<real>)
    requires Valid(l)
    ensures WellFormed(FullSeries(l), l.cfg.n)
    ensures var r := AdjustPosition(l, to, price);
            var t := Trade(FullSeries(l), l.cfg.n, l.initialCapital, to, price);
      && r.Done? == t.Done?
      && (r.Raised? ==> r.error == t.error)
      && FullSeries(r.value) == t.value
  {
    var n := l.cfg.n;
    var h := History(l.archive);
    FullSeriesWellFormed(l);
    HistoryShaped(l.archive, n);
    TradeCommutes(h, l.window, n, l.initialCapital, to, price);
    var t := Trade(l.window, n, l.initialCapital, to, price);
    PackIsPrepend(l.archive, t.value);
  }

  /** `adjustPosition` does the same thing to mirrored ledgers. */
  lemma AdjustPositionMirrors(l1: Ledger, l2: Ledger, to: seq<real>, price: seq<real>)
    requires Mirror(l1, l2)
    ensures var r1, r2 := AdjustPosition(l1, to, price), AdjustPosition(l2, to, price);
      && r1.Done? == r2.Done?
      && (r1.Raised? ==> r1.error == r2.error)
      && Mirror(r1.value, r2.value)
  {
    AdjustPositionOnFullSeries(l1, to, price);
    AdjustPositionOnFullSeries(l2, to, price);
  }

  /** `updateStatus` does the same thing to mirrored ledgers; when it
      finalises, both windows become the same full series. */
  lemma UpdateStatusMirrors(l1: Ledger, l2: Ledger)
    requires Mirror(l1, l2)
    ensures var r1, r2 := UpdateStatus(l1), UpdateStatus(l2);
      && r1.Done? == r2.Done?
      && (r1.Raised? ==> r1.error == r2.error && Mirror(r1.value, r2.value))
      && (r1.Done? && l1.count + 1 < |l1.cfg.timeIndex.value.stamps| ==> Mirror(r1.value, r2.value))
      && (r1.Done? && l1.count + 1 >= |l1.cfg.timeIndex.value.stamps| ==>
            r1.value.window == r2.value.window && r1.value.window == FullSeries(l1))
  {
    LastCapitalOfFullSeries(l1);
    LastCapitalOfFullSeries(l2);
  }

  /** The central property: running the same orders through two ledgers that
      stand for the same series gives the same outcome; before finalisation
      they still stand for the same series, and the finalising step packs
      both into identical windows. Stated for runs that finalise at most
      once, because packing never clears the archive. */
  lemma {:induction false} BatchingIsLossless(l1: Ledger, l2: Ledger, orders: seq<Order>)
    requires Mirror(l1, l2)
    requires l1.cfg.timeIndex.Some?
    requires l1.count + |orders| <= |l1.cfg.timeIndex.value.stamps|
    ensures var r1, r2 := Simulate(l1, orders), Simulate(l2, orders);
      && r1.Done? == r2.Done?
      && (r1.Raised? ==> r1.error == r2.error && Mirror(r1.value, r2.value))
      && (r1.Done? && l1.count + |orders| < |l1.cfg.timeIndex.value.stamps| ==>
            Mirror(r1.value, r2.value))
      && (r1.Done? && l1.count + |orders| == |l1.cfg.timeIndex.value.stamps| && |orders| > 0 ==>
            r1.value.window == r2.value.window)
    decreases |orders|
  {
    if |orders| > 0 {
      var o := orders[0];
      AdjustPositionMirrors(l1, l2, o.to, o.price);
      var a1, a2 := AdjustPosition(l1, o.to, o.price), AdjustPosition(l2, o.to, o.price);
      if a1.Done? {
        UpdateStatusMirrors(a1.value, a2.value);
        var u1, u2 := UpdateStatus(a1.value), UpdateStatus(a2.value);
        assert StepOnce(l1, o) == u1 && StepOnce(l2, o) == u2;
        if l1.count + 1 < |l1.cfg.timeIndex.value.stamps| {
          BatchingIsLossless(u1.value, u2.value, orders[1..]);
        } else {
          assert orders[1..] == [];
        }
      }
    }
  }

  /** The books balance over a whole run: if the full series start from
      `capital` and every step has total capital equal to its balances plus
      cash and profit equal to the change in total capital, the same holds
      after every completed step, and the finalising step leaves exactly such
      series in the window. */
  lemma {:induction false} RunKeepsBooks(l: Ledger, orders: seq<Order>, capital: real)
    requires Valid(l) && l.cfg.timeIndex.Some?
    requires l.count + |orders| <= |l.cfg.timeIndex.value.stamps|
    requires Booked(FullSeries(l), l.cfg.n) && FullSeries(l).totalCapital[0] == capital
    ensures var r := Simulate(l, orders);
      r.Done? && l.count + |orders| < |l.cfg.timeIndex.value.stamps| ==>
        Booked(FullSeries(r.value), l.cfg.n) && FullSeries(r.value).totalCapital[0] == capital
    ensures var r := Simulate(l, orders);
      r.Done? && l.count + |orders| == |l.cfg.timeIndex.value.stamps| && |orders| > 0 ==>
        Booked(r.value.window, l.cfg.n) && r.value.window.totalCapital[0] == capital
    decreases |orders|
  {
    if |orders| > 0 {
      var o := orders[0];
      var a := AdjustPosition(l, o.to, o.price);
      if a.Done? {
        AdjustPositionKeepsBooks(l, o.to, o.price, capital);
        var u := UpdateStatus(a.value);
        assert StepOnce(l, o) == u;
        if u.Done? {
          if l.count + 1 < |l.cfg.timeIndex.value.stamps| {
            RunKeepsBooks(u.value, orders[1..], capital);
          } else {
            assert orders[1..] == [];
          }
        }
      }
    }
  }

  /** A completed rebalance keeps the full series booked and their start. */
  lemma AdjustPositionKeepsBooks(l: Ledger, to: seq<real>, price: seq<real>, capital: real)
    requires Valid(l)
    requires Booked(FullSeries(l), l.cfg.n) && FullSeries(l).totalCapital[0] == capital
    requires AdjustPosition(l, to, price).Done?
    ensures var a := AdjustPosition(l, to, price).value;
      Booked(FullSeries(a), l.cfg.n) && FullSeries(a).totalCapital[0] == capital
  {
    var n := l.cfg.n;
    var f := FullSeries(l);
    var a := AdjustPosition(l, to, price);
    AdjustPositionOnFullSeries(l, to, price);
    TradeKeepsBooks(f, n, l.initialCapital, to, price);
    TradeKeepsAlignment(f, n, l.initialCapital, to, price);
    assert FullSeries(a.value).totalCapital[..Steps(f)][0] == f.totalCapital[0];
  }

  /** A fresh ledger's full series is its booked seed step. */
  lemma FreshLedgerBooked(capital: real, n: nat, ti: Option<TimeIndex>, batch: bool,
                          batchSize: int, compound: int)
    requires n > 0 && compound >= 0
    ensures var l := Init(capital, n, ti, batch, batchSize, compound).value;
      Booked(FullSeries(l), n) && FullSeries(l).totalCapital[0] == capital
  {
    var l := Init(capital, n, ti, batch, batchSize, compound).value;
    SeedBooked(capital, n);
    FullSeriesWellFormed(l);
    assert FullSeries(l) == l.window;
  }

  /** An unbatched ledger never archives anything. */
  lemma {:induction false} UnbatchedKeepsNoArchive(l: Ledger, orders: seq<Order>)
    requires Valid(l) && !l.cfg.batch && l.archive == []
    ensures Simulate(l, orders).value.archive == []
    decreases |orders|
  {
    if |orders| > 0 {
      var a := AdjustPosition(l, orders[0].to, orders[0].price);
      if a.Done? {
        var u := UpdateStatus(a.value);
        if u.Done? {
          UnbatchedKeepsNoArchive(u.value, orders[1..]);
        }
      }
    }
  }

  /** pack after batch is the identity: from the same start, a batched run,
      once packed, holds exactly the series of the unbatched run. */
  lemma PackedRunMatchesUnbatched(capital: real, n: nat, ti: TimeIndex, batchSize: int,
                                  compound: int, orders: seq<Order>)
    requires n > 0 && compound >= 0
    requires |orders| <= |ti.stamps|
    ensures var b := Init(capital, n, Some(ti), true, batchSize, compound).value;
      var u := Init(capital, n, Some(ti), false, batchSize, compound).value;
      var r1, r2 := Simulate(b, orders), Simulate(u, orders);
      && r1.Done? == r2.Done?
      && (r1.Raised? ==> r1.error == r2.error)
      && (r1.Raised? || |orders| < |ti.stamps| ==> PackBatches(r1.value).window == r2.value.window)
      && (r1.Done? && |orders| == |ti.stamps| && |orders| > 0 ==> r1.value.window == r2.value.window)
  {
    var b := Init(capital, n, Some(ti), true, batchSize, compound).value;
    var u := Init(capital, n, Some(ti), false, batchSize, compound).value;
    BatchingIsLossless(b, u, orders);
    UnbatchedKeepsNoArchive(u, orders);
  }
}
