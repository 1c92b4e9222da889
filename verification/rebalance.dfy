/** `StockBackTest.adjustPosition` (and its line-for-line copy in
    `OptionBackTest`): validate the inputs, mark the last holdings to market,
    size the target from the capital basis, round to board lots and let cash
    absorb the residual. */
module Rebalance {
  import opened Outcomes
  import opened Numeric
  import opened Func
  import opened Ledger

  /** The over-allocation threshold exactly as written, `1+1e5`. */
  const PositionLimit: real := 100001.0

  /** `_inputExamination`: the price length, then the absolute target sum,
      then the target length, each raising its own error. */
  function Examine(n: nat, to: seq<real>, price: seq<real>): (r: Option<Error>)
    ensures r.None? <==> |price| == n && |to| == n && Abs(SumR(to)) <= PositionLimit
    ensures |price| != n ==> r == Some(LengthMismatch(n, |price|))
    ensures |price| == n && Abs(SumR(to)) > PositionLimit ==> r == Some(OverAllocation)
    ensures |price| == n && Abs(SumR(to)) <= PositionLimit && |to| != n
            ==> r == Some(LengthMismatch(n, |to|))
  {
    if |price| != n then Some(LengthMismatch(n, |price|))
    else if Abs(SumR(to)) > PositionLimit then Some(OverAllocation)
    else if |to| != n then Some(LengthMismatch(n, |to|))
    else None
  }

  /** The capital a rebalance is sized from: the latest total capital when
      it is strictly below the basis, the basis otherwise. */
  function CapitalBasis(latest: real, basis: real): (r: real)
    ensures r <= latest && r <= basis
    ensures r == latest || r == basis
    ensures latest == basis ==> r == basis
  {
    if latest < basis then latest else basis
  }

  /** The raw target share counts `capital * to / price`. */
  function Quotients(capital: real, to: seq<real>, price: seq<real>): (r: seq<Num>)
    requires |to| == |price|
    ensures |r| == |to|
    ensures forall i :: 0 <= i < |to| ==> r[i] == Divide(capital * to[i], price[i])
  {
    DivideEach(ScaleAll(to, capital), price)
  }

  /** Lot rounding moves the share value by at most 50 shares' worth. */
  lemma LotValueError(shares: int, q: real, p: real)
    requires -50.0 <= shares as real - q <= 50.0
    ensures Abs(shares as real * p - q * p) <= 50.0 * Abs(p)
  {
    var e := shares as real - q;
    var a := Abs(p);
    assert Abs(e) <= 50.0;
    AbsMul(e, p);
    MulMonotone(Abs(e), 50.0, a);
    calc {
      Abs(shares as real * p - q * p);
      { assert shares as real * p - q * p == e * p; }
      Abs(e * p);
      Abs(e) * a;
    <=
      50.0 * a;
    }
  }

  /** A target that can be sized: a nonzero price, or a zero numerator. */
  predicate Sizable(capital: real, t: real, p: real)
  {
    p != 0.0 || capital * t == 0.0
  }

  /** Whether the first quotient is 0/0. `vfillna` then returns integers, so
      every other quotient is truncated toward zero before it is rounded to
      a lot. */
  predicate TruncatesFirst(capital: real, to: seq<real>, price: seq<real>)
  {
    |to| > 0 && |price| > 0 && price[0] == 0.0 && capital * to[0] == 0.0
  }

  /** Which raw quotients survive `fillna` as finite numbers: those with a
      nonzero price, and those whose numerator is zero (0/0 is NaN, filled
      with 0). The filled result is an int array exactly when the first
      quotient is 0/0. */
  lemma FilledQuotient(capital: real, to: seq<real>, price: seq<real>, i: int)
    requires |to| == |price| && 0 <= i < |to|
    ensures var f := FillNa(Quotients(capital, to, price)[i]);
      && (f.Val? <==> Sizable(capital, to[i], price[i]))
      && (Infinite(Quotients(capital, to, price)[i]) <==> !Sizable(capital, to[i], price[i]))
      && (price[i] == 0.0 && f.Val? ==> f == Val(0.0))
      && (price[i] != 0.0 ==> f == Val(capital * to[i] / price[i]))
    ensures CastsToInt(Quotients(capital, to, price)) <==> TruncatesFirst(capital, to, price)
  {
  }

  /** A share count worth the capital share `a` at price `p` to within 50
      shares. */
  predicate WithinLot(share: int, a: real, p: real)
  {
    Abs(share as real * p - a) <= 50.0 * Abs(p)
  }

  /** A share count worth the capital share `a` to within 51 shares,
      strictly: the truncation loses less than one share before rounding
      adds at most 50. */
  predicate WithinTruncatedLot(share: int, a: real, p: real)
  {
    Abs(share as real * p - a) < 51.0 * Abs(p)
  }

  /** What the source computes for one asset whose capital share is `a`:
      0 shares at a zero price, otherwise `a / p` rounded to a lot, truncated
      toward zero first when the array was cast to int. Either way a
      multiple of 100 worth its capital share to within 50 (or, truncated,
      under 51) shares. */
  predicate SizedShare(share: int, a: real, p: real, truncates: bool)
  {
    && share % LotSize == 0
    && (p == 0.0 ==> share == 0)
    && (p != 0.0 && !truncates ==> share == Lot(a / p) && WithinLot(share, a, p))
    && (p != 0.0 && truncates ==>
          share == Lot(Trunc(a / p) as real) && WithinTruncatedLot(share, a, p))
  }

  /** The whole target: one `SizedShare` per asset, of the capital share
      `capital * to[i]`, truncated exactly when the first quotient is 0/0. */
  predicate Sized(shares: seq<int>, capital: real, to: seq<real>, price: seq<real>)
    requires |to| == |price|
  {
    && |shares| == |to|
    && forall i :: 0 <= i < |to| ==>
         SizedShare(shares[i], capital * to[i], price[i], TruncatesFirst(capital, to, price))
  }

  /** The target share counts: the quotients with NaN filled by 0 and
      rounded to lots of 100. With no assets `np.vectorize` raises
      ValueError; a nonzero target over a zero price is an infinity that
      `round` (or the int cast) refuses with OverflowError. */
  function TargetShares(capital: real, to: seq<real>, price: seq<real>): (r: Result<seq<int>>)
    requires |to| == |price|
    ensures r.Ok? <==> |to| > 0 && forall i :: 0 <= i < |to| ==> Sizable(capital, to[i], price[i])
    ensures r.Err? ==> r.error == (if |to| == 0 then EmptyInput else Overflow)
    ensures r.Ok? ==> Sized(r.value, capital, to, price)
  {
    TargetSharesOutcome(capital, to, price);
    TargetSharesBounded(capital, to, price);
    RoundFilled(VFillNa(Quotients(capital, to, price)))
  }

  /** `vstandardizeDealAmount` applied to what `vfillna` returned, or its
      exception passed on. */
  function RoundFilled(filled: Result<seq<Num>>): Result<seq<int>>
  {
    match filled
    case Err(e) => Err(e)
    case Ok(f) => VStandardizeDealAmount(f)
  }

  /** Rounding succeeds exactly when there are assets and no quotient is
      infinite; otherwise no assets raise ValueError and an infinite
      quotient raises OverflowError. */
  lemma TargetSharesOutcome(capital: real, to: seq<real>, price: seq<real>)
    requires |to| == |price|
    ensures var r := RoundFilled(VFillNa(Quotients(capital, to, price)));
      && (r.Ok? <==> |to| > 0 && forall i :: 0 <= i < |to| ==> Sizable(capital, to[i], price[i]))
      && (r.Err? ==> r.error == (if |to| == 0 then EmptyInput else Overflow))
  {
    var q := Quotients(capital, to, price);
    var filled := VFillNa(q);
    var r := RoundFilled(filled);
    forall i | 0 <= i < |to|
      ensures FillNa(q[i]).Val? <==> Sizable(capital, to[i], price[i])
      ensures Infinite(q[i]) <==> !Sizable(capital, to[i], price[i])
    {
      FilledQuotient(capital, to, price, i);
    }
    if filled.Ok? && |to| > 0 {
      var f := filled.value;
      if CastsToInt(q) {
        assert AllFinite(f);
      } else {
        assert forall i :: 0 <= i < |to| ==> (f[i].Val? <==> Sizable(capital, to[i], price[i]));
        if r.Err? {
          var i :| 0 <= i < |f| && !f[i].Val? && StandardizeDealAmount(f[i]) == Err(r.error);
          assert f[i] != NaN;
        }
      }
    }
  }

  /** Each rounded target is what `Sized` describes. */
  lemma TargetSharesBounded(capital: real, to: seq<real>, price: seq<real>)
    requires |to| == |price|
    ensures var r := RoundFilled(VFillNa(Quotients(capital, to, price)));
      r.Ok? ==> Sized(r.value, capital, to, price)
  {
    var q := Quotients(capital, to, price);
    var filled := VFillNa(q);
    var r := RoundFilled(filled);
    if r.Ok? {
      var f := filled.value;
      var shares := r.value;
      assert shares == VStandardizeDealAmount(f).value;
      assert |f| == |to| > 0;
      FilledQuotient(capital, to, price, 0);
      var truncates := CastsToInt(q);
      assert truncates == TruncatesFirst(capital, to, price);
      forall i | 0 <= i < |to|
        ensures SizingChain(capital * to[i], price[i], q[i], f[i], shares[i], truncates)
      {
      }
      AllSized(capital, to, price, q, f, shares, truncates);
    }
  }

  /** One asset through the sizing: `raw` is the IEEE quotient of its
      capital share `a` over its price `p`, `cast` what `vfillna` made of
      it, and `share` the lot that rounds to. */
  predicate SizingChain(a: real, p: real, raw: Num, cast: Num, share: int, truncates: bool)
  {
    && raw == Divide(a, p) && cast.Val? && share == Lot(cast.v)
    && (!truncates ==> cast == FillNa(raw))
    && (truncates ==> FillNa(raw).Val? && TowardZero(cast.v, FillNa(raw).v))
  }

  lemma AllSized(capital: real, to: seq<real>, price: seq<real>, q: seq<Num>, f: seq<Num>,
                 shares: seq<int>, truncates: bool)
    requires |to| == |price| == |q| == |f| == |shares|
    requires forall i :: 0 <= i < |to| ==> SizingChain(capital * to[i], price[i], q[i], f[i], shares[i], truncates)
    ensures forall i :: 0 <= i < |to| ==> SizedShare(shares[i], capital * to[i], price[i], truncates)
  {
    forall i | 0 <= i < |to|
      ensures SizedShare(shares[i], capital * to[i], price[i], truncates)
    {
      ShareSized(capital * to[i], price[i], q[i], f[i], shares[i], truncates);
    }
  }

  /** One asset: its pipeline gives what `SizedShare` describes. */
  lemma ShareSized(a: real, p: real, raw: Num, cast: Num, share: int, truncates: bool)
    requires SizingChain(a, p, raw, cast, share, truncates)
    ensures SizedShare(share, a, p, truncates)
  {
    var g := FillNa(raw);
    if p == 0.0 {
      assert g == Val(0.0);
      ZeroShare(cast, share, truncates, g);
    } else if !truncates {
      assert cast == Val(a / p);
      RoundedShare(a, p, cast.v, share);
    } else {
      assert g == Val(a / p);
      TruncatedShare(a, p, g, cast, share);
    }
  }

  lemma ZeroShare(cast: Num, share: int, truncates: bool, filled: Num)
    requires filled == Val(0.0) && cast.Val? && share == Lot(cast.v)
    requires !truncates ==> cast == filled
    requires truncates ==> TowardZero(cast.v, filled.v)
    ensures share == 0
  {
    assert cast.v == 0.0;
    LotIdempotent(0);
  }

  lemma RoundedShare(a: real, p: real, q: real, share: int)
    requires p != 0.0 && q == a / p && share == Lot(q)
    ensures WithinLot(share, a, p)
  {
    QuotientTimesDivisor(a, p);
    LotValueError(share, q, p);
    assert share as real * p - a == share as real * p - q * p;
  }

  lemma TruncatedShare(a: real, p: real, filled: Num, cast: Num, share: int)
    requires p != 0.0 && filled == Val(a / p)
    requires cast.Val? && share == Lot(cast.v) && TowardZero(cast.v, filled.v)
    ensures share == Lot(Trunc(a / p) as real) && WithinTruncatedLot(share, a, p)
  {
    var q := filled.v;
    TowardZeroUnique(cast.v, Trunc(q) as real, q);
    TruncatedBound(a, p, q, cast.v, share);
  }

  lemma TruncatedBound(a: real, p: real, q: real, c: real, share: int)
    requires p != 0.0 && q == a / p
    requires TowardZero(c, q) && -50.0 <= share as real - c <= 50.0
    ensures WithinTruncatedLot(share, a, p)
  {
    QuotientTimesDivisor(a, p);
    TruncatedLotValueError(share, c, q, p);
    assert share as real * p - a == share as real * p - q * p;
  }

  lemma QuotientTimesDivisor(a: real, p: real)
    requires p != 0.0
    ensures a / p * p == a
  {
  }

  /** There is only one way to drop a fraction. */
  lemma TowardZeroUnique(a: real, b: real, v: real)
    requires TowardZero(a, v) && TowardZero(b, v)
    ensures a == b
  {
    var x, y := a.Floor, b.Floor;
    assert a == x as real && b == y as real;
    assert -1.0 < a - b < 1.0;
    assert -1 < x - y < 1;
  }

  /** Truncating loses less than one share and lot rounding moves at most
      50 more, so the value moves by less than 51 shares' worth. */
  lemma TruncatedLotValueError(share: int, c: real, q: real, p: real)
    requires p != 0.0
    requires TowardZero(c, q) && -50.0 <= share as real - c <= 50.0
    ensures Abs(share as real * p - q * p) < 51.0 * Abs(p)
  {
    var e := share as real - q;
    assert -1.0 < c - q < 1.0;
    assert Abs(e) < 51.0;
    assert Abs(p) > 0.0;
    AbsMul(e, p);
    MulStrict(Abs(e), 51.0, Abs(p));
    calc {
      Abs(share as real * p - q * p);
      { assert share as real * p - q * p == e * p; }
      Abs(e * p);
      Abs(e) * Abs(p);
    <
      51.0 * Abs(p);
    }
  }

  lemma MulStrict(x: real, y: real, c: real)
    requires x < y && c > 0.0
    ensures x * c < y * c
  {
    assert (y - x) * c > 0.0;
  }

  /** The int cast makes the lots depend on the order of the assets: 50.7
      shares round to a lot of 100 on their own, but behind a first asset
      with a zero price and a zero target they are truncated to 50 first and
      round to 0. */
  lemma TruncationDependsOnOrder()
    ensures TargetShares(1.0, [50.7, 0.0], [1.0, 0.0]) == Ok([100, 0])
    ensures TargetShares(1.0, [0.0, 50.7], [0.0, 1.0]) == Ok([0, 0])
  {
    var a := TargetShares(1.0, [50.7, 0.0], [1.0, 0.0]);
    assert !TruncatesFirst(1.0, [50.7, 0.0], [1.0, 0.0]);
    assert a.Ok? by {
      assert Sizable(1.0, 50.7, 1.0) && Sizable(1.0, 0.0, 0.0);
    }
    assert (0.507).Floor == 0;
    assert a.value[0] == Lot(50.7) == 100;
    assert a.value == [100, 0];
    var b := TargetShares(1.0, [0.0, 50.7], [0.0, 1.0]);
    assert TruncatesFirst(1.0, [0.0, 50.7], [0.0, 1.0]);
    assert b.Ok? by {
      assert Sizable(1.0, 0.0, 0.0) && Sizable(1.0, 50.7, 1.0);
    }
    assert (50.7).Floor == 50 && Trunc(50.7) == 50;
    assert (0.5).Floor == 0;
    assert b.value[1] == Lot(50.0) == 0;
    assert b.value == [0, 0];
  }

  /** The post-trade snapshot: balances at the new prices, cash equal to the
      marked capital minus the new balances, total capital as `np.dot(share,
      price) + cash` and positions as balance over total capital. */
  function PostTrade(marked: Series, n: nat, shares: seq<int>, price: seq<real>): (r: Snapshot)
    requires WellFormed(marked, n) && |shares| == n && |price| == n
    ensures r.share == shares && |r.balance| == n && |r.position| == n
    ensures forall i :: 0 <= i < n ==> r.balance[i] == shares[i] as real * price[i]
    ensures r.totalCapital == SumR(Last(marked.balance)) + Last(marked.cash)
    ensures r.totalCapital == SumR(r.balance) + r.cash
    ensures r.totalCapital == Dot(shares, price) + r.cash
    ensures forall i :: 0 <= i < n ==> r.position[i] == Divide(r.balance[i], r.totalCapital)
  {
    var balance := Mul(shares, price);
    var cash := SumR(Last(marked.balance)) + Last(marked.cash) - SumR(balance);
    var total := Dot(shares, price) + cash;
    DotIsSumOfProducts(shares, price);
    Snapshot(shares, balance, cash, total, DivideAll(balance, total))
  }

  /** The part of a rebalance after marking to market: size the targets
      from the capital basis, round them, and record the snapshot. It
      completes exactly when there is an asset and every zero price carries
      a zero sized target; the recorded share row is then the lot-rounded
      target and the other rows follow from it. On a raise the marked series
      is what is left. */
  function SizeAndRecord(marked: Series, n: nat, initialCapital: real,
                         to: seq<real>, price: seq<real>): (r: Outcome<Series>)
    requires WellFormed(marked, n) && |to| == n && |price| == n
    ensures WellFormed(r.value, n)
    ensures var c := CapitalBasis(Last(marked.totalCapital), initialCapital);
      r.Done? <==> n > 0 && forall i :: 0 <= i < n ==> Sizable(c, to[i], price[i])
    ensures r.Raised? ==> r.value == marked && r.error == (if n == 0 then EmptyInput else Overflow)
    ensures r.Done? ==>
              Sized(Last(r.value.share), CapitalBasis(Last(marked.totalCapital), initialCapital), to, price)
    ensures r.Done? ==>
              r.value == AddRecordSeries(marked, n, PostTrade(marked, n, Last(r.value.share), price))
  {
    var capital := CapitalBasis(Last(marked.totalCapital), initialCapital);
    match TargetShares(capital, to, price)
    case Err(e) => Raised(e, marked)
    case Ok(shares) => Done(AddRecordSeries(marked, n, PostTrade(marked, n, shares, price)))
  }

  /** One rebalance on the series. Validation failures leave the series
      untouched. Past validation it completes exactly when every zero price
      carries a zero sized target, and then records the lot-rounded target
      sized from the marked capital; a rounding overflow leaves the
      mark-to-market step that already happened. */
  function Trade(w: Series, n: nat, initialCapital: real, to: seq<real>, price: seq<real>)
    : (r: Outcome<Series>)
    requires WellFormed(w, n)
    ensures WellFormed(r.value, n)
    ensures Examine(n, to, price).Some? ==> r == Raised(Examine(n, to, price).value, w)
    ensures Examine(n, to, price).None? ==>
              var c := CapitalBasis(Last(MarkToMarket(w, n, price).totalCapital), initialCapital);
              && (r.Done? <==> n > 0 && forall i :: 0 <= i < n ==> Sizable(c, to[i], price[i]))
              && (r.Done? ==> Sized(Last(r.value.share), c, to, price))
    ensures Examine(n, to, price).None? && r.Raised?
            ==> r.error == (if n == 0 then EmptyInput else Overflow)
                && r.value == MarkToMarket(w, n, price)
  {
    match Examine(n, to, price)
    case Some(e) => Raised(e, w)
    case None =>
      var m := MarkToMarket(w, n, price);
      var r := SizeAndRecord(m, n, initialCapital, to, price);
      assert r.Raised? ==> r.value == m;
      r
  }

  /** `adjustPosition` on the ledger: the trade on the window, followed, when
      it completes, by the batching check of `_addRecord`. */
  function AdjustPosition(l: Ledger, to: seq<real>, price: seq<real>): (r: Outcome<Ledger>)
    requires Valid(l)
    ensures Valid(r.value)
    ensures r.value.cfg == l.cfg && r.value.initialCapital == l.initialCapital
    ensures r.value.count == l.count
    ensures Examine(l.cfg.n, to, price).Some?
            ==> r == Raised(Examine(l.cfg.n, to, price).value, l)
    ensures r.Raised? ==> r.value.archive == l.archive
  {
    match Trade(l.window, l.cfg.n, l.initialCapital, to, price)
    case Raised(e, w) => Raised(e, l.(window := w))
    case Done(w) => Done(Settle(l.(window := w)))
  }

  /** One iteration of the driving loop: `adjustPosition(to, price)` then
      `updateStatus()`. */
  datatype Order = Order(to: seq<real>, price: seq<real>)

  function StepOnce(l: Ledger, o: Order): (r: Outcome<Ledger>)
    requires Valid(l)
    ensures Valid(r.value)
  {
    match AdjustPosition(l, o.to, o.price)
    case Raised(e, l') => Raised(e, l')
    case Done(l') => UpdateStatus(l')
  }

  /** The driving loop over a sequence of orders, stopping at the first
      exception. */
  function Simulate(l: Ledger, orders: seq<Order>): (r: Outcome<Ledger>)
    requires Valid(l)
    ensures Valid(r.value)
    decreases |orders|
  {
    if |orders| == 0 then Done(l)
    else match StepOnce(l, orders[0])
      case Raised(e, l') => Raised(e, l')
      case Done(l') => Simulate(l', orders[1..])
  }

  // ---------------------------------------------------------------------
  // Properties of one rebalance

  /** Trading does not change total capital: after the trade the total
      capital is still the previous holdings valued at the new prices plus
      the previous cash, and it is booked as balances plus cash. The new P&L
      row adds up to the change against the previous balances and cash. */
  lemma CapitalConserved(w: Series, n: nat, initialCapital: real, to: seq<real>, price: seq<real>)
    requires WellFormed(w, n)
    requires Trade(w, n, initialCapital, to, price).Done?
    ensures var r := Trade(w, n, initialCapital, to, price).value;
      && Last(r.totalCapital) == SumR(Mul(Last(w.share), price)) + Last(w.cash)
      && Last(r.totalCapital) == Dot(Last(r.share), price) + Last(r.cash)
      && Last(r.totalCapital) == SumR(Last(r.balance)) + Last(r.cash)
      && SumR(Last(r.pnl)) == Last(r.totalCapital) - (SumR(Last(w.balance)) + Last(w.cash))
  {
    var m := MarkToMarket(w, n, price);
    var r := Trade(w, n, initialCapital, to, price).value;
    TradeRecords(w, n, initialCapital, to, price);
    var snap := PostTrade(m, n, Last(r.share), price);
    assert Last(r.totalCapital) == snap.totalCapital && Last(r.cash) == snap.cash;
    assert Last(r.balance) == snap.balance && Last(r.share) == snap.share && r.pnl == m.pnl;
    assert Last(m.balance) == Mul(Last(w.share), price);
  }

  /** A completed trade records the post-trade snapshot of its own share row
      on the marked series. */
  lemma TradeRecords(w: Series, n: nat, initialCapital: real, to: seq<real>, price: seq<real>)
    requires WellFormed(w, n)
    requires Trade(w, n, initialCapital, to, price).Done?
    ensures |to| == n && |price| == n
    ensures var m := MarkToMarket(w, n, price);
            var r := Trade(w, n, initialCapital, to, price).value;
      r == AddRecordSeries(m, n, PostTrade(m, n, Last(r.share), price))
  {
    assert Examine(n, to, price).None?;
  }

  /** Each completed trade adds exactly one entry to every series and changes
      nothing that was already recorded. */
  lemma TradeKeepsAlignment(w: Series, n: nat, initialCapital: real, to: seq<real>, price: seq<real>)
    requires Aligned(w, n)
    requires Trade(w, n, initialCapital, to, price).Done?
    ensures var r := Trade(w, n, initialCapital, to, price).value;
      && Aligned(r, n) && Steps(r) == Steps(w) + 1
      && r.totalCapital[..Steps(w)] == w.totalCapital
      && r.cash[..Steps(w)] == w.cash
      && r.balance[..Steps(w)] == w.balance
      && r.share[..Steps(w)] == w.share
      && r.position[..Steps(w)] == w.position
      && r.pnl[..Steps(w)] == w.pnl
  {
    var r := Trade(w, n, initialCapital, to, price).value;
    var m := MarkToMarket(w, n, price);
    TradeRecords(w, n, initialCapital, to, price);
    assert DropLast(m.totalCapital) == w.totalCapital;
    assert DropLast(m.balance) == w.balance;
  }

  /** The bookkeeping every completed history satisfies: each step's capital
      is its balances plus its cash, and each step's P&L row adds up to the
      change in total capital since the step before. */
  predicate Booked(s: Series, n: nat)
  {
    && Aligned(s, n)
    && (forall t :: 0 <= t < Steps(s) ==> s.totalCapital[t] == SumR(s.balance[t]) + s.cash[t])
    && (forall t :: 1 <= t < Steps(s) ==> SumR(s.pnl[t]) == s.totalCapital[t] - s.totalCapital[t - 1])
  }

  /** A fresh seed is booked. */
  lemma SeedBooked(capital: real, n: nat)
    ensures Booked(Seed(capital, n), n)
  {
    var s := Seed(capital, n);
    ZerosSum(n);
    assert s.balance[0] == Zeros(n);
  }

  lemma {:induction false} ZerosSum(n: nat)
    ensures SumR(Zeros(n)) == 0.0
  {
    if n > 0 {
      assert Zeros(n)[..n - 1] == Zeros(n - 1);
      ZerosSum(n - 1);
    }
  }

  /** Completed trades keep the books: the new P&L row explains exactly the
      change in total capital. */
  lemma TradeKeepsBooks(w: Series, n: nat, initialCapital: real, to: seq<real>, price: seq<real>)
    requires Booked(w, n)
    requires Trade(w, n, initialCapital, to, price).Done?
    ensures Booked(Trade(w, n, initialCapital, to, price).value, n)
  {
    var r := Trade(w, n, initialCapital, to, price).value;
    TradeKeepsAlignment(w, n, initialCapital, to, price);
    CapitalConserved(w, n, initialCapital, to, price);
    ExtendBooks(w, r, n);
  }

  /** A one-step extension of a booked history that books its new step is booked. */
  lemma ExtendBooks(w: Series, r: Series, n: nat)
    requires Booked(w, n) && Aligned(r, n) && Steps(r) == Steps(w) + 1
    requires r.totalCapital[..Steps(w)] == w.totalCapital && r.cash[..Steps(w)] == w.cash
    requires r.balance[..Steps(w)] == w.balance && r.pnl[..Steps(w)] == w.pnl
    requires Last(r.totalCapital) == SumR(Last(r.balance)) + Last(r.cash)
    requires SumR(Last(r.pnl)) == Last(r.totalCapital) - (SumR(Last(w.balance)) + Last(w.cash))
    ensures Booked(r, n)
  {
    var k := Steps(w);
    forall t | 0 <= t < Steps(r)
      ensures r.totalCapital[t] == SumR(r.balance[t]) + r.cash[t]
    {
      if t < k {
        assert r.totalCapital[t] == w.totalCapital[t];
        assert r.balance[t] == w.balance[t];
        assert r.cash[t] == w.cash[t];
      }
    }
    forall t | 1 <= t < Steps(r)
      ensures SumR(r.pnl[t]) == r.totalCapital[t] - r.totalCapital[t - 1]
    {
      assert r.totalCapital[t - 1] == w.totalCapital[t - 1];
      if t < k {
        assert r.totalCapital[t] == w.totalCapital[t];
        assert r.pnl[t] == w.pnl[t];
      } else {
        assert w.totalCapital[k - 1] == SumR(w.balance[k - 1]) + w.cash[k - 1];
      }
    }
  }

  /** The over-allocation guard as written lets a 150% target through: with
      a threshold of 100001 only absurd sums are refused. */
  lemma OverAllocationThreshold()
    ensures Examine(1, [1.5], [10.0]).None?
    ensures Examine(1, [100001.5], [10.0]) == Some(OverAllocation)
    ensures Examine(2, [-60000.0, -50000.0], [1.0, 1.0]) == Some(OverAllocation)
  {
    assert [1.5][..0] == [];
    assert [100001.5][..0] == [];
    assert [-60000.0, -50000.0][..1] == [-60000.0];
    assert [-60000.0][..0] == [];
  }
}
