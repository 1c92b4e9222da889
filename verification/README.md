# pyback backtest core in Dafny

A model of the portfolio backtest engine of pyback and of its result
analytics.

A `BackTest` keeps six parallel series: total capital, cash, and the
per-asset balance, share, position and P&L rows. Each call to
`adjustPosition(to, price)` does four things in order:

- validates its inputs;
- marks the previous holdings to market at the new prices;
- sizes target share counts from a capital basis and rounds them to board
  lots of 100;
- records the post-trade snapshot, with cash absorbing the rounding residual.

`updateStatus()` counts the step and compounds the capital basis every
`compound` steps. When the count reaches the length of the time index it
finalises the run.

With batching on, the series are archived whenever the window reaches
`batch_size` steps, keeping only its last step. After the first archive
that happens every `batch_size - 1` rebalances. The archived batches are
stitched back together at finalisation. A `Summary` then drops the seed row
and derives the step P&L, the step returns and the net value. It also
computes the annualisation factor, the yearly return and the maximum
drawdown over the whole run and per calendar year.

Modules, one per concern:

- `Outcomes` (`outcomes.dfy`): the exceptions the code raises and the
  `Result`/`Outcome` wrappers. An `Outcome` carries the state an exception
  leaves behind.
- `Numeric` (`numeric.dfy`): exact reals in place of float64, with the IEEE
  NaN and infinities that a division by zero produces. Also the vector sums
  and products the code uses.
- `Func` (`func.dfy`): `fillna`, `standardizeDealAmount` (Python's
  ties-to-even `round`) and their element-wise forms.
- `Ledger` (`ledger.dfy`): the series, construction, `_updateHoldings`,
  `_addRecord`, `_batching`, `_pack_batches`, `_compound_returns`,
  `_final_work` and `updateStatus`.
  - A flat numpy array that always grows by N entries is a sequence of N-wide
    rows, so `x[-N:]` is the last row.
  - The global `COUNT` is a field of the ledger.
- `Rebalance` (`rebalance.dfy`): `_inputExamination` and
  `StockBackTest.adjustPosition`. `OptionBackTest.adjustPosition` is a
  line-for-line copy, so the same model covers it. Also the driving loop:
  `adjustPosition` then `updateStatus` for each order.
- `Lossless` (`lossless.dfy`): batching changes nothing observable. Every
  step reads and rewrites only the tail of the series, so it commutes with
  putting archived history in front.
- `Drawdowns` (`drawdown.dfy`): `_max_drawdown`, with closed forms for the
  drawdown and both dates, and the per-year grouping.
- `Analytics` (`summary.dfy`): `Summary.__init__`, `yearlyReturn`,
  `maxDrawdown` and `maxDrawdownYearly`.

Where the documentation and the code disagree, the model follows the code:

- The docstring of `adjustPosition` says a target above 100% raises at once.
  `_inputExamination` compares `abs(to.sum())` with `1+1e5`, which is
  100001. A 150% target therefore passes, and weights of opposite sign can
  cancel. See `Rebalance.OverAllocationThreshold`.
- A failed validation leaves the backtest untouched.
- A nonzero target weight over a zero price is different. It is an infinity
  that `fillna` keeps, so `round` raises OverflowError. By then
  `_updateHoldings` has already appended the mark-to-market step, and the
  model returns that partly updated series with the error.
- The dates `_max_drawdown` reports belong to the last run of new lows that
  was closed by an ordinary row. That need not be the deepest run (see
  `Drawdowns.DatesMayPredateWorstRun`). The dates stay 0 when no run has
  closed.
- Without a declared frequency, an index sampled more often than daily gives
  a frequency of 0 whole days. The sub-daily branch then computes `42/0` and
  raises ZeroDivisionError (see `Analytics.IntradayIndexRaises`).
- `vfillna` has no declared output type, so numpy takes the type of
  `fillna` on the first quotient. When that quotient is 0/0, `fillna`
  returns the int 0 and the whole array is cast with `int`. Every other
  quotient is then truncated toward zero before lot rounding, and an
  infinity raises OverflowError already there. The lots therefore depend on
  the order of the assets (see `Rebalance.TruncationDependsOnOrder`).
- With no assets at all, `np.vectorize` raises ValueError on the empty
  array.
- `_pack_batches` does not empty the archive, so a second finalisation would
  put the archive in front again. The lossless theorems are stated for runs
  that finalise at most once.

## Model

| member | source | states |
|---|---|---|
| Func.FillNa | core/func.py:3-4 | NaN becomes 0; every other value, infinities included, passes unchanged; the result is never NaN |
| Func.Trunc | core/func.py:3-6 | Python's `int` on a finite float: the fraction is dropped toward zero |
| Func.VFillNa | core/func.py:3-6 | an empty array raises ValueError; the result is an int array exactly when the first element is NaN, and then raises OverflowError exactly when some element is infinite and otherwise holds every filled value truncated toward zero; without the cast, `fillna` at every position |
| Func.RoundHalfEven | core/func.py:9 | Python's `round`: within one half of the argument, and an exact tie goes to the even integer |
| Func.Lot | core/func.py:8-9 | the rounded amount is a multiple of 100 and within 50 of the input |
| Func.StandardizeDealAmount | core/func.py:8-9 | finite input gives its lot; NaN raises ValueError; an infinity raises OverflowError |
| Func.VStandardizeDealAmount | core/func.py:8-11 | an empty array raises ValueError; otherwise succeeds exactly when every element is finite, with element-wise lots, and else raises the error of the first non-finite element |
| Func.LotIdempotent | core/func.py:9 | a multiple of 100 is left alone |
| Func.LotTwice | core/func.py:9 | rounding twice is rounding once |
| Func.RoundMonotone | core/func.py:9 | `round` never decreases as its argument grows |
| Func.LotMonotone | core/func.py:8-9 | lot rounding is monotone |
| Func.LotTiesToEven | core/func.py:9 | 50 rounds to 0, 150 to 200, 250 to 200, -50 to 0, 49 to 0, 51 to 100 |
| Numeric.DotIsSumOfProducts | core/backtest.py:298-299 | `np.dot(share, price)` equals the sum of the element-wise balances |
| Numeric.SumSub | core/backtest.py:151-156 | the sum of the P&L row is the marked balance sum minus the previous balance sum |
| Ledger.Seed | core/backtest.py:19-29 | one aligned step holding the capital as cash with zero balance, share, position and P&L rows |
| Ledger.Init | core/backtest.py:75-84 | a negative compound cycle raises; otherwise a fresh ledger with the seed step, empty archive, zero counter and the capital as basis |
| Ledger.MarkToMarket | core/backtest.py:150-157 | appends balance = previous shares times price, P&L = new minus previous balance, total = balance sum plus last cash; cash, shares, positions untouched; P&L sum equals the change in marked capital |
| Ledger.AddRecordSeries | core/backtest.py:95-101 | appends position, share and cash rows; overwrites the last balance row and total capital; leaves P&L |
| Ledger.Batching | core/backtest.py:105-115 | archives the window, keeps one step in every series, preserves the last total capital and the stitched series |
| Ledger.PackIsPrepend | core/backtest.py:117-132 | the reversed stitching loop puts every archived batch, minus its last step, in order in front of the window |
| Ledger.PackBatches | core/backtest.py:117-132 | the window becomes the full stitched series, the archive is kept |
| Ledger.Settle | core/backtest.py:102-103 | archives exactly when batching is on and the window has reached the batch size, otherwise changes nothing; the full series never changes |
| Ledger.CompoundReturns | core/backtest.py:186-188 | on a multiple of the cycle the basis becomes the latest total capital, otherwise it stays |
| Ledger.FinalWork | core/backtest.py:190-193 | resets the counter and packs the batches |
| Ledger.UpdateStatus | core/backtest.py:166-184 | counts the step, compounds on cycle boundaries, raises without a time index or on an empty one, finalises exactly when the count reaches the index length |
| Rebalance.Examine | core/backtest.py:135-147 | checks price length, then the absolute target sum against 100001, then target length; passes exactly when all three hold |
| Rebalance.OverAllocationThreshold | core/backtest.py:141-143 | a 150% target passes; 100001.5 and a sum of -110000 are refused |
| Rebalance.CapitalBasis | core/backtest.py:275-278 | the smaller of latest total capital and basis, and one of them |
| Rebalance.Quotients | core/backtest.py:276-280 | each raw target is the IEEE quotient of capital times weight over price |
| Rebalance.FilledQuotient | core/backtest.py:280-281 | a filled quotient is finite exactly for a nonzero price or a zero numerator, and infinite exactly otherwise; at a zero price a finite one is 0, over a nonzero price it is capital share over price; the array is cast to int exactly when the first quotient is 0/0 |
| Rebalance.LotValueError | core/backtest.py:282-288 | rounding shares within 50 moves their value by at most 50 times the price |
| Rebalance.TargetShares | core/backtest.py:275-282 | succeeds exactly when there is an asset and no weight meets a zero price with nonzero capital; no assets raise ValueError, a nonzero weight over a zero price OverflowError; each share is a lot multiple, 0 at a zero price, otherwise the lot of capital share over price within 50 shares' value, or, when the first quotient is 0/0, the lot of that quotient truncated toward zero, within 51 shares' value |
| Rebalance.TargetSharesOutcome | core/backtest.py:280-282 | when the rounding succeeds and which error it raises |
| Rebalance.TargetSharesBounded | core/backtest.py:280-282 | a successful rounding sizes every asset as above, with or without the int cast |
| Rebalance.TruncatedLotValueError | core/backtest.py:280-282 | truncating a quotient toward zero and then rounding it to a lot moves the share value by less than 51 shares' worth |
| Rebalance.TruncationDependsOnOrder | core/backtest.py:280-282 | 50.7 shares round to 100 when their asset comes first, but to 0 behind an asset with a zero price and a zero weight |
| Rebalance.PostTrade | core/backtest.py:284-301 | balances are shares times price, total capital equals the marked capital and the dot product plus cash, positions are balance over total |
| Rebalance.SizeAndRecord | core/backtest.py:273-303 | completes exactly when there is an asset and every zero price carries a zero sized target; then the recorded share row is the sized target from the capital basis and the step is the post-trade snapshot of it; otherwise ValueError or OverflowError with the marked series left |
| Rebalance.Trade | core/backtest.py:268-303 | a validation failure raises with the series untouched; past validation it completes exactly when every zero price carries a zero sized target, recording the sized target from the marked capital, and otherwise raises with the marked series |
| Rebalance.TradeRecords | core/backtest.py:284-303 | a completed trade appends the post-trade snapshot of its own share row to the marked series |
| Rebalance.AdjustPosition | core/backtest.py:270-303 | config, basis and counter unchanged; validation failure raises with the ledger untouched; a raise never archives |
| Rebalance.CapitalConserved | core/backtest.py:288-301 | the post-trade total capital equals the old holdings at new prices plus old cash, the dot product plus new cash and the balance sum plus new cash; the new P&L row sums to the change |
| Rebalance.TradeKeepsAlignment | core/backtest.py:150-157 | a completed trade adds exactly one entry to every series and keeps every earlier entry |
| Rebalance.SeedBooked | core/backtest.py:19-29 | the seed step balances: total capital equals balances plus cash |
| Rebalance.TradeKeepsBooks | core/backtest.py:288-301 | a completed trade keeps every step balanced and every P&L row equal to the change in total capital |
| Lossless.MarkToMarketCommutes | core/backtest.py:150-157 | marking after archived history equals history in front of the marked window |
| Lossless.AddRecordCommutes | core/backtest.py:95-101 | recording after archived history equals history in front of the recorded window |
| Lossless.SizeAndRecordCommutes | core/backtest.py:273-303 | sizing and recording after history is history in front of the window's result |
| Lossless.TradeCommutes | core/backtest.py:270-303 | a rebalance after history is history in front of the window's rebalance, with the same outcome and error |
| Lossless.AdjustPositionOnFullSeries | core/backtest.py:270-303 | on the stitched series `adjustPosition` is the rebalance of the stitched series |
| Lossless.AdjustPositionMirrors | core/backtest.py:270-303 | two ledgers with equal stitched series stay so after a rebalance, with equal outcomes |
| Lossless.UpdateStatusMirrors | core/backtest.py:166-193 | `updateStatus` keeps mirrored ledgers mirrored, and finalisation gives both the same window |
| Lossless.BatchingIsLossless | core/backtest.py:102-132 | mirrored ledgers run the same orders to the same outcome and stitched series; the finalising step gives identical windows |
| Lossless.UnbatchedKeepsNoArchive | core/backtest.py:102-103 | without batching the archive stays empty |
| Lossless.PackedRunMatchesUnbatched | core/backtest.py:102-132 | from the same start, a batched run after packing holds exactly the unbatched run's series, with the same outcome |
| Lossless.RunKeepsBooks | core/backtest.py:150-157 | over a whole run every step stays balanced and starts from the initial capital; the finalised window is balanced |
| Lossless.AdjustPositionKeepsBooks | core/backtest.py:284-303 | a completed rebalance keeps the stitched series balanced and starting from the same capital |
| Lossless.FreshLedgerBooked | core/backtest.py:19-29 | a new backtest's series balance and start from the capital |
| Drawdowns.Run | summation/summary.py:89-108 | the running peak never falls below the first net value |
| Drawdowns.PeakIsMax | summation/summary.py:94-96 | the running peak is the largest net value so far and one of them |
| Drawdowns.WorstIsLeastDip | summation/summary.py:99-102 | the worst drawdown is at most every net value over its running peak minus 1, and is 0 or attained |
| Drawdowns.ScanClosedForm | summation/summary.py:89-107 | the loop state equals the closed forms: peak, worst dip, anchor, open flag exactly when the previous row set a new low, and the dates of the last closed run |
| Drawdowns.AnchorIsLastStrictPeak | summation/summary.py:94-96 | the anchor is the date of the last strict new peak, 0 when there is none |
| Drawdowns.DatesOfLastClosedRun | summation/summary.py:99-107 | both dates are 0 exactly when no run has closed; otherwise the anchor before and the date of the last closing row |
| Drawdowns.MaxDrawdown | summation/summary.py:85-109 | an empty frame raises; otherwise the worst dip, never positive, with the closed-form dates |
| Drawdowns.DrawdownIsLeastDip | summation/summary.py:89-102 | the drawdown is min(0, minimum over rows of net value over running peak minus 1) |
| Drawdowns.EqualToPeakKeepsAnchor | summation/summary.py:94-107 | a net value equal to the peak changes neither peak, drawdown nor anchor, and closes an open run |
| Drawdowns.TroughAtEndKeepsZeroDates | summation/summary.py:89-109 | with the trough at the last row the dates stay 0 |
| Drawdowns.DatesMayPredateWorstRun | summation/summary.py:89-109 | for 1, 1.2, 0.9, 0.95, 1.3, 0.8 the drawdown is 0.8/1.3-1 with the first dip's dates |
| Drawdowns.YearRows | summation/summary.py:78-81 | the year's rows are rows of the frame and all of that year, and every row of the frame in that year is among them |
| Drawdowns.YearRowsAppend | summation/summary.py:79-81 | grouping keeps frame order: the year's rows of a concatenation are those of the first part followed by those of the second |
| Drawdowns.YearRowsSingle | summation/summary.py:79-81 | a single row is kept exactly when it is of the year |
| Drawdowns.AllPositiveYears | summation/summary.py:79-89 | positive net values give every year a positive first net value for its scan |
| Drawdowns.YearRowsNonEmpty | summation/summary.py:79-81 | every year that occurs has rows |
| Drawdowns.YearRowSource | summation/summary.py:79-81 | each year row comes from a frame row, with everything before it from the frame before it |
| Drawdowns.MaxDrawdownYearly | summation/summary.py:74-83 | one entry per year that occurs, each the scan of that year's rows; needs only each year's first net value positive |
| Drawdowns.WholeAtLeastAsSevere | summation/summary.py:61-83 | the whole-run drawdown is at most every yearly drawdown |
| Analytics.DaysBetween | summation/summary.py:28 | whole days between two labels, rounded down |
| Analytics.Frequency | summation/summary.py:27-31 | the declared frequency when there is one; otherwise the first gap, raising IndexError on fewer than two labels |
| Analytics.AnnualFactor | summation/summary.py:32-35 | 252 over the frequency from 1 day on, 42 over it below; 0 days raises; positive exactly for positive frequencies |
| Analytics.DropFirst | summation/summary.py:12-21 | Python's `xs[1:]`: every entry but the first, empty when the series is |
| Analytics.RaisedTradeSummarisable | core/backtest.py:270-282 | a rebalance that raised after marking to market leaves one more capital and P&L step, cash, share and position series one step short, and a window the summary accepts |
| Analytics.MakeSummary | summation/summary.py:7-37 | on completed and half-updated windows alike: the error order (no steps, no index, short index, zero frequency); every series without its seed row; the derived sums, returns, net values and factor |
| Analytics.IntradayIndexRaises | summation/summary.py:27-35 | sub-daily labels without a declared frequency make the summary divide by zero |
| Analytics.NetValueStartsAtOne | summation/summary.py:24 | the net value starts at 1 exactly when the first total capital is nonzero, then tracks capital relative to it; otherwise every net value is non-finite |
| Analytics.SumPctIsStepReturn | summation/summary.py:22-23 | the step return times the total capital is the step's summed P&L; at zero capital it is non-finite |
| Analytics.TotalPnlTelescopes | summation/summary.py:22 | on balanced series the summed step P&L equals last minus first total capital |
| Analytics.FinishedRunTotalPnl | summation/summary.py:12-22 | after a complete run, batched or not, the summed P&L equals final total capital minus starting capital |
| Analytics.YearlyReturnIsAnnualisedMean | summation/summary.py:53-55 | the yearly return is finite exactly when all step returns are, and is their mean times the factor |
| Analytics.FiniteNetValueStartsAtOne | summation/summary.py:24 | a finite net value series starts at 1 |
| Analytics.SummaryMaxDrawdown | summation/summary.py:61-71 | a label-count mismatch raises; otherwise the scan of the net value frame, never positive |
| Analytics.SummaryMaxDrawdownYearly | summation/summary.py:73-83 | one scan per calendar year of the labels |
| Analytics.SummaryWholeAtLeastAsSevere | summation/summary.py:61-83 | the whole-run drawdown is at least as severe as each yearly one |

## Left out

- core/data.py, core/option_func.py, summation/plot.py and the strategy code are not part of this model.
- Arbitrage `openPosition`/`closePosition`, the factor store and `__getitem__` are outside the modelled core.
- Progress printing, timing, warnings and `info`/`to_frame`/plotting of a summary are output only.
- `yearlyReturnStd` and `sharpe` need a standard deviation and a square root; they are left out.
- The `frequency` setter parses a pandas offset string; offset parsing is not modelled.
- Building the time index from a `start:end:freq` string, and the KeyError for other index types, are pandas calls. The index is given as labels with an optional whole-day frequency.
- All inputs are exact reals. Float64 rounding, overflow to infinity and signed zero are not modelled; a zero divisor counts as +0.0.
- Target weights and prices are finite. NaN or infinite inputs are not modelled.
- numpy broadcasting of length-1 vectors is not modelled; length mismatches beyond the checked ones are excluded.
- `COUNT` is a module global shared by every backtest and reset by `__del__`. It is modelled as one counter per ledger.
- Ledger.Init: requires `assetCapacity > 0`, and `compound` is an integer. The non-integer branch of the compound check is not modelled.
- Ledger.UpdateStatus: `len(None)` raising TypeError is modelled as a missing-time-index error.
- Analytics.MakeSummary: requires one P&L row per total capital entry. Completed steps and raises after marking to market both keep that (`TradeKeepsAlignment`, `RaisedTradeSummarisable`), but the ledger invariant does not carry it, so it is not derived for an arbitrary run of raises and later rebalances.
- Drawdowns.MaxDrawdown: requires a positive first net value. A zero peak would make numpy divide by zero.
- Drawdowns.MaxDrawdownYearly: requires each year's first net value positive. The source divides by it and needs it only nonzero; a negative running peak is not modelled. The whole-versus-yearly comparison requires every net value positive.
- Analytics.SummaryMaxDrawdownYearly: requires finite net values, as `Analytics.SummaryMaxDrawdown` does, and each year's first net value positive, as above, where the source needs it only nonzero. NaN rows in the yearly scans are not modelled.
- Func.VFillNa: the int cast is to int64; a finite quotient outside the int64 range is not modelled.
- Analytics.SummaryMaxDrawdown: requires finite net values. NaN rows in the scan are not modelled.
- Drawdowns.Run: the scan walks rows by position. Label lookups with duplicate time labels are not modelled.
- Lossless.BatchingIsLossless: stated for runs that finalise at most once, because packing does not empty the archive.
- Analytics.Frequency: `freq.delta.days` raising for non-fixed offsets is not modelled. A declared frequency is a whole number of days.
