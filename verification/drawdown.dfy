/** The maximum-drawdown scan of summation/summary.py (`_max_drawdown`) and
    its per-year form, with closed-form characterisations of everything the
    scan returns: the drawdown is the worst ratio of a net value to the
    running peak, and the two dates come from the last run of new lows that
    was closed by an ordinary row. */
module Drawdowns {
  import opened Outcomes
  import opened Ledger

  /** One row of the frame the scan walks: a net value and its time label. */
  datatype Row = Row(nav: real, at: Stamp)

  /** A date the scan reports: the integer 0 it starts from, or a label. */
  datatype Date = Zero | On(stamp: Stamp)

  /** `(max_draw_down, start_date, end_date)`. */
  datatype Drawdown = Drawdown(value: real, start: Date, end: Date)

  /** The loop variables of `_max_drawdown`: `max_draw_down`,
      `temp_max_value`, `start_date`, `end_date`, `current_start_date` and
      `continous`. */
  datatype Scan = Scan(worst: real, peak: real, start: Date, end: Date, anchor: Date, open: bool)

  predicate StartsPositive(rows: seq<Row>)
  {
    |rows| > 0 && rows[0].nav > 0.0
  }

  function Max(a: real, b: real): real { if a < b then b else a }

  function Min(a: real, b: real): real { if b < a then b else a }

  lemma DivSelf(x: real)
    requires x > 0.0
    ensures x / x == 1.0
  {
  }

  // ---------------------------------------------------------------------
  // The scan as written

  /** One iteration of the loop body. */
  function Step(st: Scan, row: Row): (r: Scan)
    requires st.peak > 0.0
    ensures r.peak >= st.peak
  {
    if st.peak < row.nav then
      st.(anchor := On(row.at), peak := Max(st.peak, row.nav), open := false)
    else if st.worst > row.nav / st.peak - 1.0 then
      st.(open := true, worst := row.nav / st.peak - 1.0)
    else if st.open then
      st.(open := false, start := st.anchor, end := On(row.at))
    else
      st
  }

  /** The loop state after the first `k` rows. */
  function Run(rows: seq<Row>, k: nat): (st: Scan)
    requires StartsPositive(rows) && k <= |rows|
    ensures st.peak >= rows[0].nav
    decreases k
  {
    if k == 0 then Scan(0.0, rows[0].nav, Zero, Zero, Zero, false)
    else Step(Run(rows, k - 1), rows[k - 1])
  }

  // ---------------------------------------------------------------------
  // Closed forms

  /** The running peak `max(nav[0..k))`, or `nav[0]` before any row. */
  function Peak(rows: seq<Row>, k: nat): (r: real)
    requires |rows| > 0 && k <= |rows|
    ensures rows[0].nav <= r
    decreases k
  {
    if k == 0 then rows[0].nav else Max(Peak(rows, k - 1), rows[k - 1].nav)
  }

  /** The drawdown at row `i`: its net value against the peak up to and
      including it. */
  function Dip(rows: seq<Row>, i: nat): real
    requires StartsPositive(rows) && i < |rows|
  {
    rows[i].nav / Peak(rows, i + 1) - 1.0
  }

  /** `min(0, min of Dip(rows, i) for i < k)`. */
  function Worst(rows: seq<Row>, k: nat): (r: real)
    requires StartsPositive(rows) && k <= |rows|
    ensures r <= 0.0
    decreases k
  {
    if k == 0 then 0.0 else Min(Worst(rows, k - 1), Dip(rows, k - 1))
  }

  /** The running peak is the largest net value seen, and one of them. */
  lemma {:induction false} PeakIsMax(rows: seq<Row>, k: nat)
    requires |rows| > 0 && k <= |rows|
    ensures forall i :: 0 <= i < k ==> rows[i].nav <= Peak(rows, k)
    ensures Peak(rows, k) == rows[0].nav || exists i :: 0 <= i < k && Peak(rows, k) == rows[i].nav
    decreases k
  {
    if k > 0 {
      PeakIsMax(rows, k - 1);
    }
  }

  /** The worst dip is at most every dip so far, and either 0 or one of them. */
  lemma {:induction false} WorstIsLeastDip(rows: seq<Row>, k: nat)
    requires StartsPositive(rows) && k <= |rows|
    ensures forall i :: 0 <= i < k ==> Worst(rows, k) <= Dip(rows, i)
    ensures Worst(rows, k) == 0.0 || exists i :: 0 <= i < k && Worst(rows, k) == Dip(rows, i)
    decreases k
  {
    if k > 0 {
      WorstIsLeastDip(rows, k - 1);
    }
  }

  /** Row `i` lifts the peak strictly. */
  predicate NewPeak(rows: seq<Row>, i: nat)
    requires StartsPositive(rows) && i < |rows|
  {
    Peak(rows, i) < rows[i].nav
  }

  /** Row `i` sets a strictly worse drawdown. */
  predicate NewLow(rows: seq<Row>, i: nat)
    requires StartsPositive(rows) && i < |rows|
  {
    Dip(rows, i) < Worst(rows, i)
  }

  /** Row `j` closes a run: the row before it set a new low and row `j`
      sets neither a new peak nor a new low. */
  predicate Closes(rows: seq<Row>, j: nat)
    requires StartsPositive(rows) && j < |rows|
  {
    1 <= j && NewLow(rows, j - 1) && !NewPeak(rows, j) && !NewLow(rows, j)
  }

  /** The last position below `k` whose flag is set. */
  function LastSet(flags: seq<bool>, k: nat): (r: Option<nat>)
    requires k <= |flags|
    ensures r.None? <==> forall i :: 0 <= i < k ==> !flags[i]
    ensures r.Some? ==> r.value < k && flags[r.value]
                        && forall j :: r.value < j < k ==> !flags[j]
    decreases k
  {
    if k == 0 then None
    else if flags[k - 1] then Some(k - 1)
    else LastSet(flags, k - 1)
  }

  function PeakFlags(rows: seq<Row>): (r: seq<bool>)
    requires StartsPositive(rows)
    ensures |r| == |rows| && forall i :: 0 <= i < |rows| ==> r[i] == NewPeak(rows, i)
  {
    seq(|rows|, i requires 0 <= i < |rows| => NewPeak(rows, i))
  }

  function CloseFlags(rows: seq<Row>): (r: seq<bool>)
    requires StartsPositive(rows)
    ensures |r| == |rows| && forall i :: 0 <= i < |rows| ==> r[i] == Closes(rows, i)
  {
    seq(|rows|, i requires 0 <= i < |rows| => Closes(rows, i))
  }

  /** The date of the last strict new peak among the first `k` rows, or 0
      when the peak is still the first row's. */
  function Anchor(rows: seq<Row>, k: nat): Date
    requires StartsPositive(rows) && k <= |rows|
  {
    match LastSet(PeakFlags(rows), k)
    case None => Zero
    case Some(i) => On(rows[i].at)
  }

  /** The dates the scan reports after `k` rows: the anchor and the date of
      the last closing row, or 0 and 0 when no run has closed. */
  function Dates(rows: seq<Row>, k: nat): (Date, Date)
    requires StartsPositive(rows) && k <= |rows|
  {
    match LastSet(CloseFlags(rows), k)
    case None => (Zero, Zero)
    case Some(j) => (Anchor(rows, j), On(rows[j].at))
  }

  /** The loop state after `k` rows agrees with the closed forms. */
  predicate Matches(rows: seq<Row>, k: nat, st: Scan)
    requires StartsPositive(rows) && k <= |rows|
  {
    && st.peak == Peak(rows, k)
    && st.worst == Worst(rows, k)
    && st.anchor == Anchor(rows, k)
    && (st.open <==> 1 <= k && NewLow(rows, k - 1))
    && (st.start, st.end) == Dates(rows, k)
  }

  /** One loop iteration keeps the state in agreement with the closed forms. */
  lemma StepMatches(rows: seq<Row>, i: nat, st: Scan)
    requires StartsPositive(rows) && i < |rows| && Matches(rows, i, st)
    ensures st.peak > 0.0 && Matches(rows, i + 1, Step(st, rows[i]))
  {
    var row := rows[i];
    var peaks, closes := PeakFlags(rows), CloseFlags(rows);
    assert LastSet(peaks, i + 1) == if peaks[i] then Some(i) else LastSet(peaks, i);
    assert LastSet(closes, i + 1) == if closes[i] then Some(i) else LastSet(closes, i);
    if st.peak < row.nav {
      assert Peak(rows, i + 1) == row.nav;
      DivSelf(row.nav);
      assert Dip(rows, i) == 0.0;
      assert NewPeak(rows, i) && !NewLow(rows, i) && !Closes(rows, i);
    } else {
      assert Peak(rows, i + 1) == Peak(rows, i);
      assert Dip(rows, i) == row.nav / st.peak - 1.0;
      assert !NewPeak(rows, i);
      if st.worst > row.nav / st.peak - 1.0 {
        assert NewLow(rows, i) && !Closes(rows, i);
      } else {
        assert !NewLow(rows, i);
        assert Closes(rows, i) <==> st.open;
      }
    }
  }

  /** The scan computes the closed forms: the running peak, the worst dip,
      the last peak's date, whether the previous row set a new low, and the
      dates of the last closed run. */
  lemma {:induction false} ScanClosedForm(rows: seq<Row>, k: nat)
    requires StartsPositive(rows) && k <= |rows|
    ensures Matches(rows, k, Run(rows, k))
    decreases k
  {
    if k > 0 {
      ScanClosedForm(rows, k - 1);
      StepMatches(rows, k - 1, Run(rows, k - 1));
    }
  }

  /** The anchor is the date of the last row that lifted the peak strictly;
      a row equal to the peak never becomes the anchor. */
  lemma AnchorIsLastStrictPeak(rows: seq<Row>, k: nat)
    requires StartsPositive(rows) && k <= |rows|
    ensures Anchor(rows, k) == Zero <==> forall i :: 0 <= i < k ==> !NewPeak(rows, i)
    ensures Anchor(rows, k).On? ==>
              exists i :: 0 <= i < k && NewPeak(rows, i) && Anchor(rows, k).stamp == rows[i].at
                          && forall j :: i < j < k ==> !NewPeak(rows, j)
  {
    var peaks := PeakFlags(rows);
    if LastSet(peaks, k).None? {
      assert forall i :: 0 <= i < k ==> !peaks[i];
    } else {
      var i := LastSet(peaks, k).value;
      assert NewPeak(rows, i) && forall j :: i < j < k ==> !peaks[j];
    }
  }

  /** Both dates stay 0 until a run closes; afterwards the end date is the
      last closing row and the start date the anchor just before it. */
  lemma DatesOfLastClosedRun(rows: seq<Row>, k: nat)
    requires StartsPositive(rows) && k <= |rows|
    ensures (forall j :: 0 <= j < k ==> !Closes(rows, j)) <==> Dates(rows, k) == (Zero, Zero)
    ensures forall j :: 0 <= j < k && Closes(rows, j) && (forall m :: j < m < k ==> !Closes(rows, m))
              ==> Dates(rows, k) == (Anchor(rows, j), On(rows[j].at))
  {
    var closes := CloseFlags(rows);
    var r := LastSet(closes, k);
    if r.None? {
      assert forall j :: 0 <= j < k ==> !closes[j];
    } else {
      var c := r.value;
      assert closes[c] && forall j :: c < j < k ==> !closes[j];
      forall j | 0 <= j < k && closes[j] && (forall m :: j < m < k ==> !closes[m])
        ensures j == c
      {
      }
    }
  }

  // ---------------------------------------------------------------------
  // `_max_drawdown`

  /** `_max_drawdown` on a frame: `iloc[0]` of an empty frame raises;
      otherwise the scan's result, which is never positive and is given by
      the closed forms above. */
  function MaxDrawdown(rows: seq<Row>): (r: Result<Drawdown>)
    requires |rows| > 0 ==> rows[0].nav > 0.0
    ensures r.Err? <==> |rows| == 0
    ensures r.Err? ==> r.error == IndexOutOfRange
    ensures r.Ok? ==> r.value.value <= 0.0
    ensures r.Ok? ==> r.value.value == Worst(rows, |rows|)
    ensures r.Ok? ==> (r.value.start, r.value.end) == Dates(rows, |rows|)
  {
    if |rows| == 0 then Err(IndexOutOfRange)
    else
      ScanClosedForm(rows, |rows|);
      var st := Run(rows, |rows|);
      Ok(Drawdown(st.worst, st.start, st.end))
  }

  /** The drawdown is the least dip, clipped at 0: no dip is below it, and
      unless it is 0 some row attains it. */
  lemma DrawdownIsLeastDip(rows: seq<Row>)
    requires StartsPositive(rows)
    ensures forall i :: 0 <= i < |rows| ==> MaxDrawdown(rows).value.value <= Dip(rows, i)
    ensures MaxDrawdown(rows).value.value == 0.0
            || exists i :: 0 <= i < |rows| && MaxDrawdown(rows).value.value == Dip(rows, i)
  {
    WorstIsLeastDip(rows, |rows|);
  }

  /** A net value equal to the running peak is not a new peak: the anchor,
      the peak and the drawdown stay, and an open run is closed at it. */
  lemma EqualToPeakKeepsAnchor(st: Scan, row: Row)
    requires st.peak > 0.0 && st.worst <= 0.0 && row.nav == st.peak
    ensures Step(st, row).peak == st.peak && Step(st, row).worst == st.worst
    ensures Step(st, row).anchor == st.anchor && !Step(st, row).open
    ensures st.open ==> Step(st, row).end == On(row.at) && Step(st, row).start == st.anchor
    ensures !st.open ==> Step(st, row) == st
  {
    assert row.nav / st.peak == 1.0;
  }

  /** When the worst point is the last row no run has closed, and both
      dates stay 0. */
  lemma TroughAtEndKeepsZeroDates(a: Stamp, b: Stamp)
    ensures MaxDrawdown([Row(1.0, a), Row(0.5, b)]) == Ok(Drawdown(-0.5, Zero, Zero))
  {
    var rows := [Row(1.0, a), Row(0.5, b)];
    assert Run(rows, 1) == Scan(0.0, 1.0, Zero, Zero, Zero, false);
    assert Run(rows, 2) == Scan(-0.5, 1.0, Zero, Zero, Zero, true);
  }

  /** The reported dates belong to the last closed run, which need not be
      the worst one: for the net values 1, 1.2, 0.9, 0.95, 1.3, 0.8 the
      drawdown is 0.8/1.3 - 1 but the dates are those of the first dip. */
  lemma DatesMayPredateWorstRun(d: seq<Stamp>)
    requires |d| == 6
    ensures MaxDrawdown([Row(1.0, d[0]), Row(1.2, d[1]), Row(0.9, d[2]),
                         Row(0.95, d[3]), Row(1.3, d[4]), Row(0.8, d[5])])
            == Ok(Drawdown(0.8 / 1.3 - 1.0, On(d[1]), On(d[3])))
  {
    var rows := [Row(1.0, d[0]), Row(1.2, d[1]), Row(0.9, d[2]),
                 Row(0.95, d[3]), Row(1.3, d[4]), Row(0.8, d[5])];
    assert Run(rows, 1) == Scan(0.0, 1.0, Zero, Zero, Zero, false);
    assert Run(rows, 2) == Scan(0.0, 1.2, Zero, Zero, On(d[1]), false);
    assert Run(rows, 3) == Scan(0.9 / 1.2 - 1.0, 1.2, Zero, Zero, On(d[1]), true);
    assert Run(rows, 4) == Scan(0.9 / 1.2 - 1.0, 1.2, On(d[1]), On(d[3]), On(d[1]), false);
    assert Run(rows, 5) == Scan(0.9 / 1.2 - 1.0, 1.3, On(d[1]), On(d[3]), On(d[4]), false);
    assert Run(rows, 6) == Scan(0.8 / 1.3 - 1.0, 1.3, On(d[1]), On(d[3]), On(d[4]), true);
  }

  // ---------------------------------------------------------------------
  // `maxDrawdownYearly`

  /** `groupby('Year')`: the rows of one year, in their original order. Every
      row it returns is of year `y` and from the frame, and every row of the
      frame of year `y` is among them; `YearRowsAppend` states the order. */
  function YearRows(rows: seq<Row>, y: int): (r: seq<Row>)
    ensures |r| <= |rows|
    ensures forall i :: 0 <= i < |r| ==> r[i].at.year == y && r[i] in rows
    ensures forall i :: 0 <= i < |rows| && rows[i].at.year == y ==> rows[i] in r
    decreases |rows|
  {
    if |rows| == 0 then []
    else
      var front := rows[..|rows| - 1];
      var last := rows[|rows| - 1];
      assert forall x :: x in front ==> x in rows;
      YearRows(front, y) + (if last.at.year == y then [last] else [])
  }

  /** Grouping keeps the frame's order: the rows of a year in `a + b` are
      its rows in `a` followed by its rows in `b`. With `YearRowsSingle`
      this determines `YearRows` completely. */
  lemma {:induction false} YearRowsAppend(a: seq<Row>, b: seq<Row>, y: int)
    ensures YearRows(a + b, y) == YearRows(a, y) + YearRows(b, y)
    decreases |b|
  {
    if |b| == 0 {
      assert a + b == a;
    } else {
      var front := b[..|b| - 1];
      var x := b[|b| - 1];
      var tail := if x.at.year == y then [x] else [];
      calc {
        YearRows(a + b, y);
        { assert (a + b)[..|a + b| - 1] == a + front;
          assert (a + b)[|a + b| - 1] == x; }
        YearRows(a + front, y) + tail;
        { YearRowsAppend(a, front, y); }
        YearRows(a, y) + YearRows(front, y) + tail;
        YearRows(a, y) + YearRows(b, y);
      }
    }
  }

  /** A single row is kept exactly when it is of the year. */
  lemma YearRowsSingle(x: Row, y: int)
    ensures YearRows([x], y) == (if x.at.year == y then [x] else [])
  {
    assert [x][..0] == [];
  }

  function Years(rows: seq<Row>): set<int>
  {
    set i | 0 <= i < |rows| :: rows[i].at.year
  }

  predicate AllPositive(rows: seq<Row>)
  {
    forall i :: 0 <= i < |rows| ==> rows[i].nav > 0.0
  }

  /** A year that occurs has at least one row. */
  lemma {:induction false} YearRowsNonEmpty(rows: seq<Row>, y: int)
    requires y in Years(rows)
    ensures |YearRows(rows, y)| > 0
    decreases |rows|
  {
    var last := rows[|rows| - 1];
    if last.at.year != y {
      var front := rows[..|rows| - 1];
      var i :| 0 <= i < |rows| && rows[i].at.year == y;
      assert front[i].at.year == y;
      YearRowsNonEmpty(front, y);
    }
  }

  /** Each year that occurs starts with a positive net value, as the scan of
      its rows needs. */
  predicate YearsStartPositive(rows: seq<Row>)
  {
    forall y :: y in Years(rows) ==> StartsPositive(YearRows(rows, y))
  }

  /** Positive net values throughout give every year a positive start. */
  lemma AllPositiveYears(rows: seq<Row>)
    requires AllPositive(rows)
    ensures YearsStartPositive(rows)
  {
    forall y | y in Years(rows) ensures StartsPositive(YearRows(rows, y)) {
      YearRowsNonEmpty(rows, y);
      var first := YearRows(rows, y)[0];
      assert first in rows;
    }
  }

  /** The drawdown of one year's rows. */
  function YearDrawdown(rows: seq<Row>, y: int): (r: Drawdown)
    requires y in Years(rows) && StartsPositive(YearRows(rows, y))
    ensures Ok(r) == MaxDrawdown(YearRows(rows, y))
    ensures r.value <= 0.0
  {
    MaxDrawdown(YearRows(rows, y)).value
  }

  /** `maxDrawdownYearly`: one scan per year that occurs. */
  function MaxDrawdownYearly(rows: seq<Row>): (r: map<int, Drawdown>)
    requires YearsStartPositive(rows)
    ensures r.Keys == Years(rows)
    ensures forall y :: y in r ==> Ok(r[y]) == MaxDrawdown(YearRows(rows, y))
  {
    map y | y in Years(rows) :: YearDrawdown(rows, y)
  }

  /** Row `j` of a year's rows is some row `i` of the whole frame, and the
      year's rows up to `j` all come from the whole frame up to `i`. */
  lemma {:induction false} YearRowSource(rows: seq<Row>, y: int, j: nat)
    requires j < |YearRows(rows, y)|
    ensures exists i :: 0 <= i < |rows| && rows[i] == YearRows(rows, y)[j]
                        && forall m :: 0 <= m <= j ==> YearRows(rows, y)[m] in rows[..i + 1]
    decreases |rows|
  {
    var sub := YearRows(rows, y);
    var front := rows[..|rows| - 1];
    var subFront := YearRows(front, y);
    if j < |subFront| {
      YearRowSource(front, y, j);
      var i :| 0 <= i < |front| && front[i] == subFront[j]
               && forall m :: 0 <= m <= j ==> subFront[m] in front[..i + 1];
      assert front[..i + 1] == rows[..i + 1];
      assert forall m :: 0 <= m <= j ==> sub[m] == subFront[m];
    } else {
      var i := |rows| - 1;
      assert rows[..i + 1] == rows;
      assert rows[i] == sub[j];
    }
  }

  /** Dividing a positive value by a larger positive value gives less. */
  lemma DivideAntitone(x: real, a: real, b: real)
    requires x > 0.0 && 0.0 < a <= b
    ensures x / b <= x / a
  {
    assert x / b * b == x && x / a * a == x;
    assert x / b * a <= x / b * b;
  }

  /** The peak over a frame's prefix is at least the net value of any row in it. */
  lemma PeakBoundsPrefix(rows: seq<Row>, i: nat, x: Row)
    requires |rows| > 0 && i < |rows| && x in rows[..i + 1]
    ensures x.nav <= Peak(rows, i + 1)
  {
    var m :| 0 <= m < i + 1 && rows[..i + 1][m] == x;
    assert rows[m] == x;
    PeakIsMax(rows, i + 1);
  }

  /** The whole-period drawdown is at least as severe as every yearly one. */
  lemma WholeAtLeastAsSevere(rows: seq<Row>, y: int)
    requires AllPositive(rows) && y in Years(rows)
    ensures AllPositive(rows) && YearsStartPositive(rows)
    ensures MaxDrawdown(rows).value.value <= MaxDrawdownYearly(rows)[y].value
  {
    AllPositiveYears(rows);
    var sub := YearRows(rows, y);
    var yearly := Worst(sub, |sub|);
    assert MaxDrawdownYearly(rows)[y].value == yearly;
    WorstIsLeastDip(sub, |sub|);
    WorstIsLeastDip(rows, |rows|);
    if yearly != 0.0 {
      var j :| 0 <= j < |sub| && yearly == Dip(sub, j);
      YearDipBounded(rows, y, j);
    }
  }

  /** Each dip within a year is no deeper than the whole-period drawdown:
      the row is in the frame, and its running peak over the frame is at
      least its running peak within the year. */
  lemma YearDipBounded(rows: seq<Row>, y: int, j: nat)
    requires AllPositive(rows) && y in Years(rows)
    requires StartsPositive(YearRows(rows, y)) && j < |YearRows(rows, y)|
    ensures StartsPositive(rows) && Worst(rows, |rows|) <= Dip(YearRows(rows, y), j)
  {
    var sub := YearRows(rows, y);
    YearRowSource(rows, y, j);
    var i :| 0 <= i < |rows| && rows[i] == sub[j]
             && forall m :: 0 <= m <= j ==> sub[m] in rows[..i + 1];
    YearPeakBounded(rows, sub, i, j);
    DivideAntitone(rows[i].nav, Peak(sub, j + 1), Peak(rows, i + 1));
    WorstIsLeastDip(rows, |rows|);
    assert Worst(rows, |rows|) <= Dip(rows, i);
  }

  /** A year's running peak at row `j` is positive and at most the frame's
      running peak at the row `i` it came from. */
  lemma YearPeakBounded(rows: seq<Row>, sub: seq<Row>, i: nat, j: nat)
    requires AllPositive(rows) && StartsPositive(sub) && i < |rows| && j < |sub|
    requires forall m :: 0 <= m <= j ==> sub[m] in rows[..i + 1]
    ensures StartsPositive(rows)
    ensures 0.0 < Peak(sub, j + 1) <= Peak(rows, i + 1)
  {
    PeakIsMax(sub, j + 1);
    var p := Peak(sub, j + 1);
    if p != sub[0].nav {
      var m :| 0 <= m < j + 1 && p == sub[m].nav;
      PeakBoundsPrefix(rows, i, sub[m]);
    } else {
      PeakBoundsPrefix(rows, i, sub[0]);
    }
  }
}
