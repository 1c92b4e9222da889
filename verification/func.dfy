/** The two scalar helpers of core/func.py and their `np.vectorize` forms:
    NaN replacement and rounding a share count to a board lot of 100. */
module Func {
  import opened Outcomes
  import opened Numeric

  const LotSize: int := 100

  /** `fillna`: NaN becomes 0; every other value, infinities included, is
      passed through. */
  function FillNa(x: Num): (r: Num)
    ensures r != NaN
    ensures x == NaN ==> r == Val(0.0)
    ensures x != NaN ==> r == x
  {
    if x == NaN then Val(0.0) else x
  }

  /** An infinite float. */
  predicate Infinite(x: Num)
  {
    x == PosInf || x == NegInf
  }

  /** `k` is `v` with its fraction dropped: Python's `int` on a finite float. */
  predicate TowardZero(k: real, v: real)
  {
    && k == k.Floor as real
    && (0.0 <= v ==> 0.0 <= k <= v < k + 1.0)
    && (v < 0.0 ==> k - 1.0 < v <= k <= 0.0)
  }

  /** Truncation toward zero. */
  function Trunc(v: real): (r: int)
    ensures TowardZero(r as real, v)
  {
    if v >= 0.0 then v.Floor else -((-v).Floor)
  }

  /** Whether `np.vectorize(fillna)` produces an int64 array. Without
      declared output types numpy calls the function on the first element
      and gives the whole result the type of what comes back; `fillna`
      returns the int 0 for a NaN, so a NaN in front makes every element an
      int. */
  predicate CastsToInt(xs: seq<Num>)
  {
    |xs| > 0 && xs[0] == NaN
  }

  /** `vfillna`: `fillna` element by element, with the output type
      `np.vectorize` picks. An empty input raises ValueError. When the result
      is an int64 array every filled value is cast with Python's `int`, which
      truncates a finite value toward zero and raises OverflowError on an
      infinity. */
  function VFillNa(xs: seq<Num>): (r: Result<seq<Num>>)
    ensures |xs| == 0 ==> r == Err(EmptyInput)
    ensures r.Err? <==> |xs| == 0 || (CastsToInt(xs) && exists i :: 0 <= i < |xs| && Infinite(xs[i]))
    ensures |xs| > 0 && r.Err? ==> r.error == Overflow
    ensures r.Ok? ==> |r.value| == |xs|
    ensures r.Ok? && !CastsToInt(xs) ==> forall i :: 0 <= i < |xs| ==> r.value[i] == FillNa(xs[i])
    ensures r.Ok? && CastsToInt(xs) ==>
              forall i :: 0 <= i < |xs| ==>
                FillNa(xs[i]).Val? && r.value[i].Val? && TowardZero(r.value[i].v, FillNa(xs[i]).v)
  {
    if |xs| == 0 then Err(EmptyInput)
    else
      var filled := seq(|xs|, i requires 0 <= i < |xs| => FillNa(xs[i]));
      if !CastsToInt(xs) then Ok(filled)
      else if AllFinite(filled) then
        assert forall i :: 0 <= i < |xs| ==> !Infinite(xs[i]) by {
          forall i | 0 <= i < |xs| ensures !Infinite(xs[i]) {
            assert filled[i].Val?;
          }
        }
        Ok(seq(|xs|, i requires 0 <= i < |xs| => Val(Trunc(filled[i].v) as real)))
      else
        assert exists i :: 0 <= i < |xs| && !filled[i].Val?;
        Err(Overflow)
  }

  /** Python's built-in `round` on a finite float: to the nearest integer,
      ties to the even neighbour. The two ensures clauses characterise the
      result uniquely. */
  function RoundHalfEven(y: real): (r: int)
    ensures -0.5 <= r as real - y <= 0.5
    ensures (r as real - y == 0.5 || y - r as real == 0.5) ==> r % 2 == 0
  {
    var f := y.Floor;
    var d := y - f as real;
    if d < 0.5 then f
    else if d > 0.5 then f + 1
    else if f % 2 == 0 then f
    else f + 1
  }

  /** `round(x/100)*100` on a finite amount. */
  function Lot(x: real): (r: int)
    ensures r % LotSize == 0
    ensures -50.0 <= r as real - x <= 50.0
  {
    RoundHalfEven(x / 100.0) * LotSize
  }

  /** `standardizeDealAmount` on a float64: `round` raises ValueError on NaN
      and OverflowError on an infinity. */
  function StandardizeDealAmount(x: Num): (r: Result<int>)
    ensures r.Ok? <==> x.Val?
    ensures r.Ok? ==> r.value % LotSize == 0 && -50.0 <= r.value as real - x.v <= 50.0
    ensures x == NaN ==> r == Err(NotANumber)
    ensures x == PosInf || x == NegInf ==> r == Err(Overflow)
  {
    match x
    case Val(v) => Ok(Lot(v))
    case NaN => Err(NotANumber)
    case _ => Err(Overflow)
  }

  /** `vstandardizeDealAmount`: element by element; an empty input raises
      ValueError, and otherwise the first element that cannot be rounded
      raises. */
  function VStandardizeDealAmount(xs: seq<Num>): (r: Result<seq<int>>)
    ensures r.Ok? <==> |xs| > 0 && AllFinite(xs)
    ensures |xs| == 0 ==> r == Err(EmptyInput)
    ensures r.Ok? ==> |r.value| == |xs|
    ensures r.Ok? ==> forall i :: 0 <= i < |xs| ==> r.value[i] == Lot(xs[i].v)
    ensures |xs| > 0 && r.Err? ==>
              exists i :: 0 <= i < |xs| && !xs[i].Val?
                          && StandardizeDealAmount(xs[i]) == Err(r.error)
                          && forall j :: 0 <= j < i ==> xs[j].Val?
  {
    if |xs| == 0 then Err(EmptyInput) else RoundEach(xs)
  }

  /** The rounding loop behind `vstandardizeDealAmount` on a non-empty array. */
  function RoundEach(xs: seq<Num>): (r: Result<seq<int>>)
    ensures r.Ok? <==> AllFinite(xs)
    ensures r.Ok? ==> |r.value| == |xs|
    ensures r.Ok? ==> forall i :: 0 <= i < |xs| ==> r.value[i] == Lot(xs[i].v)
    ensures r.Err? ==> exists i :: 0 <= i < |xs| && !xs[i].Val?
                                 && StandardizeDealAmount(xs[i]) == Err(r.error)
                                 && forall j :: 0 <= j < i ==> xs[j].Val?
    decreases |xs|
  {
    if |xs| == 0 then Ok([])
    else match StandardizeDealAmount(xs[0])
      case Err(e) => Err(e)
      case Ok(k) =>
        match RoundEach(xs[1..])
        case Err(e) =>
          ghost var i :| 0 <= i < |xs[1..]| && !xs[1..][i].Val?
                         && StandardizeDealAmount(xs[1..][i]) == Err(e)
                         && forall j :: 0 <= j < i ==> xs[1..][j].Val?;
          assert !xs[i + 1].Val? && forall j :: 0 <= j < i + 1 ==> xs[j].Val?;
          Err(e)
        case Ok(ks) => Ok([k] + ks)
  }

  // ---------------------------------------------------------------------
  // Properties of lot rounding

  /** A lot-aligned amount is left alone. */
  lemma LotIdempotent(k: int)
    ensures Lot((k * LotSize) as real) == k * LotSize
  {
    var y := (k * LotSize) as real / 100.0;
    assert y == k as real;
    assert y.Floor == k;
  }

  /** Rounding twice is rounding once. */
  lemma LotTwice(x: real)
    ensures Lot(Lot(x) as real) == Lot(x)
  {
    var k := Lot(x) / LotSize;
    assert k * LotSize == Lot(x);
    LotIdempotent(k);
  }

  /** Python's `round` never decreases when its argument grows. */
  lemma {:induction false} RoundMonotone(x: real, y: real)
    requires x <= y
    ensures RoundHalfEven(x) <= RoundHalfEven(y)
  {
    var fx, fy := x.Floor, y.Floor;
    if fx < fy {
      assert RoundHalfEven(x) <= fx + 1 <= fy <= RoundHalfEven(y);
    } else {
      assert fx == fy;
      var dx, dy := x - fx as real, y - fy as real;
      assert dx <= dy;
      if dx == 0.5 && dy == 0.5 {
        assert x == y;
      }
    }
  }

  /** Lot rounding is monotone non-decreasing. */
  lemma LotMonotone(x: real, y: real)
    requires x <= y
    ensures Lot(x) <= Lot(y)
  {
    RoundMonotone(x / 100.0, y / 100.0);
  }

  /** Ties go to the even number of lots: 50 shares round down to 0,
      150 up to 200 and 250 down to 200. */
  lemma LotTiesToEven()
    ensures Lot(50.0) == 0 && Lot(150.0) == 200 && Lot(250.0) == 200
    ensures Lot(-50.0) == 0 && Lot(49.0) == 0 && Lot(51.0) == 100
  {
    assert (0.5).Floor == 0;
    assert (1.5).Floor == 1;
    assert (2.5).Floor == 2;
    assert (-0.5).Floor == -1;
    assert (0.49).Floor == 0;
    assert (0.51).Floor == 0;
  }
}
