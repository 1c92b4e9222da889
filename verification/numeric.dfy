/** Exact real arithmetic standing in for numpy's float64, with the IEEE
    non-finite values that a division by zero produces. */
module Numeric {

  /** A float64 result: a finite value, or one of the non-finite results
      of dividing by zero. */
  datatype Num = NaN | PosInf | NegInf | Val(v: real)

  function Abs(x: real): (r: real)
    ensures r >= 0.0 && (r == x || r == -x)
  {
    if x < 0.0 then -x else x
  }

  /** IEEE division of two finite values (a zero divisor is taken as +0.0). */
  function Divide(a: real, b: real): (r: Num)
    ensures r.Val? <==> b != 0.0
    ensures r.Val? ==> r.v * b == a
    ensures r == NaN <==> a == 0.0 && b == 0.0
    ensures r == PosInf <==> a > 0.0 && b == 0.0
    ensures r == NegInf <==> a < 0.0 && b == 0.0
  {
    if b != 0.0 then Val(a / b)
    else if a > 0.0 then PosInf
    else if a < 0.0 then NegInf
    else NaN
  }

  /** IEEE multiplication of a float64 by a finite factor. */
  function Scale(x: Num, k: real): (r: Num)
    ensures x.Val? <==> r.Val?
    ensures x.Val? ==> r.v == x.v * k
    ensures x == NaN ==> r == NaN
    ensures !x.Val? && k == 0.0 ==> r == NaN
  {
    match x
    case Val(a) => Val(a * k)
    case NaN => NaN
    case PosInf => if k > 0.0 then PosInf else if k < 0.0 then NegInf else NaN
    case NegInf => if k > 0.0 then NegInf else if k < 0.0 then PosInf else NaN
  }

  /** IEEE addition. */
  function Add(x: Num, y: Num): (r: Num)
    ensures x.Val? && y.Val? <==> r.Val?
    ensures r.Val? ==> r.v == x.v + y.v
    ensures x == NaN || y == NaN ==> r == NaN
    ensures {x, y} == {PosInf, NegInf} ==> r == NaN
  {
    match (x, y)
    case (Val(a), Val(b)) => Val(a + b)
    case (NaN, _) => NaN
    case (_, NaN) => NaN
    case (PosInf, NegInf) => NaN
    case (NegInf, PosInf) => NaN
    case (PosInf, _) => PosInf
    case (_, PosInf) => PosInf
    case (NegInf, _) => NegInf
    case (_, NegInf) => NegInf
  }

  /** Sum of a sequence of reals, accumulated from the left. */
  function SumR(xs: seq<real>): real
  {
    if |xs| == 0 then 0.0 else SumR(xs[..|xs| - 1]) + xs[|xs| - 1]
  }

  /** numpy's `sum` over a float64 vector. */
  function Sum(xs: seq<Num>): Num
  {
    if |xs| == 0 then Val(0.0) else Add(Sum(xs[..|xs| - 1]), xs[|xs| - 1])
  }

  /** numpy's `mean`: the sum divided by the length; NaN for an empty vector. */
  function Mean(xs: seq<Num>): (r: Num)
    ensures |xs| == 0 ==> r == NaN
  {
    if |xs| == 0 then NaN else Scale(Sum(xs), 1.0 / |xs| as real)
  }

  predicate AllFinite(xs: seq<Num>)
  {
    forall i :: 0 <= i < |xs| ==> xs[i].Val?
  }

  /** The finite values of an all-finite vector. */
  function Values(xs: seq<Num>): (r: seq<real>)
    requires AllFinite(xs)
    ensures |r| == |xs|
    ensures forall i :: 0 <= i < |xs| ==> Val(r[i]) == xs[i]
  {
    seq(|xs|, i requires 0 <= i < |xs| => xs[i].v)
  }

  /** The dot product `np.dot(share, price)`, accumulated from the front. */
  function Dot(a: seq<int>, b: seq<real>): real
    requires |a| == |b|
  {
    if |a| == 0 then 0.0 else a[0] as real * b[0] + Dot(a[1..], b[1..])
  }

  /** Element-wise product `share * price`. */
  function Mul(a: seq<int>, b: seq<real>): (r: seq<real>)
    requires |a| == |b|
    ensures |r| == |a|
    ensures forall i :: 0 <= i < |a| ==> r[i] == a[i] as real * b[i]
  {
    seq(|a|, i requires 0 <= i < |a| => a[i] as real * b[i])
  }

  /** Element-wise difference of two equally long vectors. */
  function Sub(a: seq<real>, b: seq<real>): (r: seq<real>)
    requires |a| == |b|
    ensures |r| == |a|
    ensures forall i :: 0 <= i < |a| ==> r[i] == a[i] - b[i]
  {
    seq(|a|, i requires 0 <= i < |a| => a[i] - b[i])
  }

  /** Element-wise float division of two equally long vectors. */
  function DivideEach(a: seq<real>, b: seq<real>): (r: seq<Num>)
    requires |a| == |b|
    ensures |r| == |a|
    ensures forall i :: 0 <= i < |a| ==> r[i] == Divide(a[i], b[i])
  {
    seq(|a|, i requires 0 <= i < |a| => Divide(a[i], b[i]))
  }

  /** A vector times one scalar. */
  function ScaleAll(a: seq<real>, k: real): (r: seq<real>)
    ensures |r| == |a|
    ensures forall i :: 0 <= i < |a| ==> r[i] == k * a[i]
  {
    seq(|a|, i requires 0 <= i < |a| => k * a[i])
  }

  /** Element-wise float division of a vector by one scalar. */
  function DivideAll(a: seq<real>, d: real): (r: seq<Num>)
    ensures |r| == |a|
    ensures forall i :: 0 <= i < |a| ==> r[i] == Divide(a[i], d)
  {
    seq(|a|, i requires 0 <= i < |a| => Divide(a[i], d))
  }

  function Last<T>(xs: seq<T>): T
    requires |xs| > 0
  {
    xs[|xs| - 1]
  }

  /** Python's `xs[:-1]`: everything but the last element (empty stays empty). */
  function DropLast<T>(xs: seq<T>): (r: seq<T>)
    ensures |xs| > 0 ==> |r| == |xs| - 1 && xs == r + [Last(xs)]
    ensures |xs| == 0 ==> r == []
  {
    if |xs| == 0 then xs else xs[..|xs| - 1]
  }

  /** Python's `xs[-1:]`: the last element alone (empty stays empty). */
  function KeepLast<T>(xs: seq<T>): (r: seq<T>)
    ensures |xs| > 0 ==> r == [Last(xs)]
    ensures |xs| == 0 ==> r == []
  {
    if |xs| == 0 then xs else xs[|xs| - 1..]
  }

  /** Python's `xs[-1] = v`: replaces the last element. */
  function SetLast<T>(xs: seq<T>, v: T): (r: seq<T>)
    requires |xs| > 0
    ensures |r| == |xs| && Last(r) == v
    ensures r[..|xs| - 1] == xs[..|xs| - 1]
  {
    xs[..|xs| - 1] + [v]
  }

  // ---------------------------------------------------------------------
  // Facts about products and sums

  lemma MulMonotone(x: real, y: real, c: real)
    requires x <= y && c >= 0.0
    ensures x * c <= y * c
  {
    assert (y - x) * c >= 0.0;
  }

  lemma AbsMul(e: real, p: real)
    ensures Abs(e * p) == Abs(e) * Abs(p)
  {
    if e < 0.0 {
      if p < 0.0 { assert e * p == (-e) * (-p); } else { assert e * p == -((-e) * p); }
    } else if p < 0.0 {
      assert e * p == -(e * (-p));
    }
  }

  /** Summation distributes over concatenation. */
  lemma {:induction false} SumAppend(a: seq<real>, b: seq<real>)
    ensures SumR(a + b) == SumR(a) + SumR(b)
    decreases |b|
  {
    if |b| == 0 {
      assert a + b == a;
    } else {
      var b' := b[..|b| - 1];
      assert (a + b)[..|a + b| - 1] == a + b';
      SumAppend(a, b');
    }
  }

  /** The sum of differences is the difference of sums. */
  lemma {:induction false} SumSub(a: seq<real>, b: seq<real>)
    requires |a| == |b|
    ensures SumR(Sub(a, b)) == SumR(a) - SumR(b)
    decreases |a|
  {
    if |a| > 0 {
      var k := |a| - 1;
      assert Sub(a, b)[..k] == Sub(a[..k], b[..k]);
      SumSub(a[..k], b[..k]);
    }
  }

  /** The front-accumulated dot product equals the sum of the element-wise
      products (`np.dot(share, price) == (share * price).sum()`). */
  lemma {:induction false} DotIsSumOfProducts(a: seq<int>, b: seq<real>)
    requires |a| == |b|
    ensures Dot(a, b) == SumR(Mul(a, b))
    decreases |a|
  {
    if |a| > 0 {
      DotIsSumOfProducts(a[1..], b[1..]);
      var tail := Mul(a[1..], b[1..]);
      forall i | 0 <= i < |a|
        ensures Mul(a, b)[i] == ([a[0] as real * b[0]] + tail)[i]
      {
        if i > 0 {
          assert tail[i - 1] == a[1..][i - 1] as real * b[1..][i - 1];
        }
      }
      assert Mul(a, b) == [a[0] as real * b[0]] + tail;
      SumAppend([a[0] as real * b[0]], Mul(a[1..], b[1..]));
      assert SumR([a[0] as real * b[0]]) == a[0] as real * b[0] by {
        assert [a[0] as real * b[0]][..0] == [];
      }
    }
  }

  /** numpy's sum is finite exactly when every element is. */
  lemma {:induction false} SumFiniteIff(xs: seq<Num>)
    ensures Sum(xs).Val? <==> AllFinite(xs)
    decreases |xs|
  {
    if |xs| > 0 {
      var k := |xs| - 1;
      SumFiniteIff(xs[..k]);
      assert AllFinite(xs) <==> AllFinite(xs[..k]) && xs[k].Val? by {
        if AllFinite(xs[..k]) && xs[k].Val? {
          forall i | 0 <= i < |xs| ensures xs[i].Val? {
            if i < k { assert xs[i] == xs[..k][i]; }
          }
        }
      }
    }
  }

  /** numpy's sum of a vector without NaN or infinities is the exact sum of
      its values. */
  lemma {:induction false} SumOfFinite(xs: seq<Num>)
    requires AllFinite(xs)
    ensures Sum(xs) == Val(SumR(Values(xs)))
    decreases |xs|
  {
    if |xs| > 0 {
      var k := |xs| - 1;
      assert Values(xs)[..k] == Values(xs[..k]);
      SumOfFinite(xs[..k]);
    }
  }
}
