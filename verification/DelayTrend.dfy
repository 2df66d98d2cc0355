/** The congestion indicator of the sender (ScreamTx::computeQueueDelayTrend): the lag-1
    autocorrelation of the last twenty queue delay fractions. */
module DelayTrend {
  import opened Arithmetic

  const SAMPLES := 20

  type Ring20 = r: seq<real> | |r| == SAMPLES witness seq(SAMPLES, _ => 0.0)

  /** The ring's contents from the slot `ptr` on, once around. */
  function Rotated(hist: Ring20, ptr: nat): (x: seq<real>)
    ensures |x| == SAMPLES
  {
    seq(SAMPLES, n requires 0 <= n < SAMPLES => hist[(ptr + n) % SAMPLES])
  }

  function Sum(x: seq<real>): real {
    if x == [] then 0.0 else Sum(x[..|x| - 1]) + x[|x| - 1]
  }

  function Centred(x: seq<real>, avg: real): (y: seq<real>)
    ensures |y| == |x|
  {
    seq(|x|, n requires 0 <= n < |x| => x[n] - avg)
  }

  function Squares(x: seq<real>): (s: seq<real>)
    ensures |s| == |x|
  {
    seq(|x|, n requires 0 <= n < |x| => x[n] * x[n])
  }

  /** Each deviation times the one before it; nothing comes before the first. */
  function Products(x: seq<real>): (p: seq<real>)
    ensures |p| == |x|
  {
    seq(|x|, n requires 0 <= n < |x| => if n == 0 then 0.0 else x[n] * x[n - 1])
  }

  function Lag0(x: seq<real>): real {
    Sum(Squares(x))
  }

  function Lag1(x: seq<real>): real {
    Sum(Products(x))
  }

  function Clamp(r: real): real {
    if r < 0.0 then 0.0 else if r > 1.0 then 1.0 else r
  }

  /** The indicator for the deviations `x` and the averaged queue delay fraction. */
  function Trend(x: seq<real>, fractionAvg: real): real {
    Indicator(Lag0(x), Lag1(x), fractionAvg)
  }

  function Indicator(a0: real, a1: real, fractionAvg: real): real {
    if a0 > 0.0 then Clamp(a1 / a0 * fractionAvg) else 0.0
  }

  function TrendOf(hist: Ring20, ptr: nat, fractionAvg: real): real {
    var x := Rotated(hist, ptr);
    Trend(Centred(x, Sum(x) / 20.0), fractionAvg)
  }

  function Abs(r: real): real {
    if r < 0.0 then -r else r
  }

  lemma SquareNonNegative(a: real)
    ensures a * a >= 0.0
    ensures a != 0.0 ==> a * a > 0.0
  {
  }

  /** Twice a product is at most the sum of the squares. */
  lemma TwiceProduct(a: real, b: real)
    ensures 2.0 * Abs(a * b) <= a * a + b * b
    ensures b * b == 0.0 ==> a * b == 0.0
  {
    var d, s := a - b, a + b;
    SquareNonNegative(d);
    SquareNonNegative(s);
    SquareNonNegative(b);
    assert d * d == a * a - 2.0 * (a * b) + b * b;
    assert s * s == a * a + 2.0 * (a * b) + b * b;
  }

  /** `squares` and `products` are related like the squares and the neighbour products of one list. */
  ghost predicate Related(squares: seq<real>, products: seq<real>) {
    && |squares| == |products|
    && (forall n :: 0 <= n < |squares| ==> squares[n] >= 0.0)
    && (|products| > 0 ==> products[0] == 0.0)
    && (forall n :: 0 < n < |squares| ==> 2.0 * Abs(products[n]) <= squares[n] + squares[n - 1])
    && (forall n :: 0 < n < |squares| && squares[n - 1] == 0.0 ==> products[n] == 0.0)
  }

  lemma ListIsRelated(x: seq<real>)
    ensures Related(Squares(x), Products(x))
  {
    forall n | 0 <= n < |x| ensures Squares(x)[n] >= 0.0 {
      SquareNonNegative(x[n]);
    }
    forall n | 0 < n < |x|
      ensures 2.0 * Abs(Products(x)[n]) <= Squares(x)[n] + Squares(x)[n - 1]
      ensures Squares(x)[n - 1] == 0.0 ==> Products(x)[n] == 0.0
    {
      TwiceProduct(x[n], x[n - 1]);
    }
  }

  /** Half of the last square is still unused by the products, and some of the rest is too unless
      every square is zero. */
  lemma {:induction false} ProductsBounded(squares: seq<real>, products: seq<real>)
    requires Related(squares, products) && squares != []
    ensures var last := squares[|squares| - 1];
            && 2.0 * Abs(Sum(products)) + last <= 2.0 * Sum(squares)
            && (2.0 * Abs(Sum(products)) + last == 2.0 * Sum(squares) ==> Sum(squares) == 0.0 && last == 0.0)
  {
    var n := |squares| - 1;
    var squares', products' := squares[..n], products[..n];
    if n == 0 {
      assert squares' == [] && products' == [];
    } else {
      ProductsBounded(squares', products');
      assert squares'[n - 1] == squares[n - 1];
      assert Abs(Sum(products)) <= Abs(Sum(products')) + Abs(products[n]);
    }
  }

  /** The autocorrelation is strictly between -1 and 1, for every list of deviations. */
  lemma AutocorrelationBound(x: seq<real>)
    ensures Abs(Lag1(x)) <= Lag0(x)
    ensures Lag0(x) > 0.0 ==> -1.0 < Lag1(x) / Lag0(x) < 1.0
  {
    if x != [] {
      ListIsRelated(x);
      ProductsBounded(Squares(x), Products(x));
      if Lag0(x) > 0.0 {
        Quotient(Lag1(x), Lag0(x));
      }
    }
  }

  lemma Quotient(a: real, b: real)
    requires b > 0.0 && -b < a < b
    ensures -1.0 < a / b < 1.0
  {
    assert a / b * b == a;
    var q := a / b;
    if q >= 1.0 { ProductNonNegative(q - 1.0, b); }
    if q <= -1.0 { ProductNonNegative(-1.0 - q, b); }
  }

  /** The trend is in [0, 1]; it never exceeds the averaged delay fraction, and is below it when
      that is positive, for every content of the ring and every start pointer. */
  lemma TrendBound(hist: Ring20, ptr: nat, fractionAvg: real)
    ensures 0.0 <= TrendOf(hist, ptr, fractionAvg) <= 1.0
    ensures fractionAvg >= 0.0 ==> TrendOf(hist, ptr, fractionAvg) <= fractionAvg
    ensures fractionAvg > 0.0 ==> TrendOf(hist, ptr, fractionAvg) < fractionAvg
  {
    var x := Centred(Rotated(hist, ptr), Sum(Rotated(hist, ptr)) / 20.0);
    AutocorrelationBound(x);
    if Lag0(x) > 0.0 && fractionAvg >= 0.0 {
      var q := Lag1(x) / Lag0(x);
      assert (1.0 - q) * fractionAvg == fractionAvg - q * fractionAvg;
      ProductNonNegative(1.0 - q, fractionAvg);
      if fractionAvg > 0.0 {
        ProductPositive(1.0 - q, fractionAvg);
      }
    }
  }

  /** The indicator is the autocorrelation times the averaged fraction, cut to [0, 1]. */
  predicate Indicates(r: real, a0: real, a1: real, fractionAvg: real) {
    var scaled := a1 * fractionAvg;
    if a0 <= 0.0 || scaled <= 0.0 then r == 0.0
    else if scaled >= a0 then r == 1.0
    else a0 * r == scaled
  }

  lemma IndicatorIs(a0: real, a1: real, fractionAvg: real)
    ensures Indicates(Indicator(a0, a1, fractionAvg), a0, a1, fractionAvg)
  {
    if a0 > 0.0 {
      var q := a1 / a0 * fractionAvg;
      assert a0 * q == a1 * fractionAvg by {
        assert a0 * (a1 / a0) == a1;
        assert a0 * q == a0 * (a1 / a0) * fractionAvg;
      }
      if q < 0.0 {
        ProductPositive(a0, -q);
      } else if q > 1.0 {
        ProductPositive(a0, q - 1.0);
      } else {
        ProductNonNegative(a0, q);
        ProductNonNegative(a0, 1.0 - q);
      }
    }
  }

  lemma {:induction false} SumOfCentred(x: seq<real>, avg: real)
    ensures Sum(Centred(x, avg)) == Sum(x) - |x| as real * avg
  {
    if x != [] {
      SumOfCentred(x[..|x| - 1], avg);
      assert Centred(x, avg)[..|x| - 1] == Centred(x[..|x| - 1], avg);
    }
  }

  /** The deviations of the stored fractions from their mean, oldest first. */
  function Deviations(hist: Ring20, ptr: nat): (y: seq<real>)
    ensures |y| == SAMPLES
    ensures forall n :: 0 <= n < SAMPLES ==> y[n] == hist[(ptr + n) % SAMPLES] - Sum(Rotated(hist, ptr)) / 20.0
  {
    Centred(Rotated(hist, ptr), Sum(Rotated(hist, ptr)) / 20.0)
  }

  /** The trend is computed from deviations that add up to zero. */
  lemma TrendIs(hist: Ring20, ptr: nat, fractionAvg: real)
    ensures var y := Deviations(hist, ptr);
            Sum(y) == 0.0 && Indicates(TrendOf(hist, ptr, fractionAvg), Lag0(y), Lag1(y), fractionAvg)
  {
    var x := Rotated(hist, ptr);
    SumOfCentred(x, Sum(x) / 20.0);
    var y := Centred(x, Sum(x) / 20.0);
    IndicatorIs(Lag0(y), Lag1(y), fractionAvg);
  }

  lemma NextSlot(start: nat, n: nat)
    ensures ((start + n) % SAMPLES + 1) % SAMPLES == (start + (n + 1)) % SAMPLES
  {
  }

  lemma SumStep(x: seq<real>, n: nat)
    requires n < |x|
    ensures Sum(x[..n + 1]) == Sum(x[..n]) + x[n]
  {
    assert x[..n + 1][..n] == x[..n];
  }

  lemma LagsStep(y: seq<real>, n: nat, x1: real, x2: real)
    requires n < |y| && x1 == y[n] && x2 == if n == 0 then 0.0 else y[n - 1]
    ensures Lag0(y[..n + 1]) == Lag0(y[..n]) + x1 * x1
    ensures Lag1(y[..n + 1]) == Lag1(y[..n]) + x1 * x2
  {
    var shorter, longer := y[..n], y[..n + 1];
    forall i | 0 <= i < n
      ensures Squares(longer)[i] == Squares(shorter)[i] && Products(longer)[i] == Products(shorter)[i]
    {
      assert longer[i] == shorter[i];
      assert i > 0 ==> longer[i - 1] == shorter[i - 1];
    }
    assert Squares(longer)[..n] == Squares(shorter);
    assert Products(longer)[..n] == Products(shorter);
  }

  /** The fields of ScreamTx that the trend uses. */
  class DelayTrend {
    const queueDelayFractionHist: array<real>
    var queueDelayFractionHistPtr: nat

    ghost predicate Valid()
      reads this
    {
      queueDelayFractionHist.Length == SAMPLES && queueDelayFractionHistPtr < SAMPLES
    }

    function History(): Ring20
      requires Valid()
      reads this, queueDelayFractionHist
    {
      queueDelayFractionHist[..]
    }

    constructor ()
      ensures Valid() && fresh(queueDelayFractionHist)
      ensures History() == seq(SAMPLES, _ => 0.0) && queueDelayFractionHistPtr == 0
    {
      queueDelayFractionHist := new real[SAMPLES](_ => 0.0);
      queueDelayFractionHistPtr := 0;
    }

    /** Stores the fraction `copies` times. */
    method Insert(fraction: real, copies: int)
      requires Valid()
      modifies this, queueDelayFractionHist
      ensures Valid()
      ensures (History(), queueDelayFractionHistPtr)
              == Inserted(old(History()), old(queueDelayFractionHistPtr), fraction, copies)
    {
      var n := 0;
      while n < copies
        invariant Valid()
        invariant Inserted(History(), queueDelayFractionHistPtr, fraction, copies - n)
                  == Inserted(old(History()), old(queueDelayFractionHistPtr), fraction, copies)
      {
        queueDelayFractionHist[queueDelayFractionHistPtr] := fraction;
        assert History() == History()[queueDelayFractionHistPtr := fraction];
        queueDelayFractionHistPtr := (queueDelayFractionHistPtr + 1) % SAMPLES;
        n := n + 1;
      }
    }

    /** The first loop of computeQueueDelayTrend. */
    method Average() returns (avg: real)
      requires Valid()
      ensures avg == Sum(Rotated(History(), queueDelayFractionHistPtr)) / 20.0
    {
      ghost var x := Rotated(History(), queueDelayFractionHistPtr);
      var ptr := queueDelayFractionHistPtr;
      avg := 0.0;
      for n := 0 to SAMPLES
        invariant ptr == (queueDelayFractionHistPtr + n) % SAMPLES
        invariant avg == Sum(x[..n])
      {
        SumStep(x, n);
        avg := avg + queueDelayFractionHist[ptr];
        NextSlot(queueDelayFractionHistPtr, n);
        ptr := (ptr + 1) % SAMPLES;
      }
      assert x[..SAMPLES] == x;
      avg := avg / 20.0;
    }

    /** Its second loop. */
    method Lags(avg: real) returns (a0: real, a1: real)
      requires Valid()
      ensures var y := Centred(Rotated(History(), queueDelayFractionHistPtr), avg);
              a0 == Lag0(y) && a1 == Lag1(y)
    {
      ghost var y := Centred(Rotated(History(), queueDelayFractionHistPtr), avg);
      var ptr := queueDelayFractionHistPtr;
      var x2 := 0.0;
      a0, a1 := 0.0, 0.0;
      for n := 0 to SAMPLES
        invariant ptr == (queueDelayFractionHistPtr + n) % SAMPLES
        invariant a0 == Lag0(y[..n]) && a1 == Lag1(y[..n])
        invariant x2 == if n == 0 then 0.0 else y[n - 1]
      {
        var x1 := queueDelayFractionHist[ptr] - avg;
        LagsStep(y, n, x1, x2);
        a0 := a0 + x1 * x1;
        a1 := a1 + x1 * x2;
        x2 := x1;
        NextSlot(queueDelayFractionHistPtr, n);
        ptr := (ptr + 1) % SAMPLES;
      }
      assert y[..SAMPLES] == y;
    }

    method ComputeQueueDelayTrend(fractionAvg: real) returns (trend: real)
      requires Valid()
      ensures trend == TrendOf(History(), queueDelayFractionHistPtr, fractionAvg)
    {
      var avg := Average();
      var a0, a1 := Lags(avg);
      trend := Indicator(a0, a1, fractionAvg);
    }
  }

  /** The ring and its pointer after `copies` insertions. */
  function Inserted(hist: Ring20, ptr: nat, fraction: real, copies: int): (Ring20, nat)
    requires ptr < SAMPLES
    decreases copies
  {
    if copies <= 0 then (hist, ptr)
    else Inserted(hist[ptr := fraction], (ptr + 1) % SAMPLES, fraction, copies - 1)
  }

  lemma NextIsIn(ptr: nat, n: nat, copies: nat)
    requires ptr < SAMPLES && n < SAMPLES && copies > 0
    ensures (n - ptr) % SAMPLES < copies <==> n == ptr || (n - (ptr + 1) % SAMPLES) % SAMPLES < copies - 1
    ensures ((ptr + 1) % SAMPLES + (copies - 1)) % SAMPLES == (ptr + copies) % SAMPLES
  {
  }

  /** The slots from the pointer on hold the fraction, the others what they held; the pointer is behind them. */
  lemma {:induction false} InsertedAt(hist: Ring20, ptr: nat, fraction: real, copies: nat, n: nat)
    requires ptr < SAMPLES && n < SAMPLES
    ensures var (hist', ptr') := Inserted(hist, ptr, fraction, copies);
            && hist'[n] == (if (n - ptr) % SAMPLES < copies then fraction else hist[n])
            && ptr' == (ptr + copies) % SAMPLES
    decreases copies
  {
    if copies > 0 {
      InsertedAt(hist[ptr := fraction], (ptr + 1) % SAMPLES, fraction, copies - 1, n);
      NextIsIn(ptr, n, copies);
    }
  }
}
