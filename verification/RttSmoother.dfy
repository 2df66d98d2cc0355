/** The integer round trip time smoother (SimEndpoint::ProcessPong and CalculateRtt), in uint32_t
    arithmetic. */
module RttSmoother {
  import opened Arithmetic
  import opened Words

  /** Smoothed round trip time and variance, in ms. */
  datatype Rtt = Rtt(rtt: nat, rttVar: nat)

  function AbsDiff(a: nat, b: nat): nat {
    if a > b then a - b else b - a
  }

  /** One sample. */
  function Smooth(s: Rtt, sample: nat): Rtt {
    var keep := MaxInt(5, sample);
    Rtt(MaxInt(10, Wrap32(7 * s.rtt + keep) / 8), MaxInt(10, Wrap32(3 * s.rttVar + AbsDiff(s.rtt, keep)) / 4))
  }

  function SmoothAll(s: Rtt, sample: nat, n: nat): Rtt
    decreases n
  {
    if n == 0 then s else Smooth(SmoothAll(s, sample, n - 1), sample)
  }

  /** Up to this no 32-bit operation wraps; beyond it 7 times the time plus the sample may. */
  const LIMIT := 0x1FFF_FFFF

  predicate Small(s: Rtt) {
    s.rtt <= LIMIT && s.rttVar <= LIMIT
  }

  /** The round trip time does not change any more under the constant sample r. */
  predicate Settled(s: Rtt, r: nat) {
    s.rtt <= r <= s.rtt + 7
  }

  /** One step under a sample of at least 10: the smoothed time never crosses the sample; from above it
      comes closer at once, from below while it is 8 or more away; then it stays. */
  lemma StepTowards(s: Rtt, r: nat)
    requires Small(s) && 10 <= r <= LIMIT
    ensures Small(Smooth(s, r))
    ensures s.rtt > r ==> r <= Smooth(s, r).rtt < s.rtt
    ensures s.rtt <= r ==> s.rtt <= Smooth(s, r).rtt <= r
    ensures s.rtt + 8 <= r ==> s.rtt < Smooth(s, r).rtt
    ensures Settled(s, r) && s.rtt >= 10 ==> Smooth(s, r).rtt == s.rtt
    ensures Settled(s, r) ==> Settled(Smooth(s, r), r)
  {
    NoWrap(s, r);
    var q := (7 * s.rtt + r) / 8;
    assert 8 * q <= 7 * s.rtt + r < 8 * q + 8;
  }

  lemma NoWrap(s: Rtt, r: nat)
    requires Small(s) && 5 <= r <= LIMIT
    ensures Smooth(s, r) == Rtt(MaxInt(10, (7 * s.rtt + r) / 8), MaxInt(10, (3 * s.rttVar + AbsDiff(s.rtt, r)) / 4))
  {
    assert Wrap32(7 * s.rtt + r) == 7 * s.rtt + r;
    assert Wrap32(3 * s.rttVar + AbsDiff(s.rtt, r)) == 3 * s.rttVar + AbsDiff(s.rtt, r);
  }

  /** x is n / d rounded down, but at least 10. */
  predicate DownToTen(x: nat, n: nat, d: nat) {
    x >= 10 && n < d * x + d && (x == 10 || d * x <= n)
  }

  /** The time moves an eighth of the way to the sample, the variance a quarter of the way to the distance between them;
      a sample counts as 5 at least. */
  lemma SmoothWeights(s: Rtt, sample: nat)
    requires Small(s) && sample <= LIMIT
    ensures var s', keep: nat := Smooth(s, sample), if sample < 5 then 5 else sample;
            var distance: nat := if s.rtt < keep then keep - s.rtt else s.rtt - keep;
            DownToTen(s'.rtt, 7 * s.rtt + keep, 8) && DownToTen(s'.rttVar, 3 * s.rttVar + distance, 4)
  {
    var keep := MaxInt(5, sample);
    NoWrap(s, keep);
    assert Smooth(s, sample) == Smooth(s, keep);
  }

  lemma {:induction false} SmallForever(s: Rtt, r: nat, n: nat)
    requires Small(s) && 10 <= r <= LIMIT
    ensures Small(SmoothAll(s, r, n))
  {
    if n > 0 {
      SmallForever(s, r, n - 1);
      StepTowards(SmoothAll(s, r, n - 1), r);
    }
  }

  /** The round trip time after n samples: from above it comes one closer per step at least, down to
      the sample itself; from below, up to at most 7 less; it never crosses. */
  lemma {:induction false} Approach(s: Rtt, r: nat, n: nat)
    requires Small(s) && 10 <= r <= LIMIT
    ensures var m := SmoothAll(s, r, n).rtt;
            && (s.rtt >= r ==> r <= m <= MaxInt(r, s.rtt - n))
            && (s.rtt <= r ==> MinInt(r - 7, s.rtt + n) <= m <= r)
  {
    if n > 0 {
      Approach(s, r, n - 1);
      SmallForever(s, r, n - 1);
      StepTowards(SmoothAll(s, r, n - 1), r);
    }
  }

  /** Once settled, the time stays as it is and the variance falls by one per step at least, down to 10. */
  lemma {:induction false} VarianceFalls(s: Rtt, r: nat, n: nat)
    requires Small(s) && 10 <= r <= LIMIT && Settled(s, r) && s.rtt >= 10
    ensures SmoothAll(s, r, n).rtt == s.rtt
    ensures n > 0 ==> 10 <= SmoothAll(s, r, n).rttVar <= MaxInt(10, s.rttVar - n)
  {
    if n > 0 {
      VarianceFalls(s, r, n - 1);
      SmallForever(s, r, n - 1);
      StepTowards(SmoothAll(s, r, n - 1), r);
      VarianceStep(SmoothAll(s, r, n - 1), r);
    }
  }

  lemma VarianceStep(s: Rtt, r: nat)
    requires Small(s) && 10 <= r <= LIMIT && Settled(s, r)
    ensures 10 <= Smooth(s, r).rttVar <= MaxInt(10, s.rttVar - 1)
  {
    NoWrap(s, r);
  }

  lemma {:induction false} SmoothAllSplit(s: Rtt, r: nat, a: nat, b: nat)
    ensures SmoothAll(s, r, a + b) == SmoothAll(SmoothAll(s, r, a), r, b)
  {
    if b > 0 {
      SmoothAllSplit(s, r, a, b - 1);
    }
  }

  /** The number of samples after which the time has settled. */
  function SettlingTime(s: Rtt, r: nat): nat {
    1 + AbsDiff(s.rtt, r)
  }

  /** Where the time ends: at the sample when it starts at or above it; otherwise where it starts, or 7
      below the sample when it starts below that, but at least at 10. */
  function End(s: Rtt, r: nat): int {
    if s.rtt >= r then r else MaxInt(10, MaxInt(s.rtt, r - 7))
  }

  /** From below the time does not pass that end. */
  lemma {:induction false} NeverPasses(s: Rtt, r: nat, n: nat)
    requires Small(s) && 10 <= r <= LIMIT && s.rtt < r
    ensures s.rtt <= SmoothAll(s, r, n).rtt <= End(s, r)
  {
    if n > 0 {
      NeverPasses(s, r, n - 1);
      SmallForever(s, r, n - 1);
      StepTowards(SmoothAll(s, r, n - 1), r);
      NoWrap(SmoothAll(s, r, n - 1), r);
      StopsShort(SmoothAll(s, r, n - 1).rtt, r, End(s, r));
    }
  }

  lemma StopsShort(m: nat, r: nat, end: int)
    requires m <= end && r - 7 <= end
    ensures (7 * m + r) / 8 <= end
  {
  }

  lemma SettlesInTime(s: Rtt, r: nat)
    requires Small(s) && 10 <= r <= LIMIT
    ensures var settled := SmoothAll(s, r, SettlingTime(s, r));
            Small(settled) && Settled(settled, r) && settled.rtt == End(s, r) >= 10
  {
    var t := SettlingTime(s, r);
    Approach(s, r, t);
    SmallForever(s, r, t);
    assert SmoothAll(s, r, t) == Smooth(SmoothAll(s, r, t - 1), r);
    if s.rtt < r {
      NeverPasses(s, r, t);
    }
  }

  /** Convergence: under a constant sample r >= 10 the time ends exactly at End: at r from at or above r, at
      r - 7 from there or below (for r >= 17), and where it was in between; then it stays; and then the
      variance falls to exactly 10 and stays. */
  lemma Converges(s: Rtt, r: nat, n: nat)
    requires Small(s) && 10 <= r <= LIMIT
    ensures var settled := SmoothAll(s, r, SettlingTime(s, r));
            && Settled(settled, r)
            && settled.rtt == End(s, r)
            && (n >= SettlingTime(s, r) ==> SmoothAll(s, r, n).rtt == End(s, r))
            && (n > SettlingTime(s, r) + settled.rttVar ==> SmoothAll(s, r, n).rttVar == 10)
  {
    var t := SettlingTime(s, r);
    SettlesInTime(s, r);
    if n >= t {
      VarianceFalls(SmoothAll(s, r, t), r, n - t);
      SmoothAllSplit(s, r, t, n - t);
    }
  }

  /** The integer division stops 7 short of the sample: a time of r - 7 stays there. */
  lemma SevenShort(s: Rtt, r: nat)
    requires Small(s) && 17 <= r <= LIMIT && s.rtt == r - 7
    ensures Smooth(s, r).rtt == r - 7
  {
  }

  /** The limit is exact: one more, and the sum wraps to zero. */
  lemma BeyondTheLimit(rttVar: nat)
    ensures Smooth(Rtt(LIMIT + 1, rttVar), LIMIT + 1).rtt == 10
  {
  }

  class SimEndpoint {
    var rtt: nat
    var rttVar: nat
    var firstRtt: bool

    constructor ()
      ensures State() == Rtt(100, 5) && firstRtt
    {
      rtt, rttVar, firstRtt := 100, 5, true;
    }

    function State(): Rtt
      reads this
    {
      Rtt(rtt, rttVar)
    }

    method CalculateRtt(sample: nat)
      modifies this`rtt, this`rttVar
      ensures State() == Smooth(old(State()), sample)
    {
      var keepRtt := sample;
      if keepRtt < 5 {
        keepRtt := 5;
      }
      rttVar := Wrap32(3 * rttVar + (if rtt > keepRtt then rtt - keepRtt else keepRtt - rtt)) / 4;
      if rttVar < 10 {
        rttVar := 10;
      }
      rtt := Wrap32(7 * rtt + keepRtt) / 8;
      if rtt < 10 {
        rtt := 10;
      }
    }

    /** The first answer sets the time, later ones are smoothed in. */
    method ProcessPong(now: int, sent: int)
      modifies this
      ensures !firstRtt
      ensures var sample := if now > sent + 5 then Wrap32(now - sent) else 5;
              State() == if old(firstRtt) then Rtt(sample, old(rttVar)) else Smooth(old(State()), sample)
    {
      var keepRtt := 5;
      if now > sent + 5 {
        keepRtt := Wrap32(now - sent);
      }
      if !firstRtt {
        CalculateRtt(keepRtt);
      }
      if firstRtt {
        firstRtt := false;
        rtt := keepRtt;
      }
    }
  }
}
