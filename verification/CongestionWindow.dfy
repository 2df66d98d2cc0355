/** The congestion window of the sender: the scalar members of ScreamTx that steer it, and
    ScreamTx::updateCwnd as a function of them. Floats are modelled as reals. */
module CongestionWindow {
  import opened Arithmetic
  import opened BaseDelay
  import opened DelayTrend

  const INIT_MSS := 100
  const TARGET_MAX: real := 0.3

  /** Constructor parameters. */
  datatype Config = Config(
    lossBeta: real, ecnCeBeta: real, queueDelayTargetMin: real, enableSbd: bool,
    gainUp: real, gainDown: real, isL4s: bool, openWindow: bool)

  /** The scalar members of ScreamTx that take part in congestion control. Times in us. */
  datatype Control = Control(
    isInitialized: bool,
    mss: int, cwnd: int, cwndMin: int,
    bytesInFlight: int, bytesNewlyAcked: int,
    lossEvent: bool, ecnCeEvent: bool, wasLossEvent: bool, inFastStart: bool, lossEventRate: real,
    queueDelay: real, queueDelayTarget: real, queueDelayMin: real, queueDelayMinAvg: real,
    queueDelayFractionAvg: real, queueDelayTrend: real, maxBytesInFlight: real,
    sRttSh: nat, sRtt: nat, paceInterval: nat,
    initTime: nat, lastSRttUpdate: nat, lastCwndUpdate: nat, lastFractionAdd: nat, lastRtt: nat,
    lastCongestion: nat, lastLossEvent: nat, baseOwdReset: nat, lastBytesInFlight: nat,
    lastTransmit: nat, nextTransmit: nat)

  /** The control members with the delay histories that updateCwnd touches. */
  datatype Core = Core(c: Control, delay: Delay, fractions: Ring20, fractionPtr: nat)

  /** What one update takes from parts of the program that are not modelled: the media rates, the
      bytes-in-flight limit, the shared-bottleneck statistics, the pacing interval and the L4S
      scaling factor. */
  datatype Inputs = Inputs(
    maxRate: real, rateTransmitted: real, maxBytesInFlight: real, paceInterval: nat,
    sbdMean: real, sbdDeviation: real, sbdVariance: real, sbdSkew: real, l4sAlpha: real)

  function MaxReal(a: real, b: real): real {
    if a < b then b else a
  }

  function MinReal(a: real, b: real): real {
    if a < b then a else b
  }

  /** A cast from uint64_t to int. */
  function ToInt32(n: nat): int {
    var m := n % 0x1_0000_0000;
    if m < 0x8000_0000 then m else m - 0x1_0000_0000
  }

  /** bytesNewlyAckedLimited. */
  function Limited(c: Control, inp: Inputs, time: nat): real {
    var dT := if c.lastCwndUpdate == 0 then 0.001 else Sub64(time, c.lastCwndUpdate) as real * 0.000001;
    if inp.maxRate > 100000.0
    then MinReal(c.bytesNewlyAcked as real, 1.25 * inp.maxRate * dT / 8.0)
    else 2.0 * c.mss as real
  }

  /** The base delay is reset when the queue delay has not come close to zero for long. */
  predicate Drifted(c: Control, time: nat) {
    c.queueDelayMinAvg > 0.25 * c.queueDelayTarget && Sub64(time, c.baseOwdReset) > 20_000_000
  }

  function ResetIfDrifted(core: Core, time: nat): Core {
    if Drifted(core.c, time)
    then core.(c := core.c.(queueDelayMinAvg := 0.0, queueDelay := 0.0, baseOwdReset := time),
               delay := Reset(core.delay))
    else core
  }

  function Fraction(c: Control): real
    requires c.queueDelayTarget > 0.0
  {
    c.queueDelay / c.queueDelayTarget
  }

  /** The adaptation of queueDelayTarget to competing flows, for the offset oh that their delay suggests. */
  function TargetFor(cfg: Config, c: Control, inp: Inputs, oh: real): real {
    if c.lossEventRate > 0.002 && inp.sbdMean > 0.5 && inp.sbdVariance < 0.2 then
      MinReal(TARGET_MAX, oh * 1.5)
    else if inp.sbdVariance < 0.2 && inp.sbdSkew < 0.05 then
      MaxReal(cfg.queueDelayTargetMin, MinReal(TARGET_MAX, oh))
    else if oh < c.queueDelayTarget then
      MaxReal(cfg.queueDelayTargetMin, MaxReal(c.queueDelayTarget * 0.99, oh))
    else
      MaxReal(cfg.queueDelayTargetMin, c.queueDelayTarget * 0.999)
  }

  function Offset(cfg: Config, inp: Inputs): real {
    cfg.queueDelayTargetMin * (inp.sbdMean + inp.sbdDeviation)
  }

  function NextTarget(cfg: Config, c: Control, inp: Inputs): real {
    TargetFor(cfg, c, inp, Offset(cfg, inp))
  }

  /** How often the fraction is stored after `elapsed` us. */
  function Copies(elapsed: nat): int {
    ToInt32(ToInt32(elapsed) % 0x1_0000_0000_0000_0000 / 50000)
  }

  /** The control members after the less frequent part of updateCwnd, before the target is adapted. */
  function Refreshed(c: Control, inp: Inputs, trend: real, time: nat): Control {
    c.(paceInterval := inp.paceInterval,
       queueDelayMinAvg := if c.queueDelayMin < c.queueDelayMinAvg then c.queueDelayMin
                           else 0.001 * c.queueDelayMin + 0.999 * c.queueDelayMinAvg,
       queueDelayMin := 1000.0, queueDelayTrend := trend, maxBytesInFlight := inp.maxBytesInFlight,
       lastFractionAdd := time)
  }

  /** The less frequent part of updateCwnd. */
  function Refresh(cfg: Config, core: Core, inp: Inputs, time: nat): Core
    requires core.c.queueDelayTarget > 0.0 && core.fractionPtr < SAMPLES
  {
    var c := core.c;
    if Sub64(time, c.lastFractionAdd) > 50000 then
      var (hist, ptr) := Inserted(core.fractions, core.fractionPtr, Fraction(c), Copies(Sub64(time, c.lastFractionAdd)));
      var trend := if Sub64(time, c.initTime) > 2_000_000 then TrendOf(hist, ptr, c.queueDelayFractionAvg)
                   else c.queueDelayTrend;
      var c1 := Refreshed(c, inp, trend, time);
      Core(if cfg.enableSbd then c1.(queueDelayTarget := NextTarget(cfg, c1, inp)) else c1, core.delay, hist, ptr)
    else core
  }

  function OffTarget(c: Control): real
    requires c.queueDelayTarget > 0.0
  {
    (c.queueDelayTarget - c.queueDelay) / c.queueDelayTarget
  }

  /** The window after a loss or ECN event. */
  function Shrink(c: Control, beta: real): int {
    MaxInt(c.cwndMin, Trunc(beta * c.cwnd as real))
  }

  /** The window is used well enough to grow. */
  predicate WellUsed(c: Control, margin: real) {
    c.bytesInFlight as real * margin + c.bytesNewlyAcked as real > c.cwnd as real
  }

  function Increment(cfg: Config, c: Control, limited: real): real
    requires c.queueDelayTarget > 0.0 && c.cwnd > 0
  {
    cfg.gainUp * OffTarget(c) * limited * c.mss as real / c.cwnd as real
  }

  function Decrement(cfg: Config, c: Control): int
    requires c.queueDelayTarget > 0.0 && c.cwnd > 0
  {
    MinInt(Trunc(BackOff(cfg, c)), c.cwnd / 4)
  }

  function BackOff(cfg: Config, c: Control): real
    requires c.queueDelayTarget > 0.0 && c.cwnd > 0
  {
    -(cfg.gainDown * OffTarget(c) * c.bytesNewlyAcked as real * c.mss as real / c.cwnd as real)
  }

  /** After a loss or an ECN mark. */
  function Punished(c: Control, beta: real, time: nat): Control {
    c.(cwnd := Shrink(c, beta), lastCongestion := time, inFastStart := false, wasLossEvent := true)
  }

  /** The loss event rate is averaged once per round trip. */
  function Aged(c: Control, time: nat): Control {
    if Sub64(time, c.lastRtt) > c.sRtt
    then c.(lossEventRate := 0.99 * c.lossEventRate + (if c.wasLossEvent then 0.01 else 0.0),
            wasLossEvent := false, lastRtt := time)
    else c
  }

  function FastStart(c: Control, limited: real): Control {
    if c.queueDelayTrend >= 0.2 then c.(inFastStart := false)
    else if WellUsed(c, 1.5) then c.(cwnd := Trunc(c.cwnd as real + limited))
    else c
  }

  /** Outside fast start the window follows the queue delay. */
  function Follow(cfg: Config, c: Control, limited: real, time: nat): Control
    requires c.queueDelayTarget > 0.0 && c.cwnd > 0
  {
    if OffTarget(c) > 0.0 then
      if WellUsed(c, 1.2) then c.(cwnd := c.cwnd + Trunc(Increment(cfg, c, limited) + 0.5)) else c
    else
      c.(cwnd := c.cwnd - Decrement(cfg, c), lastCongestion := time)
  }

  function EcnBeta(cfg: Config, inp: Inputs): real {
    if cfg.isL4s then 1.0 - inp.l4sAlpha / 2.0 else cfg.ecnCeBeta
  }

  /** The reaction to loss, ECN marks and queue delay, before the window is validated. */
  function Steer(cfg: Config, c: Control, inp: Inputs, limited: real, time: nat): Control
    requires c.queueDelayTarget > 0.0 && c.cwnd > 0
  {
    if c.lossEvent then Punished(c, cfg.lossBeta, time).(lossEvent := false)
    else if c.ecnCeEvent then Punished(c, EcnBeta(cfg, inp), time).(ecnCeEvent := false)
    else if c.inFastStart then FastStart(Aged(c, time), limited)
    else Follow(cfg, Aged(c, time), limited, time)
  }

  /** Congestion window validation. */
  function Validate(c: Control, inp: Inputs): Control {
    var w := if c.maxBytesInFlight > 5000.0 then MinInt(c.cwnd, Trunc(c.maxBytesInFlight)) else c.cwnd;
    c.(cwnd := MaxInt(c.cwndMin, Raised(c, inp, w)))
  }

  /** The window w, raised on short round trips. */
  function Raised(c: Control, inp: Inputs, w: int): int {
    if c.sRtt as real * 0.000001 < 0.01 && c.queueDelayTrend < 0.1
    then MaxInt(w, MaxInt(Trunc(inp.rateTransmitted * 0.01 / 8.0), Trunc(c.maxBytesInFlight * 1.5)))
    else w
  }

  /** Fast start is resumed when there was no sign of congestion for five seconds. */
  function Resume(c: Control, time: nat): Control {
    if c.queueDelayTrend > 0.2 then c.(lastCongestion := time)
    else if Sub64(time, c.lastCongestion) > 5_000_000 && !c.inFastStart
    then c.(inFastStart := true, lastCongestion := time)
    else c
  }

  /** The smallest queue delay since the last refresh. */
  function Observed(c: Control, time: nat): Control {
    c.(queueDelayMin := MinReal(c.queueDelayMin, c.queueDelay),
       lastCwndUpdate := if c.lastCwndUpdate == 0 then time else c.lastCwndUpdate)
  }

  /** The averaged queue delay fraction. */
  function Smoothed(c: Control): Control
    requires c.queueDelayTarget > 0.0
  {
    c.(queueDelayFractionAvg := 0.9 * c.queueDelayFractionAvg + 0.1 * Fraction(c))
  }

  /** The averages at the start of an update. */
  function Average(core: Core, time: nat): Core
    requires core.c.queueDelayTarget > 0.0
  {
    var core1 := ResetIfDrifted(core.(c := Observed(core.c, time)), time);
    core1.(c := Smoothed(core1.c))
  }

  /** ScreamTx::updateCwnd. */
  function UpdateCwnd(cfg: Config, core: Core, inp: Inputs, time: nat): Core
    requires ConfigOk(cfg) && InputsOk(inp) && ControlOk(cfg, core.c) && core.fractionPtr < SAMPLES
  {
    var limited := Limited(core.c, inp, time);
    var core1 := Refresh(cfg, Average(core, time), inp, time);
    RefreshKeeps(cfg, core, inp, time);
    var c := Resume(Validate(Steer(cfg, core1.c, inp, limited, time), inp), time);
    core1.(c := c.(bytesNewlyAcked := 0))
  }

  // ---- what holds at every call boundary ----

  ghost predicate ConfigOk(cfg: Config) {
    0.0 < cfg.queueDelayTargetMin <= TARGET_MAX
  }

  /** What the bounds on growth and back-off need in addition. */
  ghost predicate GainsOk(cfg: Config) {
    ConfigOk(cfg) && cfg.gainUp >= 0.0 && cfg.gainDown >= 0.0
  }

  ghost predicate InputsOk(inp: Inputs) {
    inp.sbdVariance >= 0.0 && inp.sbdDeviation >= 0.0 && inp.sbdDeviation * inp.sbdDeviation == inp.sbdVariance
  }

  ghost predicate TargetOk(cfg: Config, target: real) {
    0.75 * cfg.queueDelayTargetMin <= target <= TARGET_MAX
  }

  /** The window never is below its minimum, nor that below two segments; the delay target stays
      within its limits. */
  ghost predicate ControlOk(cfg: Config, c: Control) {
    && c.mss >= INIT_MSS
    && c.cwnd >= c.cwndMin >= 2 * c.mss
    && TargetOk(cfg, c.queueDelayTarget)
    && c.queueDelay >= 0.0
    && c.bytesNewlyAcked >= 0
  }

  lemma TargetForInRange(cfg: Config, c: Control, inp: Inputs, oh: real)
    requires ConfigOk(cfg) && TargetOk(cfg, c.queueDelayTarget)
    requires inp.sbdMean > 0.5 && inp.sbdVariance < 0.2 ==> oh >= cfg.queueDelayTargetMin * 0.5
    ensures TargetOk(cfg, TargetFor(cfg, c, inp, oh))
  {
  }

  lemma NextTargetStaysInRange(cfg: Config, c: Control, inp: Inputs)
    requires ConfigOk(cfg) && InputsOk(inp) && TargetOk(cfg, c.queueDelayTarget)
    ensures TargetOk(cfg, NextTarget(cfg, c, inp))
  {
    if inp.sbdMean > 0.5 {
      ScaleUp(cfg.queueDelayTargetMin, 0.5, inp.sbdMean + inp.sbdDeviation);
    }
    TargetForInRange(cfg, c, inp, Offset(cfg, inp));
  }

  /** What the first part of an update leaves alone. */
  predicate SameWindow(c: Control, c': Control) {
    && c'.cwnd == c.cwnd && c'.cwndMin == c.cwndMin && c'.mss == c.mss
    && c'.bytesNewlyAcked == c.bytesNewlyAcked && c'.bytesInFlight == c.bytesInFlight
    && c'.lossEvent == c.lossEvent && c'.ecnCeEvent == c.ecnCeEvent && c'.inFastStart == c.inFastStart
  }

  lemma AverageKeeps(cfg: Config, core: Core, time: nat)
    requires ConfigOk(cfg) && ControlOk(cfg, core.c)
    ensures var core1 := Average(core, time);
            ControlOk(cfg, core1.c) && SameWindow(core.c, core1.c) && core1.fractionPtr == core.fractionPtr
  {
  }

  lemma RefreshStepKeeps(cfg: Config, core: Core, inp: Inputs, time: nat)
    requires ConfigOk(cfg) && InputsOk(inp) && ControlOk(cfg, core.c) && core.fractionPtr < SAMPLES
    ensures var core1 := Refresh(cfg, core, inp, time);
            ControlOk(cfg, core1.c) && SameWindow(core.c, core1.c) && core1.fractionPtr < SAMPLES
  {
    InsertedPtr(core.fractions, core.fractionPtr, Fraction(core.c), Copies(Sub64(time, core.c.lastFractionAdd)));
    forall c': Control | TargetOk(cfg, c'.queueDelayTarget) ensures TargetOk(cfg, NextTarget(cfg, c', inp)) {
      NextTargetStaysInRange(cfg, c', inp);
    }
  }

  lemma RefreshKeeps(cfg: Config, core: Core, inp: Inputs, time: nat)
    requires ConfigOk(cfg) && InputsOk(inp) && ControlOk(cfg, core.c) && core.fractionPtr < SAMPLES
    ensures var core1 := Refresh(cfg, Average(core, time), inp, time);
            ControlOk(cfg, core1.c) && SameWindow(core.c, core1.c) && core1.fractionPtr < SAMPLES
  {
    AverageKeeps(cfg, core, time);
    RefreshStepKeeps(cfg, Average(core, time), inp, time);
  }

  lemma {:induction false} InsertedPtr(hist: Ring20, ptr: nat, fraction: real, copies: int)
    requires ptr < SAMPLES
    ensures Inserted(hist, ptr, fraction, copies).1 < SAMPLES
    decreases copies
  {
    if copies > 0 {
      InsertedPtr(hist[ptr := fraction], (ptr + 1) % SAMPLES, fraction, copies - 1);
    }
  }

  // ---- how far one update moves the window ----

  lemma TruncBounds(r: real)
    ensures r >= 0.0 ==> 0 <= Trunc(r) && Trunc(r) as real <= r < Trunc(r) as real + 1.0
    ensures r <= 0.0 ==> Trunc(r) <= 0
  {
  }

  lemma TruncMonotone(r: real, n: int)
    requires r <= n as real && n >= 0
    ensures Trunc(r) <= n
  {
    TruncBounds(r);
  }

  lemma QuotientNonNegative(a: real, b: real)
    requires a >= 0.0 && b > 0.0
    ensures a / b >= 0.0
  {
  }

  /** OffTarget is at most 1, and negative exactly when the delay is above the target. */
  lemma OffTargetBounds(c: Control)
    requires c.queueDelayTarget > 0.0 && c.queueDelay >= 0.0
    ensures OffTarget(c) <= 1.0
    ensures OffTarget(c) > 0.0 <==> c.queueDelay < c.queueDelayTarget
  {
    var t, x := c.queueDelayTarget, OffTarget(c);
    assert x * t == t - c.queueDelay;
    if x > 1.0 {
      ProductPositive(x - 1.0, t);
    }
    if x > 0.0 {
      ProductPositive(x, t);
    } else {
      ProductNonNegative(-x, t);
    }
  }

  /** The increment outside fast start is at most gainUp times half of the newly acked bytes. */
  lemma IncrementBounds(cfg: Config, c: Control, limited: real)
    requires GainsOk(cfg) && ControlOk(cfg, c) && OffTarget(c) > 0.0 && limited >= 0.0
    ensures 0.0 <= Increment(cfg, c, limited) <= cfg.gainUp * limited / 2.0
  {
    OffTargetBounds(c);
    var mss, cwnd := c.mss as real, c.cwnd as real;
    var a := cfg.gainUp * OffTarget(c);
    var b := a * limited;
    ProductNonNegative(cfg.gainUp, OffTarget(c));
    ScaleUp(cfg.gainUp, OffTarget(c), 1.0);
    assert a <= cfg.gainUp;
    ProductNonNegative(a, limited);
    ScaleUp(limited, a, cfg.gainUp);
    HalfShare(b, mss, cwnd);
    assert b <= cfg.gainUp * limited;
  }

  lemma HalfShare(b: real, mss: real, cwnd: real)
    requires b >= 0.0 && mss > 0.0 && cwnd >= 2.0 * mss
    ensures 0.0 <= b * mss / cwnd <= b / 2.0
  {
    ProductNonNegative(b, mss);
    QuotientNonNegative(b * mss, cwnd);
    ScaleUp(b, 2.0 * mss, cwnd);
    var q := b * mss / cwnd;
    assert q * cwnd == b * mss;
    assert b * (2.0 * mss) == 2.0 * (b * mss);
    var excess := 2.0 * q - b;
    if excess > 0.0 {
      ProductPositive(excess, cwnd);
    }
    assert excess * cwnd == 2.0 * (q * cwnd) - b * cwnd;
  }

  /** At or above the target the back-off is not negative. */
  lemma BackOffNonNegative(cfg: Config, c: Control)
    requires GainsOk(cfg) && ControlOk(cfg, c) && OffTarget(c) <= 0.0
    ensures BackOff(cfg, c) >= 0.0
  {
    var acked, mss, cwnd := c.bytesNewlyAcked as real, c.mss as real, c.cwnd as real;
    var a := cfg.gainDown * OffTarget(c);
    ProductNonNegative(cfg.gainDown, -OffTarget(c));
    assert a <= 0.0;
    ProductNonNegative(-a, acked);
    var b := a * acked;
    assert b <= 0.0;
    ProductNonNegative(-b, mss);
    var d := b * mss;
    assert d <= 0.0;
    QuotientNonNegative(-d, cwnd);
    assert d / cwnd == -(-d / cwnd);
  }

  /** The delay back-off is between nothing and a quarter of the window. */
  lemma DecrementBounds(cfg: Config, c: Control)
    requires GainsOk(cfg) && ControlOk(cfg, c) && OffTarget(c) <= 0.0
    ensures 0 <= Decrement(cfg, c) <= c.cwnd / 4
  {
    BackOffNonNegative(cfg, c);
    TruncBounds(BackOff(cfg, c));
  }

  lemma ShrinkBounds(c: Control, beta: real)
    requires beta <= 1.0 && 0 <= c.cwndMin <= c.cwnd
    ensures c.cwndMin <= Shrink(c, beta) <= c.cwnd
  {
    ScaleUp(c.cwnd as real, beta, 1.0);
    TruncMonotone(beta * c.cwnd as real, c.cwnd);
  }

  /** How far one update may move the window to w, before validation: a loss or an ECN mark never raises
      it; a delay back-off takes at most a quarter; growth is at most the limited newly acked bytes in
      fast start, and at most half of gainUp times that plus rounding outside of it. */
  ghost predicate Bounded(cfg: Config, c: Control, inp: Inputs, limited: real, w: int) {
    if c.lossEvent then cfg.lossBeta <= 1.0 ==> c.cwndMin <= w <= c.cwnd
    else if c.ecnCeEvent then EcnBeta(cfg, inp) <= 1.0 ==> c.cwndMin <= w <= c.cwnd
    else if c.inFastStart then c.cwnd <= w && w as real <= c.cwnd as real + limited
    else if c.queueDelay < c.queueDelayTarget then
      c.cwnd <= w && w as real <= c.cwnd as real + cfg.gainUp * limited / 2.0 + 0.5
    else c.cwnd - c.cwnd / 4 <= w <= c.cwnd
  }

  lemma SteerBounds(cfg: Config, c: Control, inp: Inputs, limited: real, time: nat)
    requires GainsOk(cfg) && ControlOk(cfg, c) && limited >= 0.0
    ensures Bounded(cfg, c, inp, limited, Steer(cfg, c, inp, limited, time).cwnd)
  {
    if c.lossEvent {
      if cfg.lossBeta <= 1.0 {
        ShrinkBounds(c, cfg.lossBeta);
      }
    } else if c.ecnCeEvent {
      if EcnBeta(cfg, inp) <= 1.0 {
        ShrinkBounds(c, EcnBeta(cfg, inp));
      }
    } else if c.inFastStart {
      TruncBounds(c.cwnd as real + limited);
    } else {
      FollowBounds(cfg, Aged(c, time), limited, time);
    }
  }

  lemma FollowBounds(cfg: Config, c: Control, limited: real, time: nat)
    requires GainsOk(cfg) && ControlOk(cfg, c) && limited >= 0.0
    ensures var w := Follow(cfg, c, limited, time).cwnd;
            if c.queueDelay < c.queueDelayTarget
            then c.cwnd <= w && w as real <= c.cwnd as real + cfg.gainUp * limited / 2.0 + 0.5
            else c.cwnd - c.cwnd / 4 <= w <= c.cwnd
  {
    OffTargetBounds(c);
    if OffTarget(c) > 0.0 {
      IncrementBounds(cfg, c, limited);
      TruncBounds(Increment(cfg, c, limited) + 0.5);
    } else {
      DecrementBounds(cfg, c);
    }
  }

  /** What bounds the growth is never negative. */
  lemma LimitedNonNegative(cfg: Config, c: Control, inp: Inputs, time: nat)
    requires ControlOk(cfg, c)
    ensures Limited(c, inp, time) >= 0.0
    ensures inp.maxRate > 100000.0 ==> Limited(c, inp, time) <= c.bytesNewlyAcked as real
  {
    var dT := if c.lastCwndUpdate == 0 then 0.001 else Sub64(time, c.lastCwndUpdate) as real * 0.000001;
    if inp.maxRate > 100000.0 {
      ProductNonNegative(1.25 * inp.maxRate, dT);
    }
  }

  /** `c'` differs from `c` at most in the window and in what does not enter the invariant. */
  predicate SameBut(c: Control, c': Control) {
    && c'.mss == c.mss && c'.cwndMin == c.cwndMin
    && c'.queueDelay == c.queueDelay && c'.queueDelayTarget == c.queueDelayTarget
    && c'.bytesNewlyAcked == c.bytesNewlyAcked && c'.bytesInFlight == c.bytesInFlight
    && c'.queueDelayTrend == c.queueDelayTrend && c'.maxBytesInFlight == c.maxBytesInFlight && c'.sRtt == c.sRtt
  }

  lemma SteerFrame(cfg: Config, c: Control, inp: Inputs, limited: real, time: nat)
    requires c.queueDelayTarget > 0.0 && c.cwnd > 0
    ensures SameBut(c, Steer(cfg, c, inp, limited, time))
  {
  }

  lemma ValidateBounds(c: Control, inp: Inputs)
    requires c.cwndMin >= 0
    ensures var c' := Validate(c, inp);
            && SameBut(c, c') && c'.cwnd >= c'.cwndMin
            && (|| c'.cwnd <= MaxInt(c.cwndMin, c.cwnd)
                || (ShortRoundTrips(c) && c'.cwnd as real <= RaisedUpTo(c, inp)))
  {
    TruncBounds(inp.rateTransmitted * 0.01 / 8.0);
    TruncBounds(c.maxBytesInFlight * 1.5);
  }

  /** The only case in which the validation stage raises the window, and how far. */
  predicate ShortRoundTrips(c: Control) {
    c.sRtt < 10_000 && c.queueDelayTrend < 0.1
  }

  function RaisedUpTo(c: Control, inp: Inputs): real {
    MaxReal(inp.rateTransmitted * 0.01 / 8.0, c.maxBytesInFlight * 1.5)
  }

  /** The end of an update, from any window: never below the minimum, and otherwise raised only on
      short round trips. */
  lemma FinishBounds(cfg: Config, c: Control, inp: Inputs, time: nat)
    requires c.cwndMin >= 2 * c.mss && c.mss >= INIT_MSS
    ensures var c' := Resume(Validate(c, inp), time);
            && SameBut(c, c') && c'.cwnd >= c'.cwndMin
            && (|| c'.cwnd <= MaxInt(c.cwndMin, c.cwnd)
                || (ShortRoundTrips(c) && c'.cwnd as real <= RaisedUpTo(c, inp)))
  {
    ValidateBounds(c, inp);
  }

  /** An update keeps the window invariant, whatever the parts that are not modelled supply. */
  lemma UpdateKeeps(cfg: Config, core: Core, inp: Inputs, time: nat)
    requires ConfigOk(cfg) && InputsOk(inp) && ControlOk(cfg, core.c) && core.fractionPtr < SAMPLES
    ensures var core' := UpdateCwnd(cfg, core, inp, time);
            && ControlOk(cfg, core'.c)
            && core'.fractionPtr < SAMPLES
            && core'.c.bytesInFlight == core.c.bytesInFlight
            && core'.c.mss == core.c.mss && core'.c.cwndMin == core.c.cwndMin
  {
    RefreshKeeps(cfg, core, inp, time);
    var c := Refresh(cfg, Average(core, time), inp, time).c;
    var limited := Limited(core.c, inp, time);
    SteerFrame(cfg, c, inp, limited, time);
    FinishBounds(cfg, Steer(cfg, c, inp, limited, time), inp, time);
  }

  lemma HalfGain(gain: real, limited: real)
    requires gain <= 1.0 && limited >= 0.0
    ensures gain * limited / 2.0 <= limited
  {
    var p := gain * limited;
    assert p <= limited by {
      ScaleUp(limited, gain, 1.0);
    }
  }

  lemma BoundedGrowth(cfg: Config, c: Control, inp: Inputs, limited: real, w: int)
    requires Bounded(cfg, c, inp, limited, w) && limited >= 0.0
    requires cfg.gainUp <= 1.0 && cfg.lossBeta <= 1.0 && EcnBeta(cfg, inp) <= 1.0
    ensures w as real <= c.cwnd as real + limited + 0.5
  {
    var p := cfg.gainUp * limited / 2.0;
    HalfGain(cfg.gainUp, limited);
    assert p <= limited;
  }

  lemma SteerGrowth(cfg: Config, c: Control, inp: Inputs, limited: real, time: nat)
    requires GainsOk(cfg) && ControlOk(cfg, c) && limited >= 0.0
    requires cfg.gainUp <= 1.0 && cfg.lossBeta <= 1.0 && EcnBeta(cfg, inp) <= 1.0
    ensures Steer(cfg, c, inp, limited, time).cwnd as real <= c.cwnd as real + limited + 0.5
  {
    SteerBounds(cfg, c, inp, limited, time);
    BoundedGrowth(cfg, c, inp, limited, Steer(cfg, c, inp, limited, time).cwnd);
  }

  /** The window that `updateCwnd` validates, and the control members it starts from. */
  function Steered(cfg: Config, core: Core, inp: Inputs, time: nat): Control
    requires ConfigOk(cfg) && InputsOk(inp) && ControlOk(cfg, core.c) && core.fractionPtr < SAMPLES
  {
    RefreshKeeps(cfg, core, inp, time);
    Steer(cfg, Refresh(cfg, Average(core, time), inp, time).c, inp, Limited(core.c, inp, time), time)
  }

  /** One whole update grows the window by at most the limited newly acked bytes, plus rounding;
      beyond that only the validation stage can raise it, and only on short round trips, up to
      the media rate or 1.5 times the bytes-in-flight limit. */
  lemma UpdateGrowth(cfg: Config, core: Core, inp: Inputs, time: nat)
    requires GainsOk(cfg) && InputsOk(inp) && ControlOk(cfg, core.c) && core.fractionPtr < SAMPLES
    requires cfg.gainUp <= 1.0 && cfg.lossBeta <= 1.0 && EcnBeta(cfg, inp) <= 1.0
    ensures var w := UpdateCwnd(cfg, core, inp, time).c.cwnd as real;
            || w <= core.c.cwnd as real + Limited(core.c, inp, time) + 0.5
            || (ShortRoundTrips(Steered(cfg, core, inp, time)) && w <= RaisedUpTo(Steered(cfg, core, inp, time), inp))
  {
    RefreshKeeps(cfg, core, inp, time);
    LimitedNonNegative(cfg, core.c, inp, time);
    var limited := Limited(core.c, inp, time);
    var c := Refresh(cfg, Average(core, time), inp, time).c;
    var c1 := Steer(cfg, c, inp, limited, time);
    SteerFrame(cfg, c, inp, limited, time);
    SteerGrowth(cfg, c, inp, limited, time);
    assert c1.cwnd as real <= core.c.cwnd as real + limited + 0.5;
    assert c1.cwndMin <= core.c.cwnd;
    FinishBounds(cfg, c1, inp, time);
  }
}
