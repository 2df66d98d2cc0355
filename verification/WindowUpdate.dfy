/** The parts of ScreamTx::updateCwnd as code, on the record of its scalar members. */
module WindowUpdate {
  import opened Arithmetic
  import opened BaseDelay
  import opened CongestionWindow
  import opened WindowReactions

  /** The target stays in its range. */
  method AdaptTarget(cfg: Config, c: Control, inp: Inputs) returns (target: real)
    ensures target == NextTarget(cfg, c, inp)
    ensures ConfigOk(cfg) && InputsOk(inp) && TargetOk(cfg, c.queueDelayTarget) ==> TargetOk(cfg, target)
  {
    target := ChooseTarget(cfg, c, inp, Offset(cfg, inp));
    if ConfigOk(cfg) && InputsOk(inp) && TargetOk(cfg, c.queueDelayTarget) {
      NextTargetStaysInRange(cfg, c, inp);
    }
  }

  method ChooseTarget(cfg: Config, c: Control, inp: Inputs, oh: real) returns (target: real)
    ensures target == TargetFor(cfg, c, inp, oh)
    ensures ConfigOk(cfg) && TargetOk(cfg, c.queueDelayTarget) && oh >= cfg.queueDelayTargetMin * 0.5 ==> TargetOk(cfg, target)
    ensures ConfigOk(cfg) ==> Follows(cfg, c, inp, oh, target)
  {
    target := c.queueDelayTarget;
    if c.lossEventRate > 0.002 && inp.sbdMean > 0.5 && inp.sbdVariance < 0.2 {
      target := MinReal(TARGET_MAX, oh * 1.5);
    } else if inp.sbdVariance < 0.2 && inp.sbdSkew < 0.05 {
      target := MaxReal(cfg.queueDelayTargetMin, MinReal(TARGET_MAX, oh));
    } else if oh < target {
      target := MaxReal(cfg.queueDelayTargetMin, MaxReal(target * 0.99, oh));
    } else {
      target := MaxReal(cfg.queueDelayTargetMin, target * 0.999);
    }
  }

  /** Growth is at most half of gainUp times the limited bytes, a back-off at most a quarter. */
  method FollowDelay(cfg: Config, c0: Control, limited: real, time: nat) returns (c: Control)
    requires c0.queueDelayTarget > 0.0 && c0.cwnd > 0
    ensures c == Follow(cfg, c0, limited, time)
    ensures GainsOk(cfg) && ControlOk(cfg, c0) && limited >= 0.0 ==>
              if c0.queueDelay < c0.queueDelayTarget
              then c0.cwnd <= c.cwnd && c.cwnd as real <= c0.cwnd as real + cfg.gainUp * limited / 2.0 + 0.5
              else c0.cwnd - c0.cwnd / 4 <= c.cwnd <= c0.cwnd
  {
    if GainsOk(cfg) && ControlOk(cfg, c0) && limited >= 0.0 {
      FollowBounds(cfg, c0, limited, time);
    }
    c := c0;
    if OffTarget(c) > 0.0 {
      if WellUsed(c, 1.2) {
        c := c.(cwnd := c.cwnd + Trunc(Increment(cfg, c, limited) + 0.5));
      }
    } else {
      c := c.(cwnd := c.cwnd - Decrement(cfg, c), lastCongestion := time);
    }
  }

  /** Every reaction is the one that is due, and stays in its bounds. */
  method SteerWindow(cfg: Config, c0: Control, inp: Inputs, limited: real, time: nat) returns (c: Control)
    requires c0.queueDelayTarget > 0.0 && c0.cwnd > 0
    ensures c == Steer(cfg, c0, inp, limited, time)
    ensures GainsOk(cfg) && ControlOk(cfg, c0) && limited >= 0.0 ==>
              Reacts(cfg, c0, c, inp, limited, time) && Bounded(cfg, c0, inp, limited, c.cwnd)
  {
    if GainsOk(cfg) && ControlOk(cfg, c0) && limited >= 0.0 {
      SteerReacts(cfg, c0, inp, limited, time);
      SteerBounds(cfg, c0, inp, limited, time);
    }
    c := c0;
    if c.lossEvent {
      c := Punished(c, cfg.lossBeta, time);
      c := c.(lossEvent := false);
    } else if c.ecnCeEvent {
      c := Punished(c, EcnBeta(cfg, inp), time);
      c := c.(ecnCeEvent := false);
    } else {
      c := Aged(c, time);
      if c.inFastStart {
        c := FastStart(c, limited);
      } else {
        c := FollowDelay(cfg, c, limited, time);
      }
    }
  }

  /** The window is never below its minimum, and raised only on short round trips. */
  method ValidateWindow(c0: Control, inp: Inputs) returns (c: Control)
    ensures c == Validate(c0, inp)
    ensures c.cwnd >= c.cwndMin
    ensures c0.cwndMin >= 0 ==>
              c.cwnd <= MaxInt(c0.cwndMin, c0.cwnd) || (ShortRoundTrips(c0) && c.cwnd as real <= RaisedUpTo(c0, inp))
    ensures c0.cwnd >= c0.cwndMin >= 0 ==> Validates(c0, c.cwnd, inp)
  {
    if c0.cwnd >= c0.cwndMin >= 0 {
      ValidateIsExact(c0, inp);
    }
    var cwnd := c0.cwnd;
    if c0.maxBytesInFlight > 5000.0 {
      cwnd := MinInt(cwnd, Trunc(c0.maxBytesInFlight));
    }
    cwnd := RaiseWindow(c0, inp, cwnd);
    c := c0.(cwnd := MaxInt(c0.cwndMin, cwnd));
  }

  method RaiseWindow(c: Control, inp: Inputs, cwnd: int) returns (raised: int)
    ensures raised == Raised(c, inp, cwnd) >= cwnd
    ensures raised <= MaxInt(cwnd, 0) || (ShortRoundTrips(c) && raised as real <= RaisedUpTo(c, inp))
  {
    raised := cwnd;
    if c.sRtt as real * 0.000001 < 0.01 && c.queueDelayTrend < 0.1 {
      TruncBounds(inp.rateTransmitted * 0.01 / 8.0);
      TruncBounds(c.maxBytesInFlight * 1.5);
      var tmp := Trunc(inp.rateTransmitted * 0.01 / 8.0);
      tmp := MaxInt(tmp, Trunc(c.maxBytesInFlight * 1.5));
      raised := MaxInt(raised, tmp);
    }
  }
}
