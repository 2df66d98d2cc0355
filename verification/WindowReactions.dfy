/** What one update of the congestion window amounts to: when it reacts to loss, ECN marks, queue delay
    and acknowledged bytes, and by how much. */
module WindowReactions {
  import opened Arithmetic
  import opened BaseDelay
  import opened DelayTrend
  import opened CongestionWindow

  /** w is r rounded down, but at least low. */
  predicate RoundedDown(w: int, low: int, r: real) {
    w >= low && r < w as real + 1.0 && (w == low || w as real <= r)
  }

  /** Rounding down like that leaves no choice. */
  lemma RoundedDownIsUnique(v: int, w: int, low: int, r: real)
    requires RoundedDown(v, low, r) && RoundedDown(w, low, r)
    ensures v == w
  {
  }

  lemma TruncRounds(r: real)
    requires r >= 0.0
    ensures Trunc(r) >= 0 && Trunc(r) as real <= r < Trunc(r) as real + 1.0
  {
  }

  lemma ShrinkRounds(c: Control, beta: real)
    requires c.cwndMin >= 0
    ensures RoundedDown(Shrink(c, beta), c.cwndMin, beta * c.cwnd as real)
  {
    var r := beta * c.cwnd as real;
    TruncBounds(r);
  }

  /** The factor after an ECN mark: for L4S it falls with the marked share of the traffic. */
  function MarkFactor(cfg: Config, inp: Inputs): real {
    if cfg.isL4s then 1.0 - inp.l4sAlpha / 2.0 else cfg.ecnCeBeta
  }

  /** After a loss or a mark the window is what is left of it, rounded down, but at least its
      minimum; the event is settled and fast start has ended. */
  predicate Backed(c: Control, c': Control, left: real, time: nat) {
    && RoundedDown(c'.cwnd, c.cwndMin, left)
    && !c'.inFastStart && c'.wasLossEvent && c'.lastCongestion == time
  }

  lemma LossBacksOff(cfg: Config, c: Control, inp: Inputs, limited: real, time: nat)
    requires c.queueDelayTarget > 0.0 && c.cwnd > 0 && c.cwndMin >= 0 && c.lossEvent
    ensures var c' := Steer(cfg, c, inp, limited, time);
            && Backed(c, c', cfg.lossBeta * c.cwnd as real, time)
            && !c'.lossEvent && c'.ecnCeEvent == c.ecnCeEvent
            && (0.0 <= cfg.lossBeta < 1.0 && c.cwnd > c.cwndMin ==> c'.cwnd < c.cwnd)
  {
    PunishedBacksOff(c, cfg.lossBeta, time);
  }

  lemma StrictlyLess(w: int, low: int, beta: real, cwnd: int)
    requires RoundedDown(w, low, beta * cwnd as real) && beta < 1.0 && cwnd > 0 && cwnd > low
    ensures w < cwnd
  {
    var r := beta * cwnd as real;
    assert r < cwnd as real by {
      ProductPositive(1.0 - beta, cwnd as real);
      assert (1.0 - beta) * cwnd as real == cwnd as real - r;
    }
  }

  lemma MarkBacksOff(cfg: Config, c: Control, inp: Inputs, limited: real, time: nat)
    requires c.queueDelayTarget > 0.0 && c.cwnd > 0 && c.cwndMin >= 0 && !c.lossEvent && c.ecnCeEvent
    ensures var c' := Steer(cfg, c, inp, limited, time);
            && Backed(c, c', MarkFactor(cfg, inp) * c.cwnd as real, time)
            && !c'.ecnCeEvent && !c'.lossEvent
            && (0.0 <= MarkFactor(cfg, inp) < 1.0 && c.cwnd > c.cwndMin ==> c'.cwnd < c.cwnd)
  {
    var beta := MarkFactor(cfg, inp);
    MarkIsPunished(cfg, c, inp, limited, time);
    PunishedBacksOff(c, beta, time);
  }

  lemma MarkIsPunished(cfg: Config, c: Control, inp: Inputs, limited: real, time: nat)
    requires c.queueDelayTarget > 0.0 && c.cwnd > 0 && !c.lossEvent && c.ecnCeEvent
    ensures Steer(cfg, c, inp, limited, time) == Punished(c, MarkFactor(cfg, inp), time).(ecnCeEvent := false)
  {
    assert EcnBeta(cfg, inp) == MarkFactor(cfg, inp);
  }

  lemma PunishedBacksOff(c: Control, beta: real, time: nat)
    requires c.cwnd > 0 && c.cwndMin >= 0
    ensures var c' := Punished(c, beta, time);
            && Backed(c, c', beta * c.cwnd as real, time)
            && (0.0 <= beta < 1.0 && c.cwnd > c.cwndMin ==> c'.cwnd < c.cwnd)
  {
    ShrinkRounds(c, beta);
    if 0.0 <= beta < 1.0 && c.cwnd > c.cwndMin {
      StrictlyLess(Shrink(c, beta), c.cwndMin, beta, c.cwnd);
    }
  }

  /** Fast start ends with a rising delay; until then a window that is used to two thirds grows by exactly
      the limited bytes, rounded down. */
  predicate Sprints(c: Control, c': Control, limited: real) {
    var used := 1.5 * c.bytesInFlight as real + c.bytesNewlyAcked as real > c.cwnd as real;
    && (c'.inFastStart <==> c.queueDelayTrend < 0.2)
    && (if c.queueDelayTrend < 0.2 && used
        then c'.cwnd as real <= c.cwnd as real + limited < c'.cwnd as real + 1.0
        else c'.cwnd == c.cwnd)
    && c'.lastCongestion == c.lastCongestion
  }

  lemma FastStartGrows(cfg: Config, c: Control, inp: Inputs, limited: real, time: nat)
    requires c.queueDelayTarget > 0.0 && c.cwnd > 0 && limited >= 0.0
    requires !c.lossEvent && !c.ecnCeEvent && c.inFastStart
    ensures Sprints(c, Steer(cfg, c, inp, limited, time), limited)
  {
    TruncRounds(c.cwnd as real + limited);
  }

  /** The share of the target that is left: 1 at no delay, 0 at the target, negative above. */
  function Room(c: Control): real
    requires c.queueDelayTarget > 0.0
  {
    1.0 - c.queueDelay / c.queueDelayTarget
  }

  lemma RoomLeft(t: real, d: real)
    requires t > 0.0
    ensures (t - d) / t == 1.0 - d / t
  {
    var x, y := (t - d) / t, d / t;
    assert x * t == t - d && y * t == d;
    assert (x - (1.0 - y)) * t == 0.0;
    if x - (1.0 - y) > 0.0 { ProductPositive(x - (1.0 - y), t); }
    if x - (1.0 - y) < 0.0 { ProductPositive((1.0 - y) - x, t); }
  }

  /** gainUp, times the room left, times the limited bytes, times a segment's share of the window. */
  function GrowthDue(cfg: Config, c: Control, limited: real): real
    requires c.queueDelayTarget > 0.0 && c.cwnd > 0
  {
    cfg.gainUp * Room(c) * limited * c.mss as real / c.cwnd as real
  }

  /** gainDown, times the excess over the target, times the newly acknowledged bytes, times that share. */
  function FallDue(cfg: Config, c: Control): real
    requires c.queueDelayTarget > 0.0 && c.cwnd > 0
  {
    -(cfg.gainDown * Room(c) * c.bytesNewlyAcked as real * c.mss as real / c.cwnd as real)
  }

  lemma RoomIsOffTarget(c: Control)
    requires c.queueDelayTarget > 0.0
    ensures OffTarget(c) == Room(c)
  {
    RoomLeft(c.queueDelayTarget, c.queueDelay);
  }

  lemma GrowthIsIncrement(cfg: Config, c: Control, limited: real)
    requires c.queueDelayTarget > 0.0 && c.cwnd > 0
    ensures GrowthDue(cfg, c, limited) == Increment(cfg, c, limited)
  {
    RoomIsOffTarget(c);
  }

  /** The whole part of a growth, to the nearest integer. */
  lemma NearestOf(due: real)
    requires due >= 0.0
    ensures due - 0.5 < Trunc(due + 0.5) as real <= due + 0.5
  {
  }

  /** Below the target a window that is used to five sixths grows by what is due, to the nearest integer. */
  predicate Grows(cfg: Config, c: Control, c': Control, limited: real)
    requires c.queueDelayTarget > 0.0 && c.cwnd > 0
  {
    var used := 1.2 * c.bytesInFlight as real + c.bytesNewlyAcked as real > c.cwnd as real;
    var grown := (c'.cwnd - c.cwnd) as real;
    && (if used then GrowthDue(cfg, c, limited) - 0.5 < grown <= GrowthDue(cfg, c, limited) + 0.5 else grown == 0.0)
    && !c'.inFastStart && c'.lastCongestion == c.lastCongestion
  }

  lemma FollowGrows(cfg: Config, c: Control, limited: real, time: nat)
    requires GainsOk(cfg) && ControlOk(cfg, c) && limited >= 0.0 && c.queueDelay < c.queueDelayTarget && !c.inFastStart
    ensures Grows(cfg, c, Follow(cfg, c, limited, time), limited)
  {
    OffTargetBounds(c);
    IncrementBounds(cfg, c, limited);
    GrowthIsIncrement(cfg, c, limited);
    NearestOf(Increment(cfg, c, limited));
  }

  lemma RoomGrows(cfg: Config, c: Control, inp: Inputs, limited: real, time: nat)
    requires GainsOk(cfg) && ControlOk(cfg, c) && limited >= 0.0
    requires !c.lossEvent && !c.ecnCeEvent && !c.inFastStart && c.queueDelay < c.queueDelayTarget
    ensures Grows(cfg, c, Steer(cfg, c, inp, limited, time), limited)
  {
    FollowGrows(cfg, Aged(c, time), limited, time);
    AgedFrame(cfg, c, limited, time);
  }

  /** Ageing the loss event rate leaves alone what the window depends on. */
  lemma AgedFrame(cfg: Config, c: Control, limited: real, time: nat)
    requires c.queueDelayTarget > 0.0 && c.cwnd > 0
    ensures var a := Aged(c, time);
            && a.cwnd == c.cwnd && a.bytesInFlight == c.bytesInFlight && a.bytesNewlyAcked == c.bytesNewlyAcked
            && a.lastCongestion == c.lastCongestion && a.inFastStart == c.inFastStart
            && a.queueDelay == c.queueDelay && a.queueDelayTarget == c.queueDelayTarget
            && GrowthDue(cfg, a, limited) == GrowthDue(cfg, c, limited) && FallDue(cfg, a) == FallDue(cfg, c)
  {
    var a := Aged(c, time);
    assert Room(a) == Room(c) && a.mss == c.mss;
  }

  lemma WholePart(due: real, fall: int, quarter: int)
    requires due >= 0.0 && fall == MinInt(Trunc(due), quarter)
    ensures fall as real <= due && fall <= quarter && (due < fall as real + 1.0 || fall == quarter)
  {
  }

  /** At or above the target the window falls by what is due, rounded down, but by at most a quarter. */
  predicate Falls(cfg: Config, c: Control, c': Control, time: nat)
    requires c.queueDelayTarget > 0.0 && c.cwnd > 0
  {
    var fall := c.cwnd - c'.cwnd;
    && fall as real <= FallDue(cfg, c) && fall <= c.cwnd / 4
    && (FallDue(cfg, c) < fall as real + 1.0 || fall == c.cwnd / 4)
    && !c'.inFastStart && c'.lastCongestion == time
  }

  lemma FollowFalls(cfg: Config, c: Control, limited: real, time: nat)
    requires GainsOk(cfg) && ControlOk(cfg, c) && c.queueDelay >= c.queueDelayTarget && !c.inFastStart
    ensures Falls(cfg, c, Follow(cfg, c, limited, time), time)
  {
    OffTargetBounds(c);
    BackOffNonNegative(cfg, c);
    FallIsBackOff(cfg, c);
    WholePart(BackOff(cfg, c), Decrement(cfg, c), c.cwnd / 4);
  }

  lemma SameAmount(gain: real, off: real, room: real, acked: real, mss: real, cwnd: real)
    requires off == room && cwnd != 0.0
    ensures -(gain * off * acked * mss / cwnd) == -(gain * room * acked * mss / cwnd)
  {
  }

  lemma FallIsBackOff(cfg: Config, c: Control)
    requires c.queueDelayTarget > 0.0 && c.cwnd > 0
    ensures FallDue(cfg, c) == BackOff(cfg, c)
  {
    RoomIsOffTarget(c);
    SameAmount(cfg.gainDown, OffTarget(c), Room(c), c.bytesNewlyAcked as real, c.mss as real, c.cwnd as real);
  }

  lemma DelayBacksOff(cfg: Config, c: Control, inp: Inputs, limited: real, time: nat)
    requires GainsOk(cfg) && ControlOk(cfg, c)
    requires !c.lossEvent && !c.ecnCeEvent && !c.inFastStart && c.queueDelay >= c.queueDelayTarget
    ensures Falls(cfg, c, Steer(cfg, c, inp, limited, time), time)
  {
    FollowFalls(cfg, Aged(c, time), limited, time);
    AgedFrame(cfg, c, limited, time);
  }

  /** The reaction to loss, ECN marks, queue delay and acknowledged bytes, in this order. */
  predicate Reacts(cfg: Config, c: Control, c': Control, inp: Inputs, limited: real, time: nat)
    requires c.queueDelayTarget > 0.0 && c.cwnd > 0
  {
    if c.lossEvent then Backed(c, c', cfg.lossBeta * c.cwnd as real, time) && !c'.lossEvent && c'.ecnCeEvent == c.ecnCeEvent
    else
      && !c'.lossEvent && !c'.ecnCeEvent
      && (c.ecnCeEvent ==> Backed(c, c', MarkFactor(cfg, inp) * c.cwnd as real, time))
      && (!c.ecnCeEvent && c.inFastStart ==> Sprints(c, c', limited))
      && (!c.ecnCeEvent && !c.inFastStart && c.queueDelay < c.queueDelayTarget ==> Grows(cfg, c, c', limited))
      && (!c.ecnCeEvent && !c.inFastStart && c.queueDelay >= c.queueDelayTarget ==> Falls(cfg, c, c', time))
  }

  lemma EventsSettled(cfg: Config, c: Control, inp: Inputs, limited: real, time: nat)
    requires c.queueDelayTarget > 0.0 && c.cwnd > 0 && !c.lossEvent
    ensures var c' := Steer(cfg, c, inp, limited, time); !c'.lossEvent && !c'.ecnCeEvent
  {
    assert !Aged(c, time).lossEvent && Aged(c, time).ecnCeEvent == c.ecnCeEvent;
  }

  lemma SteerReacts(cfg: Config, c: Control, inp: Inputs, limited: real, time: nat)
    requires GainsOk(cfg) && ControlOk(cfg, c) && limited >= 0.0
    ensures Reacts(cfg, c, Steer(cfg, c, inp, limited, time), inp, limited, time)
  {
    if c.lossEvent {
      LossBacksOff(cfg, c, inp, limited, time);
    } else {
      EventsSettled(cfg, c, inp, limited, time);
      if c.ecnCeEvent {
        MarkBacksOff(cfg, c, inp, limited, time);
      } else if c.inFastStart {
        FastStartGrows(cfg, c, inp, limited, time);
      } else if c.queueDelay < c.queueDelayTarget {
        RoomGrows(cfg, c, inp, limited, time);
      } else {
        DelayBacksOff(cfg, c, inp, limited, time);
      }
    }
  }

  // ---- a whole update ----

  lemma UpdateIs(cfg: Config, core: Core, inp: Inputs, time: nat)
    requires ConfigOk(cfg) && InputsOk(inp) && ControlOk(cfg, core.c) && core.fractionPtr < SAMPLES
    ensures UpdateCwnd(cfg, core, inp, time).c
            == Resume(Validate(Steered(cfg, core, inp, time), inp), time).(bytesNewlyAcked := 0)
  {
  }

  /** A whole update after a back-off to `left`: the window is at most that, or its minimum, apart from the rise on short
      round trips; fast start is over. */
  predicate BackedOff(c: Control, c': Control, steered: Control, left: real, inp: Inputs) {
    && !c'.inFastStart && c'.cwnd >= c.cwndMin
    && (|| c'.cwnd == c.cwndMin
        || c'.cwnd as real <= left
        || (ShortRoundTrips(steered) && c'.cwnd as real <= RaisedUpTo(steered, inp)))
  }

  /** What only the first half of an update changes. */
  predicate SameAverages(c: Control, c': Control) {
    && c'.queueDelayFractionAvg == c.queueDelayFractionAvg && c'.queueDelayMin == c.queueDelayMin
    && c'.queueDelayMinAvg == c.queueDelayMinAvg && c'.queueDelay == c.queueDelay
    && c'.queueDelayTarget == c.queueDelayTarget && c'.queueDelayTrend == c.queueDelayTrend
    && c'.lastFractionAdd == c.lastFractionAdd && c'.baseOwdReset == c.baseOwdReset
    && c'.maxBytesInFlight == c.maxBytesInFlight && c'.paceInterval == c.paceInterval
  }

  lemma SteerKeepsAverages(cfg: Config, c: Control, inp: Inputs, limited: real, time: nat)
    requires c.queueDelayTarget > 0.0 && c.cwnd > 0
    ensures SameAverages(c, Steer(cfg, c, inp, limited, time))
  {
    assert SameAverages(c, Aged(c, time));
  }

  lemma FinishKeepsAverages(c: Control, inp: Inputs, time: nat)
    ensures SameAverages(c, Resume(Validate(c, inp), time).(bytesNewlyAcked := 0))
  {
  }

  /** An update averages, refreshes, reacts with the limit that held before, validates, resumes fast start, and uses up
      the newly acknowledged bytes. */
  lemma UpdateStages(cfg: Config, core: Core, inp: Inputs, time: nat)
    requires GainsOk(cfg) && InputsOk(inp) && ControlOk(cfg, core.c) && core.fractionPtr < SAMPLES
    ensures (RefreshKeeps(cfg, core, inp, time);
             var refreshed, core' := Refresh(cfg, Average(core, time), inp, time), UpdateCwnd(cfg, core, inp, time);
             var steered := Steered(cfg, core, inp, time);
             && core'.delay == refreshed.delay && core'.fractions == refreshed.fractions && core'.fractionPtr == refreshed.fractionPtr
             && SameAverages(refreshed.c, core'.c)
             && Reacts(cfg, refreshed.c, steered, inp, Limited(core.c, inp, time), time)
             && (steered.cwnd >= steered.cwndMin ==> Validates(steered, core'.c.cwnd, inp))
             && core'.c.bytesNewlyAcked == 0)
  {
    RefreshKeeps(cfg, core, inp, time);
    var limited := Limited(core.c, inp, time);
    LimitedNonNegative(cfg, core.c, inp, time);
    var refreshed := Refresh(cfg, Average(core, time), inp, time);
    var steered := Steered(cfg, core, inp, time);
    UpdateIs(cfg, core, inp, time);
    SteerReacts(cfg, refreshed.c, inp, limited, time);
    SteerFrame(cfg, refreshed.c, inp, limited, time);
    SteerKeepsAverages(cfg, refreshed.c, inp, limited, time);
    FinishKeepsAverages(steered, inp, time);
    if steered.cwnd >= steered.cwndMin {
      ValidateIsExact(steered, inp);
      ResumesIff(Validate(steered, inp), time);
    }
  }

  /** Validation after a back-off, and why fast start is not resumed at once. */
  lemma AfterBackOff(cfg: Config, c: Control, c1: Control, inp: Inputs, time: nat, left: real)
    requires Backed(c, c1, left, time) && c1.cwndMin == c.cwndMin && c1.mss == c.mss
    requires c.cwndMin >= 2 * c.mss && c.mss >= INIT_MSS
    ensures var c' := Resume(Validate(c1, inp), time);
            BackedOff(c, c', c1, left, inp) && c'.lossEvent == c1.lossEvent && c'.ecnCeEvent == c1.ecnCeEvent
  {
    FinishBounds(cfg, c1, inp, time);
    assert Sub64(time, time) == 0;
  }

  lemma SteeredAfterLoss(cfg: Config, core: Core, inp: Inputs, time: nat)
    requires ConfigOk(cfg) && InputsOk(inp) && ControlOk(cfg, core.c) && core.fractionPtr < SAMPLES
    requires core.c.lossEvent
    ensures var c1 := Steered(cfg, core, inp, time);
            && Backed(core.c, c1, cfg.lossBeta * core.c.cwnd as real, time)
            && !c1.lossEvent && c1.cwndMin == core.c.cwndMin && c1.mss == core.c.mss
  {
    RefreshKeeps(cfg, core, inp, time);
    var limited := Limited(core.c, inp, time);
    var c := Refresh(cfg, Average(core, time), inp, time).c;
    LossBacksOff(cfg, c, inp, limited, time);
    SteerFrame(cfg, c, inp, limited, time);
  }

  /** A whole update after a loss: the window is at most what lossBeta leaves of it, or its minimum, apart from
      the rise on short round trips; the event is settled, and fast start is over. */
  lemma UpdateAfterLoss(cfg: Config, core: Core, inp: Inputs, time: nat)
    requires ConfigOk(cfg) && InputsOk(inp) && ControlOk(cfg, core.c) && core.fractionPtr < SAMPLES
    requires core.c.lossEvent
    ensures var c' := UpdateCwnd(cfg, core, inp, time).c;
            !c'.lossEvent && BackedOff(core.c, c', Steered(cfg, core, inp, time), cfg.lossBeta * core.c.cwnd as real, inp)
  {
    SteeredAfterLoss(cfg, core, inp, time);
    UpdateIs(cfg, core, inp, time);
    AfterBackOff(cfg, core.c, Steered(cfg, core, inp, time), inp, time, cfg.lossBeta * core.c.cwnd as real);
  }

  lemma SteeredAfterMark(cfg: Config, core: Core, inp: Inputs, time: nat)
    requires ConfigOk(cfg) && InputsOk(inp) && ControlOk(cfg, core.c) && core.fractionPtr < SAMPLES
    requires !core.c.lossEvent && core.c.ecnCeEvent
    ensures var c1 := Steered(cfg, core, inp, time);
            && Backed(core.c, c1, MarkFactor(cfg, inp) * core.c.cwnd as real, time)
            && !c1.ecnCeEvent && c1.cwndMin == core.c.cwndMin && c1.mss == core.c.mss
  {
    RefreshKeeps(cfg, core, inp, time);
    var limited := Limited(core.c, inp, time);
    var c := Refresh(cfg, Average(core, time), inp, time).c;
    MarkBacksOff(cfg, c, inp, limited, time);
    SteerFrame(cfg, c, inp, limited, time);
  }

  /** The same after an ECN mark. */
  lemma UpdateAfterMark(cfg: Config, core: Core, inp: Inputs, time: nat)
    requires ConfigOk(cfg) && InputsOk(inp) && ControlOk(cfg, core.c) && core.fractionPtr < SAMPLES
    requires !core.c.lossEvent && core.c.ecnCeEvent
    ensures var c' := UpdateCwnd(cfg, core, inp, time).c;
            !c'.ecnCeEvent && BackedOff(core.c, c', Steered(cfg, core, inp, time), MarkFactor(cfg, inp) * core.c.cwnd as real, inp)
  {
    SteeredAfterMark(cfg, core, inp, time);
    UpdateIs(cfg, core, inp, time);
    AfterBackOff(cfg, core.c, Steered(cfg, core, inp, time), inp, time, MarkFactor(cfg, inp) * core.c.cwnd as real);
  }

  /** A whole update from core to core' backs off as far as a loss or, without one, a mark demands. */
  ghost predicate Answers(cfg: Config, core: Core, core': Core, inp: Inputs, time: nat)
    requires ConfigOk(cfg) && InputsOk(inp) && ControlOk(cfg, core.c) && core.fractionPtr < SAMPLES
  {
    var c, c', c1 := core.c, core'.c, Steered(cfg, core, inp, time);
    && (c.lossEvent ==> !c'.lossEvent && BackedOff(c, c', c1, cfg.lossBeta * c.cwnd as real, inp))
    && (!c.lossEvent && c.ecnCeEvent ==> !c'.ecnCeEvent && BackedOff(c, c', c1, MarkFactor(cfg, inp) * c.cwnd as real, inp))
  }

  lemma UpdateAnswers(cfg: Config, core: Core, inp: Inputs, time: nat)
    requires ConfigOk(cfg) && InputsOk(inp) && ControlOk(cfg, core.c) && core.fractionPtr < SAMPLES
    ensures Answers(cfg, core, UpdateCwnd(cfg, core, inp, time), inp, time)
  {
    if core.c.lossEvent {
      UpdateAfterLoss(cfg, core, inp, time);
    } else if core.c.ecnCeEvent {
      UpdateAfterMark(cfg, core, inp, time);
    }
  }

  /** Validation: the window is cut to the in-flight limit when that is above 5000, raised on short round
      trips, and at least its minimum; otherwise it stays. */
  predicate Validates(c: Control, w: int, inp: Inputs) {
    var cut := c.maxBytesInFlight > 5000.0 && c.maxBytesInFlight < c.cwnd as real;
    && (!ShortRoundTrips(c) && !cut ==> w == c.cwnd)
    && (!ShortRoundTrips(c) && cut ==> RoundedDown(w, c.cwndMin, c.maxBytesInFlight))
    && (ShortRoundTrips(c) ==>
          && 1.5 * c.maxBytesInFlight < w as real + 1.0
          && 0.00125 * inp.rateTransmitted < w as real + 1.0
          && (!cut ==> w >= c.cwnd)
          && (w as real <= RaisedUpTo(c, inp) || w == (if cut then MaxInt(c.cwndMin, c.maxBytesInFlight.Floor) else c.cwnd)
              || w == c.cwndMin))
  }

  lemma ValidateIsExact(c: Control, inp: Inputs)
    requires c.cwnd >= c.cwndMin >= 0
    ensures Validates(c, Validate(c, inp).cwnd, inp)
  {
    TruncBounds(c.maxBytesInFlight);
    TruncBounds(c.maxBytesInFlight * 1.5);
    TruncBounds(inp.rateTransmitted * 0.01 / 8.0);
  }

  /** Fast start is resumed exactly after more than five seconds without congestion and with a low trend. */
  lemma ResumesIff(c: Control, time: nat)
    ensures var c' := Resume(c, time);
            && (c'.inFastStart <==> c.inFastStart || (c.queueDelayTrend <= 0.2 && Sub64(time, c.lastCongestion) > 5_000_000))
            && (c'.lastCongestion == if c.queueDelayTrend > 0.2 || c'.inFastStart != c.inFastStart then time else c.lastCongestion)
            && c'.cwnd == c.cwnd
  {
  }

  // ---- the limit on growth ----

  /** With a media rate above 100 kbps: the newly acknowledged bytes, but at most what 1.25 times the rate
      carries since the last update; otherwise two segments. */
  lemma LimitedIs(c: Control, inp: Inputs, time: nat)
    ensures var seconds := if c.lastCwndUpdate == 0 then 0.001 else Sub64(time, c.lastCwndUpdate) as real / 1000000.0;
            var carried := 0.15625 * (inp.maxRate * seconds);
            var acked := c.bytesNewlyAcked as real;
            && (inp.maxRate > 100000.0 ==>
                  Limited(c, inp, time) <= acked && Limited(c, inp, time) <= carried && Limited(c, inp, time) in {acked, carried})
            && (inp.maxRate <= 100000.0 ==> Limited(c, inp, time) == 2.0 * c.mss as real)
  {
    var dT := if c.lastCwndUpdate == 0 then 0.001 else Sub64(time, c.lastCwndUpdate) as real * 0.000001;
    assert 1.25 * inp.maxRate * dT / 8.0 == 0.15625 * (inp.maxRate * dT);
  }

  // ---- the averages ----

  /** The averaged fraction moves a tenth of the way to the current one, the smallest delay is kept, and the
      base delay history is reset exactly when the smallest delay stayed above a quarter of the target and
      twenty seconds have passed. */
  lemma AverageIs(core: Core, time: nat)
    requires core.c.queueDelayTarget > 0.0
    ensures var c, c' := core.c, Average(core, time).c;
            var drifted := 4.0 * c.queueDelayMinAvg > c.queueDelayTarget && Sub64(time, c.baseOwdReset) > 20_000_000;
            var delay := if drifted then 0.0 else c.queueDelay;
            && c'.queueDelay == delay
            && 10.0 * (c'.queueDelayFractionAvg - c.queueDelayFractionAvg)
               == delay / c.queueDelayTarget - c.queueDelayFractionAvg
            && c'.queueDelayMin <= c.queueDelayMin && c'.queueDelayMin <= c.queueDelay
            && c'.queueDelayMin in {c.queueDelayMin, c.queueDelay}
            && c'.baseOwdReset == (if drifted then time else c.baseOwdReset)
            && Average(core, time).delay == (if drifted then Reset(core.delay) else core.delay)
  {
  }

  /** The average of the smallest delays falls at once, and rises by a thousandth of the difference; the target
      is adapted only when that is enabled; nothing happens within 50 ms of the last time. */
  lemma RefreshIs(cfg: Config, core: Core, inp: Inputs, time: nat)
    requires core.c.queueDelayTarget > 0.0 && core.fractionPtr < SAMPLES
    ensures var c, c' := core.c, Refresh(cfg, core, inp, time).c;
            if Sub64(time, c.lastFractionAdd) <= 50_000 then Refresh(cfg, core, inp, time) == core
            else
              && (c.queueDelayMin <= c.queueDelayMinAvg ==> c'.queueDelayMinAvg == c.queueDelayMin)
              && (c.queueDelayMin > c.queueDelayMinAvg ==>
                    1000.0 * (c'.queueDelayMinAvg - c.queueDelayMinAvg) == c.queueDelayMin - c.queueDelayMinAvg)
              && c'.queueDelayMin == 1000.0 && c'.lastFractionAdd == time
              && c'.maxBytesInFlight == inp.maxBytesInFlight && c'.paceInterval == inp.paceInterval
              && (!cfg.enableSbd ==> c'.queueDelayTarget == c.queueDelayTarget)
              && (Sub64(time, c.initTime) <= 2_000_000 ==> c'.queueDelayTrend == c.queueDelayTrend)
  {
  }

  /** Elapsed times below 2^31 us insert one copy for every full 50 ms. */
  lemma CopiesAre(elapsed: nat)
    requires elapsed < 0x8000_0000
    ensures 0 <= 50_000 * Copies(elapsed) <= elapsed < 50_000 * Copies(elapsed) + 50_000
  {
    CopiesDivide(elapsed);
  }

  lemma CopiesDivide(elapsed: nat)
    requires elapsed < 0x8000_0000
    ensures Copies(elapsed) == elapsed / 50_000
  {
  }

  /** When 50 ms have passed, the ring takes one copy of the current fraction of the target for each of them; from two seconds
      after the start on the trend follows from the ring. */
  lemma RefreshStores(cfg: Config, core: Core, inp: Inputs, time: nat)
    requires core.c.queueDelayTarget > 0.0 && core.fractionPtr < SAMPLES
    requires 50_000 < Sub64(time, core.c.lastFractionAdd) < 0x8000_0000
    ensures var core' := Refresh(cfg, core, inp, time);
            var copies := Sub64(time, core.c.lastFractionAdd) / 50_000;
            && (forall n :: 0 <= n < SAMPLES ==>
                  core'.fractions[n] == if (n - core.fractionPtr) % SAMPLES < copies then core.c.queueDelay / core.c.queueDelayTarget
                                        else core.fractions[n])
            && core'.fractionPtr == (core.fractionPtr + copies) % SAMPLES
            && core'.delay == core.delay
            && (Sub64(time, core.c.initTime) > 2_000_000 ==>
                  var y := Deviations(core'.fractions, core'.fractionPtr);
                  Sum(y) == 0.0 && Indicates(core'.c.queueDelayTrend, Lag0(y), Lag1(y), core.c.queueDelayFractionAvg))
  {
    var c := core.c;
    var elapsed := Sub64(time, c.lastFractionAdd);
    CopiesDivide(elapsed);
    var copies: nat := elapsed / 50_000;
    forall n: nat | n < SAMPLES
      ensures Inserted(core.fractions, core.fractionPtr, Fraction(c), copies).0[n]
              == if (n - core.fractionPtr) % SAMPLES < copies then Fraction(c) else core.fractions[n]
    {
      InsertedAt(core.fractions, core.fractionPtr, Fraction(c), copies, n);
    }
    InsertedAt(core.fractions, core.fractionPtr, Fraction(c), copies, 0);
    var stored := Inserted(core.fractions, core.fractionPtr, Fraction(c), copies);
    TrendIs(stored.0, stored.1, c.queueDelayFractionAvg);
  }

  /** The loss event rate moves a hundredth of the way to 1 or to 0, once per round trip. */
  lemma AgedIs(c: Control, time: nat)
    ensures var c' := Aged(c, time);
            if Sub64(time, c.lastRtt) > c.sRtt
            then 100.0 * (c'.lossEventRate - c.lossEventRate) == (if c.wasLossEvent then 1.0 else 0.0) - c.lossEventRate
                 && !c'.wasLossEvent && c'.lastRtt == time
            else c' == c
  {
  }

  /** The target t follows the delay oh of competing flows: at a stable delay within its limits exactly; with
      losses at a stable delay by half more; otherwise it falls by at most a hundredth, or a thousandth. */
  predicate Follows(cfg: Config, c: Control, inp: Inputs, oh: real, t: real) {
    var lossy := c.lossEventRate > 0.002 && inp.sbdMean > 0.5 && inp.sbdVariance < 0.2;
    var stable := !lossy && inp.sbdVariance < 0.2 && inp.sbdSkew < 0.05;
    && (lossy ==> t <= 1.5 * oh && t <= 0.3 && t in {1.5 * oh, 0.3})
    && (stable && cfg.queueDelayTargetMin <= oh <= 0.3 ==> t == oh)
    && (stable && oh > 0.3 ==> t == 0.3)
    && (stable && oh < cfg.queueDelayTargetMin ==> t == cfg.queueDelayTargetMin)
    && (!lossy && !stable ==>
          && t >= cfg.queueDelayTargetMin
          && (oh < c.queueDelayTarget ==>
                && t >= oh && 100.0 * t >= 99.0 * c.queueDelayTarget
                && (t in {cfg.queueDelayTargetMin, oh} || 100.0 * t == 99.0 * c.queueDelayTarget))
          && (oh >= c.queueDelayTarget ==>
                && 1000.0 * t >= 999.0 * c.queueDelayTarget
                && (t == cfg.queueDelayTargetMin || 1000.0 * t == 999.0 * c.queueDelayTarget)))
  }

  lemma TargetFollows(cfg: Config, c: Control, inp: Inputs, oh: real)
    requires ConfigOk(cfg)
    ensures Follows(cfg, c, inp, oh, TargetFor(cfg, c, inp, oh))
  {
  }
}
