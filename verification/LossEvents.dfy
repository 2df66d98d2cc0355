/** When loss detection raises a loss event and asks for repair, and which packets it gives up. */
module LossEvents {
  import opened Words
  import opened Sweep
  import opened TxRing
  import opened BaseDelay
  import opened CongestionWindow
  import opened SenderModel
  import opened WindowReactions

  /** The sweep over packets out of reach, from the start of the sweep before the last one to the start of
      this one, looks at slot n. */
  predicate OutOfReach(st: StreamState, n: nat) {
    st.lastLossIx >= 0 && Between(st.lastLossIx, ForgetEnd(st.lastLossIx, st.hiSeqAck + 1), n)
  }

  /** The sweep up to the highest number looks at slot n. */
  predicate Swept(st: StreamState, highest: u16, n: nat) {
    Visited(st.hiSeqAck + 1, SweepEnd(st.hiSeqAck + 1, highest), n)
  }

  /** The packet in slot n is given up: it is out of reach; or it was not acknowledged although a packet sent
      more than 20 ms later was. */
  predicate GivenUp(st: StreamState, highest: u16, n: nat)
    requires n < SLOTS
  {
    var p := st.ring[n];
    p.isUsed && (OutOfReach(st, n) || (Swept(st, highest, n) && !p.isAcked && p.timeTx + 20_000 < st.timeTxAck))
  }

  ghost predicate SomeGivenUp(st: StreamState, highest: u16) {
    exists n: nat :: n < SLOTS && GivenUp(st, highest, n)
  }

  lemma {:induction false} ForgetGivesUpIff(l: Ledger, lo: nat, hi: int)
    ensures Forget(l, lo, hi).gaveUp <==> l.gaveUp || exists n: nat :: n < SLOTS && Between(lo, hi, n) && l.ring[n].isUsed
    decreases hi - lo
  {
    if lo < hi {
      var n, l' := SlotOf(lo), ForgetSlot(l, SlotOf(lo));
      ForgetGivesUpIff(l', lo + 1, hi);
      BetweenSplit(lo, hi);
      if m: nat :| m < SLOTS && Between(lo, hi, m) && l.ring[m].isUsed {
        assert m == n || (Between(lo + 1, hi, m) && l'.ring[m].isUsed);
      }
      if m: nat :| m < SLOTS && Between(lo + 1, hi, m) && l'.ring[m].isUsed {
        assert Between(lo, hi, m) && l.ring[m].isUsed;
      }
      assert l.ring[n].isUsed ==> Between(lo, hi, n) && l.ring[n].isUsed;
    }
  }

  lemma {:induction false} SettleGivesUpIff(l: Ledger, lo: nat, hi: int, highest: u16, timeTxAck: nat)
    requires hi - lo <= SLOTS
    ensures SettleAll(l, lo, hi, highest, timeTxAck).gaveUp
            <==> l.gaveUp || exists n: nat :: n < SLOTS && Between(lo, hi, n) && IsLate(l.ring[n], timeTxAck)
    decreases hi - lo
  {
    if lo < hi {
      var n, l' := SlotOf(lo), Settle(l, SlotOf(lo), highest, timeTxAck);
      SettleGivesUpIff(l', lo + 1, hi, highest, timeTxAck);
      BetweenSplit(lo, hi);
      if m: nat :| m < SLOTS && Between(lo, hi, m) && IsLate(l.ring[m], timeTxAck) {
        assert m == n || (Between(lo + 1, hi, m) && IsLate(l'.ring[m], timeTxAck));
      }
      if m: nat :| m < SLOTS && Between(lo + 1, hi, m) && IsLate(l'.ring[m], timeTxAck) {
        assert Between(lo, hi, m) && IsLate(l.ring[m], timeTxAck);
      }
      assert IsLate(l.ring[n], timeTxAck) ==> Between(lo, hi, n) && IsLate(l.ring[n], timeTxAck);
    }
  }

  lemma DetectGivesUpIff(c: Control, st: StreamState, highest: u16)
    ensures Detect(LedgerOf(c, st), st.lastLossIx, st.hiSeqAck + 1, highest, st.timeTxAck).gaveUp
            <==> SomeGivenUp(st, highest)
  {
    var l, first := LedgerOf(c, st), st.hiSeqAck + 1;
    var last := SweepEnd(first, highest);
    SweepIsShort(first, highest);
    var l1 := if st.lastLossIx >= 0 then Forget(l, st.lastLossIx, ForgetEnd(st.lastLossIx, first)) else l;
    if st.lastLossIx >= 0 {
      ForgetGivesUpIff(l, st.lastLossIx, ForgetEnd(st.lastLossIx, first));
      ForgetFrame(l, st.lastLossIx, ForgetEnd(st.lastLossIx, first));
    }
    SettleGivesUpIff(l1, first, last + 1, highest, st.timeTxAck);
    LateOrOutOfReach(l1.ring, st, highest);
  }

  /** After the first sweep, being late and swept or out of reach before is being given up. */
  lemma LateOrOutOfReach(ring: Ring, st: StreamState, highest: u16)
    requires forall n: nat :: n < SLOTS ==>
               ring[n] == if OutOfReach(st, n) then st.ring[n].(isUsed := false) else st.ring[n]
    ensures SomeGivenUp(st, highest)
            <==> ((exists n: nat :: n < SLOTS && OutOfReach(st, n) && st.ring[n].isUsed)
                  || (exists n: nat :: n < SLOTS && Swept(st, highest, n) && IsLate(ring[n], st.timeTxAck)))
  {
    if n: nat :| n < SLOTS && GivenUp(st, highest, n) {
      assert OutOfReach(st, n) || (Swept(st, highest, n) && IsLate(ring[n], st.timeTxAck));
    }
    if n: nat :| n < SLOTS && OutOfReach(st, n) && st.ring[n].isUsed {
      assert GivenUp(st, highest, n);
    }
    if n: nat :| n < SLOTS && Swept(st, highest, n) && IsLate(ring[n], st.timeTxAck) {
      assert GivenUp(st, highest, n);
    }
  }

  /** Loss detection raises a loss event exactly when a packet is given up more than a smoothed round trip
      after the last event, provided that losses are to shrink the window at all. Repair is asked for
      whenever a packet is given up. */
  lemma LossEventIff(cfg: Config, core: Core, st: StreamState, time: nat, highest: u16)
    ensures var detected := DetectLoss(cfg, core, st, time, highest);
            var elapsed := (time - core.c.lastLossEvent) % 0x1_0000_0000_0000_0000;
            && (detected.0.c.lossEvent
                <==> core.c.lossEvent || (SomeGivenUp(st, highest) && elapsed > core.c.sRtt && cfg.lossBeta < 1.0))
            && (detected.1.repairLoss <==> st.repairLoss || SomeGivenUp(st, highest))
            && detected.0.c.ecnCeEvent == core.c.ecnCeEvent && detected.0.c.lastLossEvent == core.c.lastLossEvent
            && detected.0.c.cwnd == core.c.cwnd
  {
    DetectGivesUpIff(core.c, st, highest);
  }

  /** What a whole feedback leaves of an event when the window is not updated yet: a loss event by loss
      detection, a mark when the count of marked bytes changed more than a round trip after the last event.
      Either sets the time of the last event. */
  lemma NoteIs(core: Core, st: StreamState, time: nat, ecn: u16)
    ensures var c, c' := core.c, Note(core, st, time, ecn).c;
            var elapsed := (time - c.lastLossEvent) % 0x1_0000_0000_0000_0000;
            && c'.lossEvent == c.lossEvent
            && (c'.ecnCeEvent <==> c.ecnCeEvent || (ecn != st.ecnCeMarkedBytes && elapsed > c.sRtt))
            && c'.lastLossEvent == (if c'.lossEvent || c'.ecnCeEvent then time else c.lastLossEvent)
            && c'.lastCwndUpdate == (if c.lastCwndUpdate == 0 then time else c.lastCwndUpdate)
            && c'.cwnd == c.cwnd
  {
  }

  /** The window is updated, and the newly acknowledged bytes are used up, exactly when more than 10 ms have
      passed since the last time. */
  lemma ReactsIff(cfg: Config, core: Core, time: nat, inp: Inputs)
    requires ConfigOk(cfg) && InputsOk(inp) && CoreOk(cfg, core)
    ensures var core' := React(cfg, core, time, inp);
            var elapsed := (time - core.c.lastCwndUpdate) % 0x1_0000_0000_0000_0000;
            if elapsed > 10_000
            then core'.c.lastCwndUpdate == time && core'.c.bytesNewlyAcked == 0
                 && core'.c.cwnd == UpdateCwnd(cfg, core, inp, time).c.cwnd
            else core' == core
  {
  }

  // ---- a whole feedback ----

  /** The state in which a feedback decides about the window: marks and loss detection are done, ECN is noted. */
  function Noted(cfg: Config, s: Sender, time: nat, k: nat, timestamp: u32, highest: u16, ack: Word64, ecn: u16): Core
    requires s.core.delay.ptr < BUCKETS && k < |s.streams|
  {
    var digested := Digest(cfg, s, time, k, timestamp, highest, ack);
    Note(digested.core, digested.streams[k], time, ecn)
  }

  lemma NotedIsOk(cfg: Config, s: Sender, time: nat, k: nat, timestamp: u32, highest: u16, ack: Word64, ecn: u16)
    requires CoreOk(cfg, s.core) && k < |s.streams|
    ensures CoreOk(cfg, Noted(cfg, s, time, k, timestamp, highest, ack, ecn))
  {
    DigestKeeps(cfg, s, time, k, timestamp, highest, ack);
  }

  /** The window is updated more than 10 ms after the last time. */
  predicate UpdateDue(c: Control, time: nat) {
    c.lastCwndUpdate != 0 && (time - c.lastCwndUpdate) % 0x1_0000_0000_0000_0000 > 10_000
  }

  /** What measuring and loss detection leave alone. */
  predicate SameEvents(c: Control, c': Control) {
    && c'.cwnd == c.cwnd && c'.cwndMin == c.cwndMin && c'.lastCwndUpdate == c.lastCwndUpdate
    && c'.lastLossEvent == c.lastLossEvent && c'.lossEvent == c.lossEvent && c'.ecnCeEvent == c.ecnCeEvent
  }

  lemma RttFrame(c: Control, time: nat, rtt: nat)
    ensures SameEvents(c, WithRtt(c, time, rtt))
  {
  }

  lemma DelayedFrame(core: Core, time: nat, owd: u32)
    requires core.delay.ptr < BUCKETS
    ensures SameEvents(core.c, Delayed(core, time, owd).c)
  {
  }

  lemma MarkedFrame(core: Core, st: StreamState, time: nat, highest: u16, ack: Word64, timestamp: u32)
    requires core.delay.ptr < BUCKETS
    ensures SameEvents(core.c, MarkAcked(core, st, time, highest, ack, timestamp).0.c)
  {
    var p := st.ring[SlotOf(highest)];
    var owd := Wrap32(timestamp - p.timestamp);
    DelayedFrame(core, time, owd);
    RttFrame(Delayed(core, time, owd).c, time, Sub64(time, p.timeTx));
  }

  /** A packet is given up for this feedback, more than a round trip after the last event. */
  ghost predicate Loses(cfg: Config, s: Sender, time: nat, k: nat, timestamp: u32, highest: u16, ack: Word64)
    requires s.core.delay.ptr < BUCKETS && k < |s.streams|
  {
    var (core, st) := MarkAcked(s.core, s.streams[k], time, highest, ack, timestamp);
    && SomeGivenUp(st, highest) && cfg.lossBeta < 1.0
    && (time - s.core.c.lastLossEvent) % 0x1_0000_0000_0000_0000 > core.c.sRtt
  }

  lemma DigestedAfterLoss(cfg: Config, s: Sender, time: nat, k: nat, timestamp: u32, highest: u16, ack: Word64)
    requires CoreOk(cfg, s.core) && k < |s.streams| && Loses(cfg, s, time, k, timestamp, highest, ack)
    ensures var c, c' := s.core.c, Digest(cfg, s, time, k, timestamp, highest, ack).core.c;
            c'.lossEvent && c'.cwnd == c.cwnd && c'.cwndMin == c.cwndMin && c'.lastCwndUpdate == c.lastCwndUpdate
  {
    var marked := MarkAcked(s.core, s.streams[k], time, highest, ack, timestamp);
    MarkedFrame(s.core, s.streams[k], time, highest, ack, timestamp);
    LossEventIff(cfg, marked.0, marked.1, time, highest);
  }

  lemma NotedAfterLoss(cfg: Config, s: Sender, time: nat, k: nat, timestamp: u32, highest: u16, ack: Word64, ecn: u16)
    requires CoreOk(cfg, s.core) && k < |s.streams| && Loses(cfg, s, time, k, timestamp, highest, ack)
    requires UpdateDue(s.core.c, time)
    ensures var c, c' := s.core.c, Noted(cfg, s, time, k, timestamp, highest, ack, ecn).c;
            c'.lossEvent && c'.cwnd == c.cwnd && c'.cwndMin == c.cwndMin && UpdateDue(c', time)
  {
    DigestedAfterLoss(cfg, s, time, k, timestamp, highest, ack);
  }

  lemma FeedbackReacts(cfg: Config, s: Sender, time: nat, k: nat, timestamp: u32, highest: u16, ack: Word64, ecn: u16,
                       inp: Inputs)
    requires ConfigOk(cfg) && InputsOk(inp) && CoreOk(cfg, s.core) && k < |s.streams|
    requires s.core.c.isInitialized && !Stale(s.streams[k], highest)
    ensures (NotedIsOk(cfg, s, time, k, timestamp, highest, ack, ecn);
             IncomingFeedback(cfg, s, time, k, timestamp, highest, ack, ecn, inp).core
             == React(cfg, Noted(cfg, s, time, k, timestamp, highest, ack, ecn), time, inp))
  {
    NotedIsOk(cfg, s, time, k, timestamp, highest, ack, ecn);
  }

  /** The window has backed off to `left`, or its minimum, apart from the rise on short round trips, after the loss noted in
      `noted`. The event is settled. */
  ghost predicate Shrunk(cfg: Config, noted: Core, c': Control, left: real, inp: Inputs, time: nat)
    requires ConfigOk(cfg) && InputsOk(inp) && CoreOk(cfg, noted)
  {
    && BackedOff(noted.c, c', Steered(cfg, noted, inp, time), left, inp)
    && !c'.lossEvent && c'.lastCwndUpdate == time
  }

  lemma UpdateShrinks(cfg: Config, noted: Core, left: real, time: nat, inp: Inputs)
    requires ConfigOk(cfg) && InputsOk(inp) && CoreOk(cfg, noted) && noted.c.lossEvent
    requires left == cfg.lossBeta * noted.c.cwnd as real
    ensures var c' := UpdateCwnd(cfg, noted, inp, time).c;
            !c'.lossEvent && BackedOff(noted.c, c', Steered(cfg, noted, inp, time), left, inp)
  {
    UpdateAfterLoss(cfg, noted, inp, time);
  }

  lemma ReactsToLoss(cfg: Config, noted: Core, left: real, time: nat, inp: Inputs)
    requires ConfigOk(cfg) && InputsOk(inp) && CoreOk(cfg, noted) && noted.c.lossEvent && UpdateDue(noted.c, time)
    requires left == cfg.lossBeta * noted.c.cwnd as real
    ensures Shrunk(cfg, noted, React(cfg, noted, time, inp).c, left, inp, time)
  {
    UpdateShrinks(cfg, noted, left, time, inp);
    var updated := UpdateCwnd(cfg, noted, inp, time);
    assert React(cfg, noted, time, inp) == updated.(c := updated.c.(lastCwndUpdate := time));
  }

  /** From the feedback to the window: a feedback for which a packet is given up, more than a round trip after the last
      event, makes the window back off when the update is due. */
  lemma LossShrinksWindow(cfg: Config, s: Sender, time: nat, k: nat, timestamp: u32, highest: u16, ack: Word64, ecn: u16,
                          inp: Inputs)
    requires ConfigOk(cfg) && InputsOk(inp) && CoreOk(cfg, s.core) && k < |s.streams|
    requires s.core.c.isInitialized && !Stale(s.streams[k], highest)
    requires Loses(cfg, s, time, k, timestamp, highest, ack) && UpdateDue(s.core.c, time)
    ensures (NotedIsOk(cfg, s, time, k, timestamp, highest, ack, ecn);
             var noted := Noted(cfg, s, time, k, timestamp, highest, ack, ecn);
             && noted.c.cwndMin == s.core.c.cwndMin
             && Shrunk(cfg, noted, IncomingFeedback(cfg, s, time, k, timestamp, highest, ack, ecn, inp).core.c,
                       cfg.lossBeta * s.core.c.cwnd as real, inp, time))
  {
    var noted := Noted(cfg, s, time, k, timestamp, highest, ack, ecn);
    NotedIsOk(cfg, s, time, k, timestamp, highest, ack, ecn);
    NotedAfterLoss(cfg, s, time, k, timestamp, highest, ack, ecn);
    ReactsToLoss(cfg, noted, cfg.lossBeta * s.core.c.cwnd as real, time, inp);
    FeedbackReacts(cfg, s, time, k, timestamp, highest, ack, ecn, inp);
  }

  /** Two packets, one of them late: packet 1 is given up, and the loss event is raised. */
  lemma LateExample(cfg: Config, core: Core, st: StreamState)
    requires cfg.lossBeta < 1.0 && core.c.sRtt == 50_000 && core.c.lastLossEvent == 0
    requires st.hiSeqAck == 0 && st.lastLossIx == -1 && st.timeTxAck == 930_000
    requires st.ring[1] == Fresh(1, 900_000, 1200)
    ensures DetectLoss(cfg, core, st, 1_000_000, 2).0.c.lossEvent
  {
    LossEventIff(cfg, core, st, 1_000_000, 2);
    assert SweepEnd(1, 2) == 2;
    assert GivenUp(st, 2, 1);
  }
}
