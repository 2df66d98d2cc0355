/** When the sender may transmit, and how long it has to wait; what a transmission and a media frame change;
    which feedback is ignored. */
module Transmission {
  import opened Arithmetic
  import opened Words
  import opened Sweep
  import opened TxRing
  import opened BaseDelay
  import opened CongestionWindow
  import DT = DelayTrend
  import opened SenderModel
  import opened SenderRuns
  import opened WindowReactions

  /** More than half a second has passed since the last transmission. Before the first call there is none. */
  predicate Overdue(c: Control, time: nat) {
    c.isInitialized && c.lastTransmit < time && (time - c.lastTransmit) % 0x1_0000_0000_0000_0000 > 500_000
  }

  /** It is more than a second since the segment size was reset. */
  predicate SegmentExpired(c: Control, time: nat) {
    (time - c.lastBytesInFlight) % 0x1_0000_0000_0000_0000 > 1_000_000
  }

  /** There is something to transmit, and it is overdue or fits into the window, which allows for one more segment
      while the delay is below its target. Once a second the segment size is 100 again, and the smallest
      window three of those. */
  predicate Allowed(cfg: Config, c: Control, time: nat, size: int) {
    var mss := if SegmentExpired(c, time) then 100 else c.mss;
    var cwnd := if SegmentExpired(c, time) then MaxInt(c.cwnd, if cfg.openWindow then c.cwndMin else 300) else c.cwnd;
    && size != -1
    && (Overdue(c, time) || c.bytesInFlight + size <= cwnd + (if c.queueDelay < c.queueDelayTarget then mss else 0))
  }

  /** When an allowed transmission may take place: when pacing says so, but at once when it is overdue. */
  function AllowedFrom(c: Control, time: nat): nat {
    if !Overdue(c, time) && c.isInitialized && c.nextTransmit > time then c.nextTransmit else time
  }

  lemma SegmentReset(cfg: Config, c: Control, time: nat)
    ensures var c' := SecondPassed(cfg, c, time);
            && c'.bytesInFlight == c.bytesInFlight && c'.queueDelay == c.queueDelay && c'.queueDelayTarget == c.queueDelayTarget
            && c'.lastTransmit == c.lastTransmit && c'.nextTransmit == c.nextTransmit && c'.isInitialized == c.isInitialized
            && if SegmentExpired(c, time)
               then c'.mss == 100 && c'.cwndMin == (if cfg.openWindow then c.cwndMin else 300)
                    && c'.cwnd == MaxInt(c.cwnd, c'.cwndMin) && c'.lastBytesInFlight == time
               else c' == c
  {
  }

  lemma InMicroseconds(d: nat)
    ensures d as real * 0.000001 * 1000000.0 == d as real
    ensures d as real * 0.000001 >= 0.0
  {
  }

  /** The answer of the window: allowed or not, and in how many seconds. */
  lemma AllowedIff(cfg: Config, s: Sender, time: nat, k: nat, size: int)
    requires k < |s.streams|
    ensures var c, wait := s.core.c, IsOkToTransmit(cfg, s, time, k, size).1;
            && (wait >= 0.0 <==> Allowed(cfg, c, time, size))
            && (wait < 0.0 ==> wait == -1.0)
            && (wait >= 0.0 ==> time as real + wait * 1000000.0 == AllowedFrom(c, time) as real)
  {
    var c := Initialized(s.core, time).c;
    SegmentReset(cfg, c, time);
    assert SegmentExpired(c, time) == SegmentExpired(s.core.c, time);
    var c1 := SecondPassed(cfg, c, time);
    if c1.nextTransmit > time {
      InMicroseconds(c1.nextTransmit - time);
    }
  }

  /** What the question changes: an overdue transmission gives up all packets of the stream and the count of bytes
      in flight; the streams stay otherwise. */
  lemma AskingChanges(cfg: Config, s: Sender, time: nat, k: nat, size: int)
    requires k < |s.streams|
    ensures var s' := IsOkToTransmit(cfg, s, time, k, size).0;
            var givesUp := size != -1 && Overdue(s.core.c, time);
            && |s'.streams| == |s.streams|
            && (forall i :: 0 <= i < |s.streams| && (i != k || !givesUp) ==> s'.streams[i] == s.streams[i])
            && s'.streams[k] == s.streams[k].(ring := s'.streams[k].ring)
            && (givesUp ==> forall n :: 0 <= n < SLOTS ==> s'.streams[k].ring[n] == s.streams[k].ring[n].(isUsed := false))
            && s'.core.c.bytesInFlight == (if givesUp then 0 else s.core.c.bytesInFlight)
            && s'.core.c.isInitialized
            && s'.core.c.mss == (if SegmentExpired(s.core.c, time) then 100 else s.core.c.mss)
  {
    SegmentReset(cfg, Initialized(s.core, time).c, time);
    assert SegmentExpired(Initialized(s.core, time).c, time) == SegmentExpired(s.core.c, time);
  }

  /** The control members after a transmission: segment size and window fit the packet, and pacing starts. */
  lemma SentIs(cfg: Config, s: Sender, time: nat, k: nat, size: nat, seqNr: u16)
    requires k < |s.streams|
    ensures var c, c' := s.core.c, AddTransmitted(cfg, s, time, k, size, seqNr).core.c;
            var collision := s.streams[k].ring[SlotOf(seqNr)].isUsed;
            && c'.isInitialized && c'.lastTransmit == time
            && c'.nextTransmit == time + c.paceInterval && c'.paceInterval == c.paceInterval
            && c'.bytesInFlight == (if collision then 0 else c.bytesInFlight) + size
            && c'.mss >= c.mss && c'.mss >= size && c'.mss in {c.mss, size as int}
            && c'.cwndMin == (if cfg.openWindow then c.cwndMin else 2 * c'.mss)
            && c'.cwnd == MaxInt(if collision then c.cwndMin else c.cwnd, c'.cwndMin)
  {
  }

  /** The streams after it: the packet is in its slot and counted; when the slot was in use, all other packets of
      the stream are given up. */
  lemma StoredIs(cfg: Config, s: Sender, time: nat, k: nat, size: nat, seqNr: u16)
    requires k < |s.streams|
    ensures var s', n := AddTransmitted(cfg, s, time, k, size, seqNr), SlotOf(seqNr);
            var st, st' := s.streams[k], s'.streams[k];
            && |s'.streams| == |s.streams|
            && (forall i :: 0 <= i < |s.streams| && i != k ==> s'.streams[i] == s.streams[i])
            && st'.ring[n] == Transmitted(time, time / 1000 % 0x1_0000_0000, size, seqNr, true, false, false)
            && (forall i :: 0 <= i < SLOTS && i != n ==>
                  st'.ring[i] == if st.ring[n].isUsed then st.ring[i].(isUsed := false) else st.ring[i])
            && st'.hiSeqTx == seqNr && st'.bytesTransmitted == st.bytesTransmitted + size
            && st' == st.(ring := st'.ring, hiSeqTx := st'.hiSeqTx, bytesTransmitted := st'.bytesTransmitted)
  {
  }

  lemma SoonIsPaced(cfg: Config, s: Sender, time: nat, k: nat, size: int)
    requires k < |s.streams| && s.core.c.isInitialized && time <= s.core.c.lastTransmit + 500_000
    ensures var wait := IsOkToTransmit(cfg, s, time, k, size).1;
            wait >= 0.0 ==> time as real + wait * 1000000.0 >= s.core.c.nextTransmit as real
  {
    AllowedIff(cfg, s, time, k, size);
    assert !Overdue(s.core.c, time);
  }

  /** Pacing: within half a second of a transmission no other one is allowed before the pacing interval is over. */
  lemma PacedApart(cfg: Config, s: Sender, sentAt: nat, k: nat, size: nat, seqNr: u16, time: nat, j: nat, next: int)
    requires k < |s.streams| && j < |s.streams| && time <= sentAt + 500_000
    ensures var wait := IsOkToTransmit(cfg, AddTransmitted(cfg, s, sentAt, k, size, seqNr), time, j, next).1;
            wait >= 0.0 ==> time as real + wait * 1000000.0 >= (sentAt + s.core.c.paceInterval) as real
  {
    var sent := AddTransmitted(cfg, s, sentAt, k, size, seqNr);
    assert sent.core.c.isInitialized && sent.core.c.lastTransmit == sentAt
        && sent.core.c.nextTransmit == sentAt + s.core.c.paceInterval by {
      SentIs(cfg, s, sentAt, k, size, seqNr);
    }
    SoonIsPaced(cfg, sent, time, j, next);
  }

  lemma Elapsed(from: nat, t: nat)
    requires 0 <= t - from < 0x1_0000_0000_0000_0000
    ensures Sub64(t, from) == t - from
  {
  }

  /** The first call starts the clocks, and only those: at any later time t nothing counts as older than the first call.
      Frames are dropped to drain the queue a second after it, for two round trips. */
  lemma FirstCall(core: Core, time: nat, t: nat)
    requires !core.c.isInitialized && 0 <= t - time < 0x1_0000_0000_0000_0000 - 1_000_000
    requires 2 * core.c.sRtt < 0x1_0000_0000_0000_0000 - 1_000_000
    ensures var core' := Initialized(core, time);
            var c := core'.c;
            var clocks := {c.lastSRttUpdate, c.baseOwdReset, c.lastFractionAdd, c.lastLossEvent, c.lastTransmit,
                           c.lastRtt, c.initTime, core'.delay.lastAdd};
            && (forall clock :: clock in clocks ==> Sub64(t, clock) == t - time)
            && (c.nextTransmit <= t)
            && (Sub64(t, core'.delay.lastRefresh) < 2 * c.sRtt <==> 1_000_000 <= t - time < 1_000_000 + 2 * core.c.sRtt)
            && Initialized(core', t) == core'
            && c.cwnd == core.c.cwnd && c.mss == core.c.mss && c.bytesInFlight == core.c.bytesInFlight
            && c.lastBytesInFlight == core.c.lastBytesInFlight && c.lastCwndUpdate == core.c.lastCwndUpdate
            && core' == core.(c := c, delay := core.delay.(lastAdd := core'.delay.lastAdd, lastRefresh := core'.delay.lastRefresh))
  {
    Elapsed(time, t);
    if t - time >= 1_000_000 {
      Elapsed(time + 1_000_000, t);
    } else {
      assert Sub64(t, time + 1_000_000) == 0x1_0000_0000_0000_0000 + t - time - 1_000_000;
    }
  }

  /** A media frame is dropped while the queue is drained, and otherwise makes segment size and window fit
      the next packet. */
  lemma MediaFrameIs(cfg: Config, core: Core, time: nat, sizeOfNextRtp: int)
    requires core.c.isInitialized
    ensures var c, c' := core.c, NewMediaFrame(cfg, core, time, sizeOfNextRtp).c;
            if (time - core.delay.lastRefresh) % 0x1_0000_0000_0000_0000 < 2 * c.sRtt then c' == c
            else
              && c'.mss >= c.mss && c'.mss >= sizeOfNextRtp && c'.mss in {c.mss, sizeOfNextRtp}
              && c'.cwndMin == (if cfg.openWindow then c.cwndMin else 2 * c'.mss)
              && c'.cwnd == MaxInt(c.cwnd, c'.cwndMin)
              && c' == c.(mss := c'.mss, cwndMin := c'.cwndMin, cwnd := c'.cwnd)
  {
  }

  /** Feedback is ignored exactly when its highest number is 1 to 535 behind the acknowledged edge, with numbers that
      are less than 65000 apart, once something was acknowledged. */
  lemma StaleIff(st: StreamState, edge: nat, highest: nat)
    requires st.hiSeqAck == Wrap16(edge) && -65000 < highest - edge <= 65000
    ensures Stale(st, Wrap16(highest)) <==> 1 <= edge - highest <= 535 && st.hiSeqAck != 0 && st.timeTxAck != 0
  {
    WrapDifference(highest, edge);
  }

  lemma WrapDifference(a: nat, b: nat)
    ensures Wrap16(Wrap16(a) - Wrap16(b)) == (a - b) % 65536
  {
  }

  // ---- no deadlock ----

  predicate Sends(e: Event) {
    e.Transmit?
  }

  /** The time of the last transmission stays. */
  predicate SameClock(c: Control, c': Control) {
    c'.lastTransmit == c.lastTransmit && c'.isInitialized == c.isInitialized
  }

  lemma AverageKeepsClock(core: Core, time: nat)
    requires core.c.queueDelayTarget > 0.0
    ensures SameClock(core.c, Average(core, time).c)
  {
  }

  lemma RefreshKeepsClock(cfg: Config, core: Core, inp: Inputs, time: nat)
    requires core.c.queueDelayTarget > 0.0 && core.fractionPtr < DT.SAMPLES
    ensures SameClock(core.c, Refresh(cfg, core, inp, time).c)
  {
  }

  lemma SteerKeepsClock(cfg: Config, c: Control, inp: Inputs, limited: real, time: nat)
    requires c.queueDelayTarget > 0.0 && c.cwnd > 0
    ensures SameClock(c, Steer(cfg, c, inp, limited, time))
  {
    assert SameClock(c, Aged(c, time));
  }

  lemma FinishKeepsClock(c: Control, inp: Inputs, time: nat)
    ensures SameClock(c, Resume(Validate(c, inp), time).(bytesNewlyAcked := 0))
  {
  }

  lemma UpdateKeepsClock(cfg: Config, core: Core, inp: Inputs, time: nat)
    requires ConfigOk(cfg) && InputsOk(inp) && CoreOk(cfg, core)
    ensures SameClock(core.c, UpdateCwnd(cfg, core, inp, time).c)
  {
    RefreshKeeps(cfg, core, inp, time);
    AverageKeeps(cfg, core, time);
    AverageKeepsClock(core, time);
    RefreshKeepsClock(cfg, Average(core, time), inp, time);
    SteerKeepsClock(cfg, Refresh(cfg, Average(core, time), inp, time).c, inp, Limited(core.c, inp, time), time);
    FinishKeepsClock(Steered(cfg, core, inp, time), inp, time);
    UpdateIs(cfg, core, inp, time);
  }

  lemma TakenKeepsClock(cfg: Config, s: Sender, time: nat, k: nat, timestamp: u32, highest: u16, ack: Word64, ecn: u16,
                         inp: Inputs)
    requires ConfigOk(cfg) && InputsOk(inp) && CoreOk(cfg, s.core) && k < |s.streams|
    ensures SameClock(s.core.c, Taken(cfg, s, time, k, timestamp, highest, ack, ecn, inp).core.c)
  {
    if !Stale(s.streams[k], highest) {
      DigestKeeps(cfg, s, time, k, timestamp, highest, ack);
      var digested := Digest(cfg, s, time, k, timestamp, highest, ack);
      assert SameClock(s.core.c, Note(digested.core, digested.streams[k], time, ecn).c);
      UpdateKeepsClock(cfg, Note(digested.core, digested.streams[k], time, ecn), inp, time);
    }
  }

  /** Only a transmission changes the time of the last one. */
  lemma StepKeepsClock(cfg: Config, s: Sender, e: Event)
    requires ConfigOk(cfg) && CoreOk(cfg, s.core) && Enabled(s, e) && s.core.c.isInitialized && !Sends(e)
    ensures SameClock(s.core.c, Step(cfg, s, e).core.c)
  {
    match e {
      case Feedback(time, k, timestamp, highest, ack, ecn, inp) =>
        TakenKeepsClock(cfg, s, time, k, timestamp, highest, ack, ecn, inp);
      case _ =>
    }
  }

  lemma {:induction false} RunKeepsClock(cfg: Config, s: Sender, es: seq<Event>, t: Sender)
    requires ConfigOk(cfg) && !cfg.openWindow && CoreOk(cfg, s.core) && Leads(cfg, s, es, t) && s.core.c.isInitialized
    requires forall i :: 0 <= i < |es| ==> !Sends(es[i])
    ensures SameClock(s.core.c, t.core.c)
    decreases |es|
  {
    if es != [] {
      StepKeepsWindow(cfg, s, es[0]);
      StepKeepsClock(cfg, s, es[0]);
      RunKeepsClock(cfg, Step(cfg, s, es[0]), es[1..], t);
    }
  }

  /** Without a transmission in between, the next packet is overdue half a second after the last one. */
  lemma RunOverdue(cfg: Config, s: Sender, es: seq<Event>, t: Sender, time: nat)
    requires ConfigOk(cfg) && !cfg.openWindow && CoreOk(cfg, s.core) && Leads(cfg, s, es, t) && s.core.c.isInitialized
    requires forall i :: 0 <= i < |es| ==> !Sends(es[i])
    requires 500_000 < time - s.core.c.lastTransmit < 0x1_0000_0000_0000_0000
    ensures Overdue(t.core.c, time)
  {
    RunKeepsClock(cfg, s, es, t);
    HalfSecondOver(t.core.c, time);
  }

  lemma HalfSecondOver(c: Control, time: nat)
    requires c.isInitialized && 500_000 < time - c.lastTransmit < 0x1_0000_0000_0000_0000
    ensures Overdue(c, time)
  {
    Elapsed(c.lastTransmit, time);
  }

  /** No deadlock: whatever happened since the last transmission, and however full the window is, more than half a second
      later the next packet may be transmitted at once. */
  lemma NoDeadlock(cfg: Config, s: Sender, sentAt: nat, k: nat, bytes: nat, seqNr: u16, es: seq<Event>, t: Sender,
                   time: nat, j: nat, size: nat)
    requires ConfigOk(cfg) && !cfg.openWindow && CoreOk(cfg, s.core)
    requires Leads(cfg, s, [Transmit(sentAt, k, bytes, seqNr)] + es, t)
    requires forall i :: 0 <= i < |es| ==> !Sends(es[i])
    requires j < |t.streams| && 500_000 < time - sentAt < 0x1_0000_0000_0000_0000
    ensures IsOkToTransmit(cfg, t, time, j, size).1 == 0.0
  {
    var run := [Transmit(sentAt, k, bytes, seqNr)] + es;
    assert run[0] == Transmit(sentAt, k, bytes, seqNr) && run[1..] == es;
    StepKeepsWindow(cfg, s, run[0]);
    assert Enabled(s, run[0]);
    var sent := Step(cfg, s, run[0]);
    assert sent.core.c.lastTransmit == sentAt && sent.core.c.isInitialized by {
      SentIs(cfg, s, sentAt, k, bytes, seqNr);
    }
    RunOverdue(cfg, sent, es, t, time);
    AllowedIff(cfg, t, time, j, size);
  }
}
