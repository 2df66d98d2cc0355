/** What the sender keeps over every run: the congestion window's limits, the conservation of
    bytes per stream, and the bytes in flight. */
module SenderRuns {
  import opened Words
  import opened Sweep
  import opened TxRing
  import opened BaseDelay
  import opened CongestionWindow
  import opened SenderModel

  // ---- the window ----

  /** Every operation keeps the window invariant. */
  lemma StepKeepsWindow(cfg: Config, s: Sender, e: Event)
    requires ConfigOk(cfg) && !cfg.openWindow && CoreOk(cfg, s.core) && Enabled(s, e)
    ensures CoreOk(cfg, Step(cfg, s, e).core)
    ensures |Step(cfg, s, e).streams| >= |s.streams|
  {
    match e {
      case Feedback(time, k, timestamp, highest, ack, ecn, inp) =>
        FeedbackKeepsWindow(cfg, s, time, k, timestamp, highest, ack, ecn, inp);
      case MediaFrame(time, size) =>
        MediaFrameKeepsWindow(cfg, s.core, time, size);
      case Ask(time, k, size) =>
        AskKeepsWindow(cfg, s, time, k, size);
      case Transmit(time, k, bytes, seqNr) =>
        TransmitKeepsWindow(cfg, s, time, k, bytes, seqNr);
      case Rates(_) =>
      case Join(_) =>
      case Touch(time) =>
        InitializedKeeps(cfg, s.core, time);
    }
  }

  lemma MediaFrameKeepsWindow(cfg: Config, core: Core, time: nat, size: int)
    requires !cfg.openWindow && CoreOk(cfg, core)
    ensures CoreOk(cfg, NewMediaFrame(cfg, core, time, size))
    ensures NewMediaFrame(cfg, core, time, size).c.bytesInFlight == core.c.bytesInFlight
  {
  }

  lemma SecondPassedKeeps(cfg: Config, c: Control, time: nat)
    requires !cfg.openWindow && ControlOk(cfg, c)
    ensures ControlOk(cfg, SecondPassed(cfg, c, time))
    ensures SecondPassed(cfg, c, time).bytesInFlight == c.bytesInFlight
  {
  }

  lemma SecondPassedFrame(cfg: Config, c: Control, time: nat)
    ensures var c' := SecondPassed(cfg, c, time);
            c'.bytesInFlight == c.bytesInFlight && c'.lastTransmit == c.lastTransmit
  {
  }

  /** What the test before a transmission does to streams and bytes in flight. */
  lemma AskGivesUp(cfg: Config, s: Sender, time: nat, k: nat, size: int)
    requires k < |s.streams|
    ensures var s' := IsOkToTransmit(cfg, s, time, k, size).0;
            if size != -1 && TimedOut(Initialized(s.core, time).c, time)
            then s'.streams == s.streams[k := s.streams[k].(ring := Cleared(s.streams[k].ring))] && s'.core.c.bytesInFlight == 0
            else s'.streams == s.streams && s'.core.c.bytesInFlight == s.core.c.bytesInFlight
  {
    SecondPassedFrame(cfg, Initialized(s.core, time).c, time);
  }

  lemma InitializedKeeps(cfg: Config, core: Core, time: nat)
    requires CoreOk(cfg, core)
    ensures CoreOk(cfg, Initialized(core, time)) && Initialized(core, time).c.bytesInFlight == core.c.bytesInFlight
  {
  }

  lemma AskKeepsWindow(cfg: Config, s: Sender, time: nat, k: nat, size: int)
    requires !cfg.openWindow && CoreOk(cfg, s.core) && k < |s.streams|
    ensures var s' := IsOkToTransmit(cfg, s, time, k, size).0;
            && CoreOk(cfg, s'.core)
            && |s'.streams| == |s.streams|
            && (|| (s'.streams == s.streams && s'.core.c.bytesInFlight == s.core.c.bytesInFlight)
                || (s'.streams == s.streams[k := s.streams[k].(ring := Cleared(s.streams[k].ring))]
                    && s'.core.c.bytesInFlight == 0))
  {
    InitializedKeeps(cfg, s.core, time);
    SecondPassedKeeps(cfg, Initialized(s.core, time).c, time);
  }

  lemma TransmitKeepsWindow(cfg: Config, s: Sender, time: nat, k: nat, size: nat, seqNr: u16)
    requires !cfg.openWindow && CoreOk(cfg, s.core) && k < |s.streams|
    ensures var s' := AddTransmitted(cfg, s, time, k, size, seqNr);
            CoreOk(cfg, s'.core) && |s'.streams| == |s.streams|
  {
  }

  lemma FeedbackKeepsWindow(cfg: Config, s: Sender, time: nat, k: nat, timestamp: u32, highest: u16,
                            ack: Word64, ecn: u16, inp: Inputs)
    requires ConfigOk(cfg) && InputsOk(inp) && CoreOk(cfg, s.core) && k < |s.streams|
    ensures var s' := IncomingFeedback(cfg, s, time, k, timestamp, highest, ack, ecn, inp);
            CoreOk(cfg, s'.core) && |s'.streams| == |s.streams|
  {
    if !Stale(s.streams[k], highest) {
      var s0 := s.(core := Initialized(s.core, time));
      DigestKeeps(cfg, s0, time, k, timestamp, highest, ack);
      ConcludeKeeps(cfg, Digest(cfg, s0, time, k, timestamp, highest, ack), time, k, ecn, inp);
    }
  }

  /** Window safety: when isOkToTransmit allows the packet at the head of a queue and that packet is
      then registered, the bytes in flight stay within one segment of the window; within the window
      itself when the queue delay is not below its target. That includes the retransmission
      timeout and the collision of slots, and a registration at any later time. */
  lemma WindowSafety(cfg: Config, s: Sender, time: nat, k: nat, size: nat, sentAt: nat, seqNr: u16)
    requires ConfigOk(cfg) && !cfg.openWindow && CoreOk(cfg, s.core) && k < |s.streams|
    requires IsOkToTransmit(cfg, s, time, k, size).1 >= 0.0
    ensures var c := AddTransmitted(cfg, IsOkToTransmit(cfg, s, time, k, size).0, sentAt, k, size, seqNr).core.c;
            && c.bytesInFlight <= c.cwnd + c.mss
            && (c.queueDelay >= c.queueDelayTarget ==> c.bytesInFlight <= c.cwnd)
  {
  }

  // ---- bytes ----

  /** Every transmission of the stream is acknowledged at most once and lost at most once. */
  ghost predicate Conserved(st: StreamState) {
    && st.Acked() + Bytes(st.ring, true) <= st.Transmitted()
    && st.Lost() + Bytes(st.ring, false) <= st.Transmitted()
    && st.bytesAcked >= 0 && st.bytesLost >= 0 && st.ackedBefore >= 0 && st.lostBefore >= 0
  }

  /** The sender's invariant over every run. */
  ghost predicate Good(cfg: Config, s: Sender) {
    && CoreOk(cfg, s.core)
    && (forall k :: 0 <= k < |s.streams| ==> Conserved(s.streams[k]))
    && s.core.c.bytesInFlight >= 0
  }

  lemma PutConserves(ring: Ring, n: nat, p: Transmitted)
    requires n < SLOTS && !ring[n].isUsed && p.isUsed && !p.isAfterReceivedEdge
    ensures Bytes(ring[n := p], true) == Bytes(ring, true) + p.size
    ensures Bytes(ring[n := p], false) == Bytes(ring, false) + p.size
  {
    BytesUpdate(ring, n, p, true);
    BytesUpdate(ring, n, p, false);
  }

  /** A transmission, with or without collision, adds its size to what is transmitted and in use. */
  lemma TransmitKeeps(cfg: Config, s: Sender, time: nat, k: nat, size: nat, seqNr: u16)
    requires !cfg.openWindow && Good(cfg, s) && k < |s.streams|
    ensures Good(cfg, AddTransmitted(cfg, s, time, k, size, seqNr))
  {
    TransmitKeepsWindow(cfg, s, time, k, size, seqNr);
    var st := s.streams[k];
    var n := SlotOf(seqNr);
    var ring := if st.ring[n].isUsed then Cleared(st.ring) else st.ring;
    var p := Fresh(seqNr, time, size);
    BytesCleared(st.ring, true);
    BytesCleared(st.ring, false);
    PutConserves(ring, n, p);
    assert AddTransmitted(cfg, s, time, k, size, seqNr).streams[k].ring == ring[n := p];
  }

  lemma MarkAckedAccounts(core: Core, st: StreamState, time: nat, highest: u16, ack: Word64, timestamp: u32)
    requires core.delay.ptr < BUCKETS && Conserved(st)
    ensures var marked := MarkAcked(core, st, time, highest, ack, timestamp);
            && Conserved(marked.1)
            && marked.0.c.bytesInFlight == core.c.bytesInFlight
            && Bytes(marked.1.ring, true) == Bytes(st.ring, true)
  {
    var first := st.hiSeqAck + 1;
    BytesMarked(st.ring, first, SweepEnd(first, highest), highest, ack, true);
    BytesMarked(st.ring, first, SweepEnd(first, highest), highest, ack, false);
  }

  lemma DetectLossAccounts(cfg: Config, core: Core, st: StreamState, time: nat, highest: u16)
    requires Conserved(st) && core.c.bytesInFlight >= 0
    ensures var detected := DetectLoss(cfg, core, st, time, highest);
            && Conserved(detected.1)
            && detected.0.c.bytesInFlight >= 0
            && (core.c.bytesInFlight >= Bytes(st.ring, true) ==>
                  && detected.0.c.bytesInFlight - Bytes(detected.1.ring, true) >= core.c.bytesInFlight - Bytes(st.ring, true)
                  && core.c.bytesInFlight - detected.0.c.bytesInFlight == detected.1.bytesAcked - st.bytesAcked)
  {
    var l := LedgerOf(core.c, st);
    DetectAccounts(l, st.lastLossIx, st.hiSeqAck + 1, highest, st.timeTxAck);
    DetectNonNegative(l, st.lastLossIx, st.hiSeqAck + 1, highest, st.timeTxAck);
  }

  lemma DigestAccounts(cfg: Config, s: Sender, time: nat, k: nat, timestamp: u32, highest: u16, ack: Word64)
    requires Good(cfg, s) && k < |s.streams|
    ensures Good(cfg, Digest(cfg, s, time, k, timestamp, highest, ack))
  {
    var marked := MarkAcked(s.core, s.streams[k], time, highest, ack, timestamp);
    MarkAckedAccounts(s.core, s.streams[k], time, highest, ack, timestamp);
    DetectLossAccounts(cfg, marked.0, marked.1, time, highest);
    DigestKeeps(cfg, s, time, k, timestamp, highest, ack);
  }

  lemma ConcludeAccounts(cfg: Config, s: Sender, time: nat, k: nat, ecn: u16, inp: Inputs)
    requires ConfigOk(cfg) && InputsOk(inp) && Good(cfg, s) && k < |s.streams|
    ensures Good(cfg, Conclude(cfg, s, time, k, ecn, inp))
  {
    ConcludeKeeps(cfg, s, time, k, ecn, inp);
    assert Conserved(s.streams[k].(ecnCeMarkedBytes := ecn));
  }

  /** Any feedback, in or out of order, true or false, keeps the accounts. */
  lemma FeedbackKeeps(cfg: Config, s: Sender, time: nat, k: nat, timestamp: u32, highest: u16,
                      ack: Word64, ecn: u16, inp: Inputs)
    requires ConfigOk(cfg) && InputsOk(inp) && Good(cfg, s) && k < |s.streams|
    ensures Good(cfg, IncomingFeedback(cfg, s, time, k, timestamp, highest, ack, ecn, inp))
  {
    var s0 := s.(core := Initialized(s.core, time));
    InitializedKeeps(cfg, s.core, time);
    assert Good(cfg, s0);
    if !Stale(s.streams[k], highest) {
      DigestAccounts(cfg, s0, time, k, timestamp, highest, ack);
      ConcludeAccounts(cfg, Digest(cfg, s0, time, k, timestamp, highest, ack), time, k, ecn, inp);
    }
  }

  /** The clamp keeps the bytes in flight from becoming negative with several streams too. */
  lemma DetectNonNegative(l: Ledger, lastLossIx: int, first: nat, highest: u16, timeTxAck: nat)
    requires l.inFlight >= 0
    ensures Detect(l, lastLossIx, first, highest, timeTxAck).inFlight >= 0
  {
    var l1 := if lastLossIx >= 0 then Forget(l, lastLossIx, ForgetEnd(lastLossIx, first)) else l;
    if lastLossIx >= 0 {
      ForgetCounts(l, lastLossIx, ForgetEnd(lastLossIx, first));
    }
    SettleNonNegative(l1, first, SweepEnd(first, highest) + 1, highest, timeTxAck);
  }

  lemma {:induction false} SettleNonNegative(l: Ledger, lo: nat, hi: int, highest: u16, timeTxAck: nat)
    requires l.inFlight >= 0
    ensures SettleAll(l, lo, hi, highest, timeTxAck).inFlight >= 0
    decreases hi - lo
  {
    if lo < hi {
      SettleNonNegative(Settle(l, SlotOf(lo), highest, timeTxAck), lo + 1, hi, highest, timeTxAck);
    }
  }

  lemma AskKeeps(cfg: Config, s: Sender, time: nat, k: nat, size: int)
    requires !cfg.openWindow && Good(cfg, s) && k < |s.streams|
    ensures Good(cfg, IsOkToTransmit(cfg, s, time, k, size).0)
  {
    AskKeepsWindow(cfg, s, time, k, size);
    BytesCleared(s.streams[k].ring, true);
    BytesCleared(s.streams[k].ring, false);
  }

  /** Every operation keeps the invariant, for any number of streams. */
  lemma StepKeeps(cfg: Config, s: Sender, e: Event)
    requires ConfigOk(cfg) && !cfg.openWindow && Good(cfg, s) && Enabled(s, e)
    ensures Good(cfg, Step(cfg, s, e))
  {
    match e {
      case MediaFrame(time, size) =>
        MediaFrameKeepsWindow(cfg, s.core, time, size);
      case Ask(time, k, size) =>
        AskKeeps(cfg, s, time, k, size);
      case Transmit(time, k, bytes, seqNr) =>
        TransmitKeeps(cfg, s, time, k, bytes, seqNr);
      case Feedback(time, k, timestamp, highest, ack, ecn, inp) =>
        FeedbackKeeps(cfg, s, time, k, timestamp, highest, ack, ecn, inp);
      case Rates(k) =>
      case Join(st) =>
        BytesOfUnused(st.ring, true);
        BytesOfUnused(st.ring, false);
      case Touch(time) =>
        InitializedKeeps(cfg, s.core, time);
    }
  }

  // ---- the bytes in flight and the open bytes of all streams ----

  /** The open bytes of all streams: in used slots that are not past the received edge. */
  function OpenAll(ss: seq<StreamState>): nat {
    if ss == [] then 0 else Bytes(ss[0].ring, true) + OpenAll(ss[1..])
  }

  lemma {:induction false} OpenAllUpdate(ss: seq<StreamState>, k: nat, st: StreamState)
    requires k < |ss|
    ensures OpenAll(ss[k := st]) == OpenAll(ss) - Bytes(ss[k].ring, true) + Bytes(st.ring, true)
  {
    if k == 0 {
      assert ss[0 := st][1..] == ss[1..];
    } else {
      OpenAllUpdate(ss[1..], k - 1, st);
      assert ss[k := st][1..] == ss[1..][k - 1 := st];
    }
  }

  lemma {:induction false} OpenAllAppend(ss: seq<StreamState>, st: StreamState)
    ensures OpenAll(ss + [st]) == OpenAll(ss) + Bytes(st.ring, true)
  {
    if ss == [] {
      assert ss + [st] == [st] && [st][1..] == [];
    } else {
      OpenAllAppend(ss[1..], st);
      assert (ss + [st])[1..] == ss[1..] + [st];
    }
  }

  lemma {:induction false} OpenAtMostAll(ss: seq<StreamState>, k: nat)
    requires k < |ss|
    ensures Bytes(ss[k].ring, true) <= OpenAll(ss)
  {
    if k > 0 {
      OpenAtMostAll(ss[1..], k - 1);
    }
  }

  /** The bytes in flight cover the open bytes of all streams. */
  ghost predicate Covers(s: Sender) {
    s.core.c.bytesInFlight >= OpenAll(s.streams)
  }

  /** Only stream k has open bytes. */
  predicate OthersClosed(s: Sender, k: nat)
    requires k < |s.streams|
  {
    OpenAll(s.streams) == Bytes(s.streams[k].ring, true)
  }

  /** No slot collision or retransmission timeout of a stream while another stream has open bytes. */
  ghost predicate Undisturbed(s: Sender, e: Event)
    requires Enabled(s, e)
  {
    match e
    case Transmit(_, k, _, seqNr) => s.streams[k].ring[SlotOf(seqNr)].isUsed ==> OthersClosed(s, k)
    case Ask(time, k, size) => size != -1 && TimedOut(Initialized(s.core, time).c, time) ==> OthersClosed(s, k)
    case _ => true
  }

  /** Any feedback on any stream keeps the bytes in flight above the open bytes of all streams. */
  lemma FeedbackCovers(cfg: Config, s: Sender, time: nat, k: nat, timestamp: u32, highest: u16,
                       ack: Word64, ecn: u16, inp: Inputs)
    requires ConfigOk(cfg) && InputsOk(inp) && Good(cfg, s) && Covers(s) && k < |s.streams|
    ensures Covers(IncomingFeedback(cfg, s, time, k, timestamp, highest, ack, ecn, inp))
  {
    var s0 := s.(core := Initialized(s.core, time));
    InitializedKeeps(cfg, s.core, time);
    if !Stale(s.streams[k], highest) {
      DigestKeeps(cfg, s0, time, k, timestamp, highest, ack);
      DigestCovers(cfg, s0, time, k, timestamp, highest, ack);
      var s1 := Digest(cfg, s0, time, k, timestamp, highest, ack);
      ConcludeKeeps(cfg, s1, time, k, ecn, inp);
      OpenAllUpdate(s1.streams, k, s1.streams[k].(ecnCeMarkedBytes := ecn));
    }
  }

  lemma DigestCovers(cfg: Config, s: Sender, time: nat, k: nat, timestamp: u32, highest: u16, ack: Word64)
    requires Good(cfg, s) && Covers(s) && k < |s.streams|
    ensures Covers(Digest(cfg, s, time, k, timestamp, highest, ack))
  {
    var marked := MarkAcked(s.core, s.streams[k], time, highest, ack, timestamp);
    MarkAckedAccounts(s.core, s.streams[k], time, highest, ack, timestamp);
    OpenAtMostAll(s.streams, k);
    DetectLossAccounts(cfg, marked.0, marked.1, time, highest);
    var detected := DetectLoss(cfg, marked.0, marked.1, time, highest);
    OpenAllUpdate(s.streams, k, detected.1);
    assert Digest(cfg, s, time, k, timestamp, highest, ack) == Sender(detected.0, s.streams[k := detected.1]);
  }

  /** A transmission keeps it if and only if its slot is free or no other stream has open bytes. */
  lemma TransmitCoversIff(cfg: Config, s: Sender, time: nat, k: nat, size: nat, seqNr: u16)
    requires Covers(s) && k < |s.streams|
    ensures Covers(AddTransmitted(cfg, s, time, k, size, seqNr))
            <==> (s.streams[k].ring[SlotOf(seqNr)].isUsed ==> OthersClosed(s, k))
  {
    var st, n := s.streams[k], SlotOf(seqNr);
    var ring := if st.ring[n].isUsed then Cleared(st.ring) else st.ring;
    BytesCleared(st.ring, true);
    PutConserves(ring, n, Fresh(seqNr, time, size));
    OpenAllUpdate(s.streams, k, Stored(st, time, size, seqNr));
    OpenAtMostAll(s.streams, k);
  }

  /** The test before it keeps it if and only if there is no timeout or no other stream has open bytes. */
  lemma AskCoversIff(cfg: Config, s: Sender, time: nat, k: nat, size: int)
    requires Covers(s) && k < |s.streams|
    ensures Covers(IsOkToTransmit(cfg, s, time, k, size).0)
            <==> (size != -1 && TimedOut(Initialized(s.core, time).c, time) ==> OthersClosed(s, k))
  {
    var st := s.streams[k];
    AskGivesUp(cfg, s, time, k, size);
    BytesCleared(st.ring, true);
    OpenAllUpdate(s.streams, k, st.(ring := Cleared(st.ring)));
    OpenAtMostAll(s.streams, k);
  }

  /** Every operation, for any number of streams. */
  lemma StepCoversIff(cfg: Config, s: Sender, e: Event)
    requires ConfigOk(cfg) && !cfg.openWindow && Good(cfg, s) && Covers(s) && Enabled(s, e)
    ensures Covers(Step(cfg, s, e)) <==> Undisturbed(s, e)
  {
    match e {
      case MediaFrame(time, size) =>
        MediaFrameKeepsWindow(cfg, s.core, time, size);
      case Ask(time, k, size) =>
        AskCoversIff(cfg, s, time, k, size);
      case Transmit(time, k, bytes, seqNr) =>
        TransmitCoversIff(cfg, s, time, k, bytes, seqNr);
      case Feedback(time, k, timestamp, highest, ack, ecn, inp) =>
        FeedbackCovers(cfg, s, time, k, timestamp, highest, ack, ecn, inp);
      case Rates(k) =>
        OpenAllUpdate(s.streams, k, RateUpdate(s.streams[k]));
      case Join(st) =>
        BytesOfUnused(st.ring, true);
        OpenAllAppend(s.streams, st);
      case Touch(time) =>
        InitializedKeeps(cfg, s.core, time);
    }
  }

  // ---- runs ----

  /** The state after the constructor, with streams registered; cwnd0 is the initial window. */
  ghost predicate Initial(cfg: Config, s: Sender) {
    var c := s.core.c;
    && !c.isInitialized
    && c.mss == INIT_MSS && c.cwndMin == 2 * INIT_MSS && c.cwnd >= c.cwndMin
    && c.bytesInFlight == 0 && c.bytesNewlyAcked == 0
    && c.queueDelay == 0.0 && c.queueDelayTarget == cfg.queueDelayTargetMin
    && s.core.fractionPtr == 0
    && Summarizes(s.core.delay, [], [])
    && forall k :: 0 <= k < |s.streams| ==> InitialStream(s.streams[k])
  }

  /** The run `es` leads from s to t. */
  ghost predicate Leads(cfg: Config, s: Sender, es: seq<Event>, t: Sender)
    requires ConfigOk(cfg) && !cfg.openWindow && CoreOk(cfg, s.core)
    decreases |es|
  {
    if es == [] then s == t
    else
      Enabled(s, es[0]) &&
      (StepKeepsWindow(cfg, s, es[0]);
       Leads(cfg, Step(cfg, s, es[0]), es[1..], t))
  }

  lemma InitialIsGood(cfg: Config, s: Sender)
    requires ConfigOk(cfg) && Initial(cfg, s)
    ensures Good(cfg, s)
  {
    forall k | 0 <= k < |s.streams| ensures Conserved(s.streams[k]) && Bytes(s.streams[k].ring, true) == 0 {
      BytesOfUnused(s.streams[k].ring, true);
      BytesOfUnused(s.streams[k].ring, false);
    }
  }

  lemma {:induction false} RunKeeps(cfg: Config, s: Sender, es: seq<Event>, t: Sender)
    requires ConfigOk(cfg) && !cfg.openWindow && Good(cfg, s) && Leads(cfg, s, es, t)
    ensures Good(cfg, t)
    decreases |es|
  {
    if es != [] {
      StepKeeps(cfg, s, es[0]);
      RunKeeps(cfg, Step(cfg, s, es[0]), es[1..], t);
    }
  }

  /** The bound holds after every step of the run. */
  ghost predicate AllCover(cfg: Config, s: Sender, es: seq<Event>)
    requires ConfigOk(cfg) && !cfg.openWindow && CoreOk(cfg, s.core)
    decreases |es|
  {
    Covers(s) &&
    (es != [] && Enabled(s, es[0]) ==>
       (StepKeepsWindow(cfg, s, es[0]);
        AllCover(cfg, Step(cfg, s, es[0]), es[1..])))
  }

  /** No step of the run disturbs it. */
  ghost predicate AllUndisturbed(cfg: Config, s: Sender, es: seq<Event>)
    requires ConfigOk(cfg) && !cfg.openWindow && CoreOk(cfg, s.core)
    decreases |es|
  {
    es != [] && Enabled(s, es[0]) ==>
      Undisturbed(s, es[0]) &&
      (StepKeepsWindow(cfg, s, es[0]);
       AllUndisturbed(cfg, Step(cfg, s, es[0]), es[1..]))
  }

  lemma {:induction false} RunCoversIff(cfg: Config, s: Sender, es: seq<Event>, t: Sender)
    requires ConfigOk(cfg) && !cfg.openWindow && Good(cfg, s) && Covers(s) && Leads(cfg, s, es, t)
    ensures AllCover(cfg, s, es) <==> AllUndisturbed(cfg, s, es)
    ensures AllUndisturbed(cfg, s, es) ==> Covers(t)
    decreases |es|
  {
    if es != [] {
      StepKeeps(cfg, s, es[0]);
      StepCoversIff(cfg, s, es[0]);
      if Undisturbed(s, es[0]) {
        RunCoversIff(cfg, Step(cfg, s, es[0]), es[1..], t);
      } else {
        assert !Covers(Step(cfg, s, es[0]));
      }
    }
  }

  /** A run that ends with at most one stream never had more, and is not disturbed. */
  lemma {:induction false} SingleUndisturbed(cfg: Config, s: Sender, es: seq<Event>, t: Sender)
    requires ConfigOk(cfg) && !cfg.openWindow && CoreOk(cfg, s.core) && Leads(cfg, s, es, t) && |t.streams| <= 1
    ensures |s.streams| <= 1 && AllUndisturbed(cfg, s, es)
    decreases |es|
  {
    if es != [] {
      StepKeepsWindow(cfg, s, es[0]);
      SingleUndisturbed(cfg, Step(cfg, s, es[0]), es[1..], t);
      assert |s.streams| == 1 ==> OpenAll(s.streams[1..]) == 0;
    }
  }

  lemma {:induction false} InitialCovers(ss: seq<StreamState>)
    requires forall k :: 0 <= k < |ss| ==> InitialStream(ss[k])
    ensures OpenAll(ss) == 0
  {
    if ss != [] {
      BytesOfUnused(ss[0].ring, true);
      InitialCovers(ss[1..]);
    }
  }

  /** Over every run from the initial state, for any number of streams: the window limits; the
      conservation of bytes of each stream; and the bytes in flight cover the open bytes of all streams
      after every step, if and only if no step disturbs them. With a single stream none does. Streams may be
      registered at any time. */
  lemma EveryRun(cfg: Config, s: Sender, es: seq<Event>, t: Sender)
    requires ConfigOk(cfg) && !cfg.openWindow && Initial(cfg, s) && Leads(cfg, s, es, t)
    ensures t.core.c.cwnd >= t.core.c.cwndMin >= 2 * t.core.c.mss
    ensures 0.75 * cfg.queueDelayTargetMin <= t.core.c.queueDelayTarget <= TARGET_MAX
    ensures forall k :: 0 <= k < |t.streams| ==>
      && 0 <= t.streams[k].Acked() <= t.streams[k].Acked() + Bytes(t.streams[k].ring, true) <= t.streams[k].Transmitted()
      && 0 <= t.streams[k].Lost() <= t.streams[k].Lost() + Bytes(t.streams[k].ring, false) <= t.streams[k].Transmitted()
    ensures AllCover(cfg, s, es) <==> AllUndisturbed(cfg, s, es)
    ensures AllUndisturbed(cfg, s, es) ==> t.core.c.bytesInFlight >= OpenAll(t.streams)
    ensures |t.streams| == 1 ==> t.core.c.bytesInFlight >= Bytes(t.streams[0].ring, true)
  {
    InitialIsGood(cfg, s);
    RunKeeps(cfg, s, es, t);
    assert forall k :: 0 <= k < |t.streams| ==> Conserved(t.streams[k]);
    InitialCovers(s.streams);
    RunCoversIff(cfg, s, es, t);
    if |t.streams| == 1 {
      SingleUndisturbed(cfg, s, es, t);
      OpenAtMostAll(t.streams, 0);
    }
  }

  /** Why the condition is needed: two streams send a packet each, and the first one a packet 2048 numbers
      later. The collision clears the slots of the first stream and the count of both. */
  lemma CollisionUncovers(cfg: Config, s: Sender, time: nat, size: nat)
    requires ConfigOk(cfg) && !cfg.openWindow && Initial(cfg, s) && |s.streams| == 2 && size > 0
    ensures var s1 := AddTransmitted(cfg, s, time, 0, size, 0);
            var s2 := AddTransmitted(cfg, s1, time, 1, size, 0);
            var s3 := AddTransmitted(cfg, s2, time, 0, size, 2048);
            && Covers(s1) && Covers(s2)
            && s3.core.c.bytesInFlight == size && OpenAll(s3.streams) == 2 * size
  {
    InitialCovers(s.streams);
    SendToFree(cfg, s, time, 0, size, 0);
    var s1 := AddTransmitted(cfg, s, time, 0, size, 0);
    SendToFree(cfg, s1, time, 1, size, 0);
    var s2 := AddTransmitted(cfg, s1, time, 1, size, 0);
    var st := s2.streams[0];
    BytesCleared(st.ring, true);
    PutConserves(Cleared(st.ring), 0, Fresh(2048, time, size));
    OpenAllUpdate(s2.streams, 0, Stored(st, time, size, 2048));
    PutConserves(s.streams[0].ring, 0, Fresh(0, time, size));
    BytesOfUnused(s.streams[0].ring, true);
  }

  lemma SendToFree(cfg: Config, s: Sender, time: nat, k: nat, size: nat, seqNr: u16)
    requires k < |s.streams| && !s.streams[k].ring[SlotOf(seqNr)].isUsed
    ensures var s' := AddTransmitted(cfg, s, time, k, size, seqNr);
            && s'.core.c.bytesInFlight == s.core.c.bytesInFlight + size
            && OpenAll(s'.streams) == OpenAll(s.streams) + size
  {
    PutConserves(s.streams[k].ring, SlotOf(seqNr), Fresh(seqNr, time, size));
    OpenAllUpdate(s.streams, k, Stored(s.streams[k], time, size, seqNr));
  }
}
