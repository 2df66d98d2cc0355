/** How far the bytes in flight exceed the open bytes of all streams, over every run: by the packets that
    loss detection gave up before they passed the received edge. */
module Leakage {
  import opened Words
  import opened Sweep
  import opened TxRing
  import opened BaseDelay
  import opened CongestionWindow
  import opened SenderModel
  import opened SenderRuns
  import opened InFlight

  function Surplus(s: Sender): int {
    s.core.c.bytesInFlight - OpenAll(s.streams)
  }

  /** The ring after the ACK marks of a feedback, and the time its packet was sent. */
  function MarkedRing(st: StreamState, highest: u16, ack: Word64): Ring {
    Marked(st.ring, st.hiSeqAck + 1, SweepEnd(st.hiSeqAck + 1, highest), highest, ack)
  }

  function EdgeTime(st: StreamState, highest: u16): nat {
    if Hit(st.ring, highest) then st.ring[SlotOf(highest)].timeTx else st.timeTxAck
  }

  /** The bytes that a feedback leaks: of the packets given up before they pass the edge. */
  function LeakOf(st: StreamState, highest: u16, ack: Word64): nat {
    var ring := MarkedRing(st, highest, ack);
    SizeOf(ring, LeakingSlots(ring, st.lastLossIx, st.hiSeqAck + 1, highest, EdgeTime(st, highest)))
  }

  /** The bytes leaked since the last collision or timeout, after one more step. */
  ghost function LeakedAfter(s: Sender, e: Event, leaked: int): int
    requires Enabled(s, e)
  {
    match e
    case Transmit(_, k, _, seqNr) => if s.streams[k].ring[SlotOf(seqNr)].isUsed then 0 else leaked
    case Ask(time, k, size) => if size != -1 && TimedOut(Initialized(s.core, time).c, time) then 0 else leaked
    case Feedback(_, k, _, highest, ack, _, _) =>
      if Stale(s.streams[k], highest) then leaked else leaked + LeakOf(s.streams[k], highest, ack)
    case _ => leaked
  }

  lemma DigestLeaks(cfg: Config, s: Sender, time: nat, k: nat, timestamp: u32, highest: u16, ack: Word64)
    requires Good(cfg, s) && Covers(s) && k < |s.streams|
    ensures Surplus(Digest(cfg, s, time, k, timestamp, highest, ack)) == Surplus(s) + LeakOf(s.streams[k], highest, ack)
  {
    var st, first := s.streams[k], s.streams[k].hiSeqAck + 1;
    var marked := MarkAcked(s.core, st, time, highest, ack, timestamp);
    MarkAckedParts(s.core, st, time, highest, ack, timestamp);
    BytesMarked(st.ring, first, SweepEnd(first, highest), highest, ack, true);
    OpenAtMostAll(s.streams, k);
    LossLeaks(cfg, marked.0, marked.1, time, highest);
    var detected := DetectLoss(cfg, marked.0, marked.1, time, highest);
    OpenAllUpdate(s.streams, k, detected.1);
    assert Digest(cfg, s, time, k, timestamp, highest, ack) == Sender(detected.0, s.streams[k := detected.1]);
  }

  lemma LossLeaks(cfg: Config, core: Core, st: StreamState, time: nat, highest: u16)
    requires core.c.bytesInFlight >= Bytes(st.ring, true)
    ensures var detected := DetectLoss(cfg, core, st, time, highest);
            detected.0.c.bytesInFlight - Bytes(detected.1.ring, true)
            == core.c.bytesInFlight - Bytes(st.ring, true)
               + SizeOf(st.ring, LeakingSlots(st.ring, st.lastLossIx, st.hiSeqAck + 1, highest, st.timeTxAck))
  {
    DetectLeaks(LedgerOf(core.c, st), st.lastLossIx, st.hiSeqAck + 1, highest, st.timeTxAck);
  }

  lemma FeedbackLeaks(cfg: Config, s: Sender, time: nat, k: nat, timestamp: u32, highest: u16,
                      ack: Word64, ecn: u16, inp: Inputs)
    requires ConfigOk(cfg) && InputsOk(inp) && Good(cfg, s) && Covers(s) && k < |s.streams|
    ensures Surplus(IncomingFeedback(cfg, s, time, k, timestamp, highest, ack, ecn, inp))
            == Surplus(s) + if Stale(s.streams[k], highest) then 0 else LeakOf(s.streams[k], highest, ack)
  {
    var s0 := s.(core := Initialized(s.core, time));
    InitializedKeeps(cfg, s.core, time);
    if !Stale(s.streams[k], highest) {
      DigestKeeps(cfg, s0, time, k, timestamp, highest, ack);
      DigestLeaks(cfg, s0, time, k, timestamp, highest, ack);
      var s1 := Digest(cfg, s0, time, k, timestamp, highest, ack);
      ConcludeKeeps(cfg, s1, time, k, ecn, inp);
      OpenAllUpdate(s1.streams, k, s1.streams[k].(ecnCeMarkedBytes := ecn));
    }
  }

  lemma TransmitLeaks(cfg: Config, s: Sender, time: nat, k: nat, size: nat, seqNr: u16)
    requires k < |s.streams| && (s.streams[k].ring[SlotOf(seqNr)].isUsed ==> OthersClosed(s, k))
    ensures Surplus(AddTransmitted(cfg, s, time, k, size, seqNr))
            == if s.streams[k].ring[SlotOf(seqNr)].isUsed then 0 else Surplus(s)
  {
    var st, n := s.streams[k], SlotOf(seqNr);
    var ring := if st.ring[n].isUsed then Cleared(st.ring) else st.ring;
    BytesCleared(st.ring, true);
    PutConserves(ring, n, Fresh(seqNr, time, size));
    OpenAllUpdate(s.streams, k, Stored(st, time, size, seqNr));
  }

  lemma AskLeaks(cfg: Config, s: Sender, time: nat, k: nat, size: int)
    requires k < |s.streams| && (size != -1 && TimedOut(Initialized(s.core, time).c, time) ==> OthersClosed(s, k))
    ensures Surplus(IsOkToTransmit(cfg, s, time, k, size).0)
            == if size != -1 && TimedOut(Initialized(s.core, time).c, time) then 0 else Surplus(s)
  {
    var st := s.streams[k];
    AskGivesUp(cfg, s, time, k, size);
    BytesCleared(st.ring, true);
    OpenAllUpdate(s.streams, k, st.(ring := Cleared(st.ring)));
  }

  /** Every step that is not disturbed changes the surplus by exactly what it leaks. */
  lemma StepLeaks(cfg: Config, s: Sender, e: Event)
    requires ConfigOk(cfg) && !cfg.openWindow && Good(cfg, s) && Covers(s) && Enabled(s, e) && Undisturbed(s, e)
    ensures Surplus(Step(cfg, s, e)) == LeakedAfter(s, e, Surplus(s))
  {
    match e {
      case MediaFrame(time, size) =>
        MediaFrameKeepsWindow(cfg, s.core, time, size);
      case Ask(time, k, size) =>
        AskLeaks(cfg, s, time, k, size);
      case Transmit(time, k, bytes, seqNr) =>
        TransmitLeaks(cfg, s, time, k, bytes, seqNr);
      case Feedback(time, k, timestamp, highest, ack, ecn, inp) =>
        FeedbackLeaks(cfg, s, time, k, timestamp, highest, ack, ecn, inp);
      case Rates(k) =>
        OpenAllUpdate(s.streams, k, RateUpdate(s.streams[k]));
      case Join(st) =>
        BytesOfUnused(st.ring, true);
        OpenAllAppend(s.streams, st);
      case Touch(time) =>
        InitializedKeeps(cfg, s.core, time);
    }
  }

  // ---- runs ----

  /** What a run leaked since its last collision or timeout. */
  ghost function LeakedAlong(cfg: Config, s: Sender, es: seq<Event>, leaked: int): int
    requires ConfigOk(cfg) && !cfg.openWindow && CoreOk(cfg, s.core)
    decreases |es|
  {
    if es == [] || !Enabled(s, es[0]) then leaked
    else
      StepKeepsWindow(cfg, s, es[0]);
      LeakedAlong(cfg, Step(cfg, s, es[0]), es[1..], LeakedAfter(s, es[0], leaked))
  }

  /** The bytes in flight equal the open bytes after every step. */
  ghost predicate AllExact(cfg: Config, s: Sender, es: seq<Event>)
    requires ConfigOk(cfg) && !cfg.openWindow && CoreOk(cfg, s.core)
    decreases |es|
  {
    Surplus(s) == 0 &&
    (es != [] && Enabled(s, es[0]) ==>
       (StepKeepsWindow(cfg, s, es[0]);
        AllExact(cfg, Step(cfg, s, es[0]), es[1..])))
  }

  /** This feedback gives up no packet with bytes before it passes the edge. */
  ghost predicate Tight(s: Sender, e: Event)
    requires Enabled(s, e)
  {
    e.Feedback? && !Stale(s.streams[e.k], e.highest) ==> LeakOf(s.streams[e.k], e.highest, e.ack) == 0
  }

  ghost predicate AllTight(cfg: Config, s: Sender, es: seq<Event>)
    requires ConfigOk(cfg) && !cfg.openWindow && CoreOk(cfg, s.core)
    decreases |es|
  {
    es != [] && Enabled(s, es[0]) ==>
      Tight(s, es[0]) &&
      (StepKeepsWindow(cfg, s, es[0]);
       AllTight(cfg, Step(cfg, s, es[0]), es[1..]))
  }

  lemma {:induction false} RunLeaks(cfg: Config, s: Sender, es: seq<Event>, t: Sender)
    requires ConfigOk(cfg) && !cfg.openWindow && Good(cfg, s) && Covers(s) && Leads(cfg, s, es, t)
    requires AllUndisturbed(cfg, s, es)
    ensures Surplus(t) == LeakedAlong(cfg, s, es, Surplus(s))
    decreases |es|
  {
    if es != [] {
      StepKeeps(cfg, s, es[0]);
      StepCoversIff(cfg, s, es[0]);
      StepLeaks(cfg, s, es[0]);
      RunLeaks(cfg, Step(cfg, s, es[0]), es[1..], t);
    }
  }

  lemma StepExactIff(cfg: Config, s: Sender, e: Event)
    requires ConfigOk(cfg) && !cfg.openWindow && Good(cfg, s) && Surplus(s) == 0 && Enabled(s, e)
    ensures Surplus(Step(cfg, s, e)) == 0 <==> Undisturbed(s, e) && Tight(s, e)
  {
    StepCoversIff(cfg, s, e);
    if Undisturbed(s, e) {
      StepLeaks(cfg, s, e);
    }
  }

  lemma {:induction false} RunExactIff(cfg: Config, s: Sender, es: seq<Event>, t: Sender)
    requires ConfigOk(cfg) && !cfg.openWindow && Good(cfg, s) && Surplus(s) == 0 && Leads(cfg, s, es, t)
    ensures AllExact(cfg, s, es) <==> AllUndisturbed(cfg, s, es) && AllTight(cfg, s, es)
    decreases |es|
  {
    if es != [] {
      StepKeeps(cfg, s, es[0]);
      StepExactIff(cfg, s, es[0]);
      if Undisturbed(s, es[0]) && Tight(s, es[0]) {
        RunExactIff(cfg, Step(cfg, s, es[0]), es[1..], t);
      } else {
        assert Surplus(Step(cfg, s, es[0])) != 0;
      }
    }
  }

  /** Over every run from the initial state, with any number of streams and any feedback: the bytes in flight
      equal the open bytes of all streams after every step, if and only if no collision or timeout hits a
      stream while another one has open bytes, and no feedback gives up a packet with bytes before it passes
      the edge. Without such a collision or timeout the bytes in flight exceed the open bytes by exactly what
      was given up like that since the last one. */
  lemma EveryRunLeaks(cfg: Config, s: Sender, es: seq<Event>, t: Sender)
    requires ConfigOk(cfg) && !cfg.openWindow && Initial(cfg, s) && Leads(cfg, s, es, t)
    ensures AllExact(cfg, s, es) <==> AllUndisturbed(cfg, s, es) && AllTight(cfg, s, es)
    ensures AllUndisturbed(cfg, s, es) ==>
              t.core.c.bytesInFlight == OpenAll(t.streams) + LeakedAlong(cfg, s, es, 0)
    ensures |t.streams| <= 1 ==> AllUndisturbed(cfg, s, es)
  {
    InitialIsGood(cfg, s);
    InitialCovers(s.streams);
    RunExactIff(cfg, s, es, t);
    if AllUndisturbed(cfg, s, es) {
      RunLeaks(cfg, s, es, t);
    }
    if |t.streams| <= 1 {
      SingleUndisturbed(cfg, s, es, t);
    }
  }

  // ---- a feedback far ahead ----

  /** Packets 1 and 30000 are sent, the numbers in between skipped, and 30000 is acknowledged, more than 20000
      numbers beyond 1. Nothing is out of reach, but packet 1 does not compare as at or before the highest
      number: it is dropped as late without being subtracted, and its bytes stay in flight. */
  lemma FarFeedbackLeaks(cfg: Config, s: Sender, time: nat, size: nat, later: nat, timestamp: u32, ack: Word64,
                         ecn: u16, inp: Inputs)
    requires ConfigOk(cfg) && !cfg.openWindow && InputsOk(inp) && Initial(cfg, s) && |s.streams| == 1
    ensures var s1 := AddTransmitted(cfg, s, time, 0, size, 1);
            var s2 := AddTransmitted(cfg, s1, time + REORDER_TIME + 1, 0, size, 30000);
            && Good(cfg, s2) && Surplus(s2) == 0
            && Surplus(IncomingFeedback(cfg, s2, later, 0, timestamp, 30000, ack, ecn, inp)) == size
  {
    InitialIsGood(cfg, s);
    InitialCovers(s.streams);
    TransmitKeeps(cfg, s, time, 0, size, 1);
    TransmitLeaks(cfg, s, time, 0, size, 1);
    var s1 := AddTransmitted(cfg, s, time, 0, size, 1);
    TransmitKeeps(cfg, s1, time + REORDER_TIME + 1, 0, size, 30000);
    TransmitLeaks(cfg, s1, time + REORDER_TIME + 1, 0, size, 30000);
    var s2 := AddTransmitted(cfg, s1, time + REORDER_TIME + 1, 0, size, 30000);
    FarLeak(s.streams[0], s2.streams[0], time, size, ack);
    FeedbackLeaks(cfg, s2, later, 0, timestamp, 30000, ack, ecn, inp);
  }

  lemma FarLeak(st0: StreamState, st: StreamState, time: nat, size: nat, ack: Word64)
    requires InitialStream(st0)
    requires st == Stored(Stored(st0, time, size, 1), time + REORDER_TIME + 1, size, 30000)
    ensures LeakOf(st, 30000, ack) == size
  {
    assert SlotOf(30000) == 1328 && SweepEnd(1, 30000) == 1328;
    var ring := MarkedRing(st, 30000, ack);
    var none := seq(SLOTS, _ => false);
    assert st.ring == st0.ring[1 := Fresh(1, time, size)][1328 := Fresh(30000, time + REORDER_TIME + 1, size)];
    assert !Reports(30000, ack, 1);
    assert LeakingSlots(ring, -1, 1, 30000, time + REORDER_TIME + 1) == none[1 := true];
    SizeOfNone(ring, none);
    SizeOfChosen(ring, none, 1, true);
  }
}
