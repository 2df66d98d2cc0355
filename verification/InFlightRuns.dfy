/** The exactness of the bytes in flight over every run of a sender with a single stream. */
module InFlightRuns {
  import opened Words
  import opened Sweep
  import opened TxRing
  import opened BaseDelay
  import opened CongestionWindow
  import opened SenderModel
  import opened SenderRuns
  import opened InFlight

  /** A sender with one stream, and the unwrapped numbers behind it: those of the packets in the
      slots, the next one to send, the highest one acknowledged by the last feedback (edge) and by the
      feedback before it. Before there was a feedback, both of these are 0, as in the code. */
  datatype Numbered = Numbered(s: Sender, num: seq<int>, next: nat, edge: nat, before: nat, lastTime: nat)

  datatype Event =
    /** Packet u is registered; numbers may be skipped when the queue was cleared. */
    | Send(u: nat, time: nat, bytes: nat)
    /** A feedback arrives with this unwrapped highest number. */
    | Hear(time: nat, highest: nat, timestamp: u32, ack: Word64, ecn: u16, inp: Inputs)
    | Frame(time: nat, sizeOfNextRtp: int)
    | Poll(time: nat, size: int)
    | Restart
    /** A call that finds no stream: it only initializes. */
    | Touch(time: nat)

  /** Numbers grow, and time does not run backwards between transmissions. Feedback is in order, names a
      number that was used or skipped, and is at most 2048 numbers after the feedback before last. */
  ghost predicate InOrder(t: Numbered, e: Event) {
    match e
    case Send(u, time, _) => t.next <= u && t.lastTime <= time
    case Hear(_, highest, _, _, _, inp) =>
      InputsOk(inp) && t.edge <= highest < t.next && t.next - 1 - t.before <= SLOTS
    case _ => true
  }

  ghost function Step(cfg: Config, t: Numbered, e: Event): Numbered
    requires ConfigOk(cfg) && CoreOk(cfg, t.s.core) && |t.s.streams| == 1 && |t.num| == SLOTS && InOrder(t, e)
  {
    match e
    case Send(u, time, size) =>
      t.(s := AddTransmitted(cfg, t.s, time, 0, size, Wrap16(u)),
         num := t.num[SlotOf(u) := u], next := u + 1, lastTime := time)
    case Hear(time, highest, timestamp, ack, ecn, inp) =>
      t.(s := IncomingFeedback(cfg, t.s, time, 0, timestamp, Wrap16(highest), ack, ecn, inp),
         edge := highest, before := t.edge)
    case Frame(time, size) => t.(s := t.s.(core := NewMediaFrame(cfg, t.s.core, time, size)))
    case Poll(time, size) => t.(s := IsOkToTransmit(cfg, t.s, time, 0, size).0)
    case Restart => t.(s := t.s.(streams := [RateUpdate(t.s.streams[0])]))
    case Touch(time) => t.(s := t.s.(core := Initialized(t.s.core, time)))
  }

  /** The bytes in flight are exactly the bytes in used slots not past the received edge. */
  ghost predicate Exact(cfg: Config, t: Numbered) {
    && CoreOk(cfg, t.s.core)
    && |t.s.streams| == 1 && |t.num| == SLOTS
    && t.before <= t.edge && (t.edge < t.next || t.edge == 0)
    && t.s.streams[0].hiSeqAck == Wrap16(t.edge)
    && (t.s.streams[0].lastLossIx == -1 || t.s.streams[0].lastLossIx == Wrap16(t.before) + 1)
    && t.s.core.c.bytesInFlight == Bytes(t.s.streams[0].ring, true)
    && Tracks(t.s.streams[0].ring, t.num, t.next, t.edge, t.s.streams[0].timeTxAck, t.lastTime)
  }

  lemma ClearedTracks(ring: Ring, num: seq<int>, next: int, edge: int, timeTxAck: nat, lastTime: nat)
    requires |num| == SLOTS && timeTxAck <= lastTime
    ensures Tracks(Cleared(ring), num, next, edge, timeTxAck, lastTime)
  {
  }

  /** The ring after a transmission. */
  lemma StoredTracks(st: StreamState, num: seq<int>, next: nat, edge: nat, lastTime: nat, u: nat, time: nat, size: nat)
    requires Tracks(st.ring, num, next, edge, st.timeTxAck, lastTime)
    requires next <= u && lastTime <= time && (edge < next || edge == 0)
    ensures Tracks(Stored(st, time, size, Wrap16(u)).ring, num[SlotOf(u) := u], u + 1, edge, st.timeTxAck, time)
  {
    SlotOfWrapped(u);
    var n := SlotOf(u);
    var ring := if st.ring[n].isUsed then Cleared(st.ring) else st.ring;
    ClearedTracks(st.ring, num, next, edge, st.timeTxAck, lastTime);
    var ring' := Stored(st, time, size, Wrap16(u)).ring;
    assert ring' == ring[n := ring'[n]];
  }

  lemma SendKeepsExact(cfg: Config, t: Numbered, u: nat, time: nat, size: nat)
    requires ConfigOk(cfg) && !cfg.openWindow && Exact(cfg, t) && t.next <= u && t.lastTime <= time
    ensures Exact(cfg, Step(cfg, t, Send(u, time, size)))
  {
    var st := t.s.streams[0];
    TransmitKeepsWindow(cfg, t.s, time, 0, size, Wrap16(u));
    StoredTracks(st, t.num, t.next, t.edge, t.lastTime, u, time, size);
    var n := SlotOf(Wrap16(u));
    var ring := if st.ring[n].isUsed then Cleared(st.ring) else st.ring;
    BytesCleared(st.ring, true);
    PutConserves(ring, n, Stored(st, time, size, Wrap16(u)).ring[n]);
  }

  lemma WordDistance(u: int, v: int)
    requires 0 <= v - u < 65536
    ensures Wrap16(Wrap16(v) - Wrap16(u)) == v - u
  {
  }

  /** Feedback that is in order is not taken for stale. */
  lemma NotStale(st: StreamState, edge: nat, highest: nat)
    requires st.hiSeqAck == Wrap16(edge) && edge <= highest <= edge + SLOTS
    ensures !Stale(st, Wrap16(highest))
  {
    WordDistance(edge, highest);
  }

  lemma MarkAckedExact(core: Core, st: StreamState, t: Numbered, time: nat, highest: nat, ack: Word64, timestamp: u32)
    requires core.delay.ptr < BUCKETS && |t.num| == SLOTS
    requires core.c.bytesInFlight == Bytes(st.ring, true)
    requires Tracks(st.ring, t.num, t.next, t.edge, st.timeTxAck, t.lastTime)
    requires t.before <= t.edge <= highest < t.next && t.next - 1 - t.before <= SLOTS
    ensures var marked := MarkAcked(core, st, time, Wrap16(highest), ack, timestamp);
            && marked.0.c.bytesInFlight == Bytes(marked.1.ring, true)
            && Placed(marked.1.ring, t.num, t.next)
            && InSequence(marked.1.ring, t.num, highest, marked.1.timeTxAck, t.lastTime)
            && MarkedUpTo(marked.1.ring, t.num, t.edge, highest)
  {
    MarkAckedParts(core, st, time, Wrap16(highest), ack, timestamp);
    MarksExact(st, t, highest, ack);
  }

  /** The marks of a feedback, on the ring. */
  lemma MarksExact(st: StreamState, t: Numbered, highest: nat, ack: Word64)
    requires |t.num| == SLOTS
    requires Tracks(st.ring, t.num, t.next, t.edge, st.timeTxAck, t.lastTime)
    requires t.before <= t.edge <= highest < t.next && t.next - 1 - t.before <= SLOTS
    ensures var h, first := Wrap16(highest), st.hiSeqAck + 1;
            var ring := Marked(st.ring, first, SweepEnd(first, h), h, ack);
            && Bytes(ring, true) == Bytes(st.ring, true)
            && Placed(ring, t.num, t.next)
            && InSequence(ring, t.num, highest, if Hit(st.ring, h) then st.ring[SlotOf(h)].timeTx else st.timeTxAck, t.lastTime)
            && MarkedUpTo(ring, t.num, t.edge, highest)
  {
    var first := st.hiSeqAck + 1;
    var last := SweepEnd(first, Wrap16(highest));
    BytesMarked(st.ring, first, last, Wrap16(highest), ack, true);
    MarkedTracks(st.ring, t.num, t.next, t.edge, highest, first, last, ack, st.timeTxAck, t.lastTime);
    var ring, n := Marked(st.ring, first, last, Wrap16(highest), ack), SlotOf(Wrap16(highest));
    if Hit(st.ring, Wrap16(highest)) {
      HitUpTo(t.num[n], highest, t.next);
      EdgeMoves(ring, t.num, t.edge, highest, st.timeTxAck, n, t.lastTime);
    }
  }

  /** The packet with the highest acknowledged number was sent before those beyond it. */
  lemma EdgeMoves(ring: Ring, num: seq<int>, edge: int, highest: int, timeTxAck: nat, n: nat, lastTime: nat)
    requires |num| == SLOTS && InSequence(ring, num, edge, timeTxAck, lastTime) && edge <= highest
    requires n < SLOTS && ring[n].isUsed && num[n] <= highest
    ensures InSequence(ring, num, highest, ring[n].timeTx, lastTime)
  {
  }

  /** A packet in use with the lower 16 bits of `highest` is not beyond it. */
  lemma HitUpTo(u: int, highest: int, next: int)
    requires u < next && highest < next && next - highest <= 60000 && Wrap16(u) == Wrap16(highest)
    ensures u <= highest
  {
    if u > highest {
      NearNumbersDiffer(u, highest);
    }
  }

  lemma DetectLossExact(cfg: Config, core: Core, st: StreamState, t: Numbered, time: nat, highest: nat)
    requires core.c.bytesInFlight == Bytes(st.ring, true)
    requires st.hiSeqAck == Wrap16(t.edge) && (st.lastLossIx == -1 || st.lastLossIx == Wrap16(t.before) + 1)
    requires t.before <= t.edge <= highest < t.next && t.next - 1 - t.before <= SLOTS
    requires Placed(st.ring, t.num, t.next) && InSequence(st.ring, t.num, highest, st.timeTxAck, t.lastTime)
    requires MarkedUpTo(st.ring, t.num, t.edge, highest)
    ensures var detected := DetectLoss(cfg, core, st, time, Wrap16(highest));
            && detected.1.hiSeqAck == Wrap16(highest)
            && detected.1.lastLossIx == Wrap16(t.edge) + 1
            && detected.0.c.bytesInFlight == Bytes(detected.1.ring, true)
            && Tracks(detected.1.ring, t.num, t.next, highest, detected.1.timeTxAck, t.lastTime)
  {
    DetectExact(LedgerOf(core.c, st), t.num, t.next, t.edge, t.before, highest, st.lastLossIx, st.timeTxAck, t.lastTime);
  }

  lemma DigestExact(cfg: Config, t: Numbered, s: Sender, time: nat, highest: nat, ack: Word64, timestamp: u32)
    requires Exact(cfg, t.(s := s))
    requires t.edge <= highest < t.next && t.next - 1 - t.before <= SLOTS
    ensures var s' := Digest(cfg, s, time, 0, timestamp, Wrap16(highest), ack);
            && |s'.streams| == 1
            && s'.streams[0].hiSeqAck == Wrap16(highest)
            && s'.streams[0].lastLossIx == Wrap16(t.edge) + 1
            && s'.core.c.bytesInFlight == Bytes(s'.streams[0].ring, true)
            && Tracks(s'.streams[0].ring, t.num, t.next, highest, s'.streams[0].timeTxAck, t.lastTime)
  {
    MarkAckedExact(s.core, s.streams[0], t, time, highest, ack, timestamp);
    var marked := MarkAcked(s.core, s.streams[0], time, Wrap16(highest), ack, timestamp);
    DetectLossExact(cfg, marked.0, marked.1, t, time, highest);
  }

  lemma HearKeepsExact(cfg: Config, t: Numbered, e: Event)
    requires ConfigOk(cfg) && !cfg.openWindow && Exact(cfg, t) && e.Hear? && InOrder(t, e)
    ensures Exact(cfg, Step(cfg, t, e))
  {
    var Hear(time, highest, timestamp, ack, ecn, inp) := e;
    NotStale(t.s.streams[0], t.edge, highest);
    var s0 := t.s.(core := Initialized(t.s.core, time));
    InitializedKeeps(cfg, t.s.core, time);
    DigestKeeps(cfg, s0, time, 0, timestamp, Wrap16(highest), ack);
    DigestExact(cfg, t, s0, time, highest, ack, timestamp);
    var s1 := Digest(cfg, s0, time, 0, timestamp, Wrap16(highest), ack);
    ConcludeKeeps(cfg, s1, time, 0, ecn, inp);
    assert Step(cfg, t, e).s == Conclude(cfg, s1, time, 0, ecn, inp);
  }

  /** Every step keeps the bytes in flight exact. */
  lemma StepKeepsExact(cfg: Config, t: Numbered, e: Event)
    requires ConfigOk(cfg) && !cfg.openWindow && Exact(cfg, t) && InOrder(t, e)
    ensures Exact(cfg, Step(cfg, t, e))
  {
    match e {
      case Send(u, time, size) => SendKeepsExact(cfg, t, u, time, size);
      case Hear(_, _, _, _, _, _) => HearKeepsExact(cfg, t, e);
      case Frame(time, size) => MediaFrameKeepsWindow(cfg, t.s.core, time, size);
      case Poll(time, size) =>
        AskKeepsWindow(cfg, t.s, time, 0, size);
        BytesCleared(t.s.streams[0].ring, true);
        ClearedTracks(t.s.streams[0].ring, t.num, t.next, t.edge, t.s.streams[0].timeTxAck, t.lastTime);
      case Restart =>
      case Touch(time) => InitializedKeeps(cfg, t.s.core, time);
    }
  }

  ghost predicate Leads(cfg: Config, t: Numbered, es: seq<Event>, u: Numbered)
    requires ConfigOk(cfg) && !cfg.openWindow && Exact(cfg, t)
    decreases |es|
  {
    if es == [] then t == u
    else InOrder(t, es[0]) && (StepKeepsExact(cfg, t, es[0]); Leads(cfg, Step(cfg, t, es[0]), es[1..], u))
  }

  lemma {:induction false} RunKeepsExact(cfg: Config, t: Numbered, es: seq<Event>, u: Numbered)
    requires ConfigOk(cfg) && !cfg.openWindow && Exact(cfg, t) && Leads(cfg, t, es, u)
    ensures Exact(cfg, u)
    decreases |es|
  {
    if es != [] {
      StepKeepsExact(cfg, t, es[0]);
      RunKeepsExact(cfg, Step(cfg, t, es[0]), es[1..], u);
    }
  }

  lemma InitialIsExact(cfg: Config, s: Sender, num: seq<int>, start: nat)
    requires ConfigOk(cfg) && Initial(cfg, s) && |s.streams| == 1 && |num| == SLOTS
    ensures Exact(cfg, Numbered(s, num, start, 0, 0, 0))
  {
    BytesOfUnused(s.streams[0].ring, true);
  }

  /** Skipping numbers is admitted, and feedback after it: any number up to 2048 beyond the feedback before
      last may be sent next, and acknowledged. */
  lemma SkipsAreInOrder(cfg: Config, t: Numbered, u: nat, time: nat, size: nat, later: nat, timestamp: u32,
                        ack: Word64, ecn: u16, inp: Inputs)
    requires ConfigOk(cfg) && !cfg.openWindow && Exact(cfg, t) && InputsOk(inp)
    requires t.next <= u <= t.before + SLOTS && t.lastTime <= time
    ensures InOrder(t, Send(u, time, size))
    ensures var t' := Step(cfg, t, Send(u, time, size));
            Exact(cfg, t') && InOrder(t', Hear(later, u, timestamp, ack, ecn, inp))
  {
    SendKeepsExact(cfg, t, u, time, size);
  }

  /** From the initial state, whatever the first number is, however many packets are sent, whatever numbers
      are skipped and however often the 16-bit number wraps, the bytes in flight stay exact: the packets in
      use that are not past the edge. */
  lemma InFlightIsExact(cfg: Config, s: Sender, num: seq<int>, start: nat, es: seq<Event>, u: Numbered)
    requires ConfigOk(cfg) && !cfg.openWindow && Initial(cfg, s) && |s.streams| == 1 && |num| == SLOTS
    requires (InitialIsExact(cfg, s, num, start); Leads(cfg, Numbered(s, num, start, 0, 0, 0), es, u))
    ensures |u.s.streams| == 1 && u.s.core.c.bytesInFlight == Bytes(u.s.streams[0].ring, true)
  {
    InitialIsExact(cfg, s, num, start);
    RunKeepsExact(cfg, Numbered(s, num, start, 0, 0, 0), es, u);
  }
}
