/** Sender and receiver of any number of sources, joined by a network that loses, duplicates and reorders
    packets and feedback: the sender marks a packet as acknowledged only if the receiver got it, or
    if it is the predecessor of the first packet the receiver got of that source. */
module EndToEnd {
  import opened Arithmetic
  import opened Words
  import opened Sweep
  import opened TxRing
  import opened BaseDelay
  import opened CongestionWindow
  import opened SenderModel
  import opened SenderRuns
  import opened Receiver
  import FP = FeedbackPacket

  /** A feedback packet under way, with the source it is about, that source's unwrapped highest number and
      the packets the receiver had when it built the feedback. */
  datatype Flying = Flying(bytes: seq<FP.byte>, k: nat, top: int, seen: set<int>)

  /** One source. At the sender `num` holds the unwrapped numbers of the packets in the slots of its stream,
      `next` is the first number not used yet; `marked` is what the sender marked. At the receiver `got` is what arrived, `first` at first
      and `top` the largest. */
  datatype Source = Source(
    ssrc: u32, num: seq<int>, next: nat, sent: set<int>,
    rx: Reception, got: set<int>, first: int, top: int, marked: set<int>)

  /** A sender with any number of streams, and the receiver of their sources. */
  datatype World = World(s: Sender, src: seq<Source>, flying: set<Flying>)

  datatype Event =
    /** Packet u of stream k is sent; numbers may be skipped when the queue was cleared. */
    | Send(k: nat, u: nat, time: nat, bytes: nat)
    /** A packet that was sent arrives, for the first time or again. */
    | Arrival(ssrc: u32, u: nat)
    /** The receiver builds a feedback packet about one of the sources. */
    | Report(k: nat, session: u32, f: FP.Feedback)
    /** A feedback packet that was built arrives, for the first time or again. */
    | Deliver(p: Flying, time: nat, inp: Inputs)
    | Poll(k: nat, time: nat, size: int)
    | Rates(k: nat)
    /** A stream is registered for a new source. */
    | Join(ssrc: u32, num: seq<int>, st: StreamState)
    /** A call that finds no stream: it only initializes. */
    | Touch(time: nat)
    | Frame(time: nat, sizeOfNextRtp: int)

  /** The first source with this number, as both endpoints look it up; |src| when there is none. */
  function Find(src: seq<Source>, ssrc: u32): (k: nat)
    ensures k <= |src|
    ensures forall i :: 0 <= i < k ==> src[i].ssrc != ssrc
    ensures k < |src| ==> src[k].ssrc == ssrc
  {
    if src == [] || src[0].ssrc == ssrc then 0
    else
      assert forall i :: 0 < i < |src| ==> src[i] == src[1..][i - 1];
      1 + Find(src[1..], ssrc)
  }

  /** With feedback of this age, everything that it reports is less than 65536 numbers old. */
  const FEEDBACK_AGE := 65472

  /** Every slot in use holds a packet that was sent, the last one of those that belong there. */
  ghost predicate Latest(ring: Ring, num: seq<int>, sent: set<int>) {
    && |num| == SLOTS
    && (forall n :: 0 <= n < SLOTS && ring[n].isUsed ==>
          && num[n] in sent && num[n] >= 0
          && SlotOf(num[n]) == n
          && ring[n].seqNr == Wrap16(num[n]))
    && (forall n, u :: 0 <= n < SLOTS && ring[n].isUsed && u in sent && u >= 0 && SlotOf(u) == n ==> u <= num[n])
  }

  /** Each stream of the sender has a source. */
  ghost predicate Shape(w: World) {
    |w.s.streams| == |w.src| && forall k :: 0 <= k < |w.src| ==> |w.src[k].num| == SLOTS
  }

  /** What the network and the program may do next. Arrivals are within 16384 of the receiver's highest
      number of their source, feedback is less than 65472 packets of its source old. */
  ghost predicate Possible(w: World, e: Event)
    requires Shape(w)
  {
    match e
    case Send(k, u, time, bytes) =>
      k < |w.src| && w.src[k].next <= u
    case Arrival(ssrc, u) =>
      var k := Find(w.src, ssrc);
      && k < |w.src| && u in w.src[k].sent
      && (w.src[k].rx.started ==> -REORDER_REACH <= u - w.src[k].top <= REORDER_REACH)
    case Report(k, session, f) =>
      && k < |w.src| && w.src[k].rx.started
      && f.ssrc == w.src[k].ssrc && f.highest == w.src[k].rx.highest && f.ack == w.src[k].rx.ack
    case Deliver(p, _, inp) =>
      p in w.flying && p.k < |w.src| && w.src[p.k].next - 1 - p.top < FEEDBACK_AGE && InputsOk(inp)
    case Poll(k, _, _) => k < |w.src|
    case Rates(k) => k < |w.src|
    case Join(ssrc, num, st) => Find(w.src, ssrc) == |w.src| && |num| == SLOTS && InitialStream(st)
    case Touch(_) => true
    case Frame(_, _) => true
  }

  /** The numbers that a feedback marks as acknowledged. */
  ghost function Marks(st: StreamState, num: seq<int>, highest: u16, ack: Word64): set<int>
    requires |num| == SLOTS
  {
    var first := st.hiSeqAck + 1;
    set n | 0 <= n < SLOTS && Visited(first, SweepEnd(first, highest), n) && st.ring[n].isUsed
            && Reports(highest, ack, st.ring[n].seqNr) :: num[n]
  }

  /** The source after packet u was sent. */
  function AfterSend(x: Source, u: nat): Source
    requires |x.num| == SLOTS
  {
    x.(num := x.num[SlotOf(u) := u], next := u + 1, sent := x.sent + {u})
  }

  /** The source after packet u arrived. */
  function AfterArrival(x: Source, u: int): Source {
    x.(rx := Arrive(x.rx, Wrap16(u)), got := x.got + {u},
       first := if x.rx.started then x.first else u, top := if x.rx.started then MaxInt(x.top, u) else u)
  }

  ghost function Step(cfg: Config, w: World, e: Event): World
    requires ConfigOk(cfg) && CoreOk(cfg, w.s.core) && Shape(w) && Possible(w, e)
  {
    match e
    case Send(k, u, time, bytes) =>
      w.(s := AddTransmitted(cfg, w.s, time, k, bytes, Wrap16(u)), src := w.src[k := AfterSend(w.src[k], u)])
    case Arrival(ssrc, u) =>
      var k := Find(w.src, ssrc);
      w.(src := w.src[k := AfterArrival(w.src[k], u)])
    case Report(k, session, f) =>
      w.(flying := w.flying + {Flying(FP.Encode(session, f), k, w.src[k].top, w.src[k].got)})
    case Deliver(p, time, inp) =>
      (match FP.Decode(p.bytes)
       case None => w
       case Some(f) => Delivered(cfg, w, f, time, inp))
    case Poll(k, time, size) => w.(s := IsOkToTransmit(cfg, w.s, time, k, size).0)
    case Rates(k) => w.(s := w.s.(streams := w.s.streams[k := RateUpdate(w.s.streams[k])]))
    case Join(ssrc, num, st) =>
      w.(s := w.s.(streams := w.s.streams + [st]), src := w.src + [NewSource(ssrc, num)])
    case Touch(time) => w.(s := w.s.(core := Initialized(w.s.core, time)))
    case Frame(time, size) => w.(s := w.s.(core := NewMediaFrame(cfg, w.s.core, time, size)))
  }

  function NewSource(ssrc: u32, num: seq<int>): Source {
    Source(ssrc, num, 0, {}, NOTHING_RECEIVED, {}, 0, 0, {})
  }

  /** A decoded feedback goes to the stream of the source it names. */
  ghost function Delivered(cfg: Config, w: World, f: FP.Feedback, time: nat, inp: Inputs): World
    requires ConfigOk(cfg) && CoreOk(cfg, w.s.core) && Shape(w) && InputsOk(inp)
  {
    var k := Find(w.src, f.ssrc);
    if k == |w.src| then w.(s := w.s.(core := Initialized(w.s.core, time)))
    else
      w.(s := IncomingFeedback(cfg, w.s, time, k, f.timestamp, f.highest, f.ack, f.ecnCeBytes, inp),
         src := w.src[k := MarkedBy(w.s.streams[k], w.src[k], f)])
  }

  /** What the feedback marks of the source; stale feedback marks nothing. */
  ghost function MarkedBy(st: StreamState, x: Source, f: FP.Feedback): Source
    requires |x.num| == SLOTS
  {
    if Stale(st, f.highest) then x else x.(marked := x.marked + Marks(st, x.num, f.highest, f.ack))
  }

  // ---- the invariant ----

  /** A feedback under way tells the truth about what the receiver had of a source. */
  ghost predicate Truthful(p: Flying, x: Source) {
    && FP.Decode(p.bytes).Some?
    && var f := FP.Decode(p.bytes).value;
       && f.ssrc == x.ssrc
       && f.highest == Wrap16(p.top)
       && p.top in p.seen && p.seen <= x.got
       && (forall k :: 0 <= k < 64 && f.ack[k] ==> Named(p.seen, x.first, p.top - 1 - k))
       && (forall k :: 0 <= k < 63 && Named(p.seen, x.first, p.top - 1 - k) ==> f.ack[k])
  }

  /** What holds of a source and its stream. Between feedbacks no slot in use is marked. */
  ghost predicate SourceOk(st: StreamState, x: Source) {
    && Latest(st.ring, x.num, x.sent)
    && (forall n :: 0 <= n < SLOTS && st.ring[n].isUsed ==> !st.ring[n].isAcked)
    && (forall u :: u in x.sent ==> 0 <= u < x.next)
    && x.got <= x.sent
    && (!x.rx.started ==> x.rx == NOTHING_RECEIVED && x.marked == {} && x.got == {})
    && (x.rx.started ==> Compresses(x.rx, x.got, x.first, x.top))
    && (forall u :: u in x.marked ==> u in x.sent && Meant(x, u))
  }

  /** The receiver got u, or u shares its 16 bits with the predecessor of the first packet it got. */
  predicate Meant(x: Source, u: int) {
    u in x.got || Wrap16(u) == Wrap16(x.first - 1)
  }

  ghost predicate Distinct(src: seq<Source>) {
    forall i, j :: 0 <= i < j < |src| ==> src[i].ssrc != src[j].ssrc
  }

  ghost predicate Sound(cfg: Config, w: World) {
    && CoreOk(cfg, w.s.core)
    && Shape(w) && Distinct(w.src)
    && (forall k :: 0 <= k < |w.src| ==> SourceOk(w.s.streams[k], w.src[k]))
    && (forall p :: p in w.flying ==> p.k < |w.src| && Truthful(p, w.src[p.k]))
  }

  lemma FindSource(src: seq<Source>, k: nat)
    requires Distinct(src) && k < |src|
    ensures Find(src, src[k].ssrc) == k
  {
  }

  /** Near the highest number, a 16-bit number is reported exactly when the unwrapped one is. */
  lemma ReportsNear(u: int, top: int, ack: Word64)
    requires -60000 <= u - top <= 60000
    ensures Reports(Wrap16(top), ack, Wrap16(u)) <==> u == top || (top - 64 <= u < top && ack[top - 1 - u])
  {
  }

  /** A reported 16-bit number belongs to an unwrapped number that the feedback reports. */
  lemma ReportedNumber(seqNr: u16, top: int, ack: Word64) returns (v: int)
    requires Reports(Wrap16(top), ack, seqNr)
    ensures Wrap16(v) == seqNr && (v == top || (top - 64 <= v < top && ack[top - 1 - v]))
  {
    if seqNr == Wrap16(top) {
      v := top;
    } else {
      v := top - 1 - Wrap16(Wrap16(top) - seqNr - 1);
      Unwrap(seqNr, top);
    }
  }

  lemma Unwrap(seqNr: u16, top: int)
    ensures Wrap16(top - 1 - Wrap16(Wrap16(top) - seqNr - 1)) == seqNr
  {
  }

  /** No packet in use of this stream is 65536 numbers old or older. */
  ghost predicate AllYoung(ring: Ring, x: Source)
    requires |x.num| == SLOTS
  {
    forall n :: 0 <= n < SLOTS && ring[n].isUsed ==> x.next - 1 - x.num[n] < 65536
  }

  /** What a truthful feedback marks, the receiver got; or it shares 16 bits with the first predecessor,
      and is that predecessor unless packets are in use that are 65536 numbers old. */
  lemma MarksAreTrue(st: StreamState, x: Source, p: Flying)
    requires SourceOk(st, x) && Truthful(p, x) && x.next - 1 - p.top < FEEDBACK_AGE
    ensures var f := FP.Decode(p.bytes).value;
            && (forall u :: u in Marks(st, x.num, f.highest, f.ack) ==> u in x.sent && Meant(x, u))
            && (AllYoung(st.ring, x) ==>
                  forall u :: u in Marks(st, x.num, f.highest, f.ack) ==> Named(x.got, x.first, u))
  {
    var f := FP.Decode(p.bytes).value;
    forall u | u in Marks(st, x.num, f.highest, f.ack)
      ensures u in x.sent && Meant(x, u)
      ensures AllYoung(st.ring, x) ==> Named(x.got, x.first, u)
    {
      var n :| 0 <= n < SLOTS && st.ring[n].isUsed && Reports(f.highest, f.ack, st.ring[n].seqNr) && x.num[n] == u;
      MarkIsTrue(st.ring, x, p, n);
    }
  }

  lemma MarkIsTrue(ring: Ring, x: Source, p: Flying, n: nat)
    requires Latest(ring, x.num, x.sent) && Truthful(p, x) && x.next - 1 - p.top < FEEDBACK_AGE
    requires x.got <= x.sent && forall u :: u in x.sent ==> 0 <= u < x.next
    requires n < SLOTS && ring[n].isUsed
    requires Reports(FP.Decode(p.bytes).value.highest, FP.Decode(p.bytes).value.ack, ring[n].seqNr)
    ensures Meant(x, x.num[n])
    ensures x.next - 1 - x.num[n] < 65536 ==> Named(x.got, x.first, x.num[n])
  {
    var f, u := FP.Decode(p.bytes).value, x.num[n];
    var v := ReportedNumber(ring[n].seqNr, p.top, f.ack);
    if v != p.top {
      assert Named(p.seen, x.first, p.top - 1 - (p.top - 1 - v));
    }
    if v in x.got {
      SlotOfCongruent(u, v);
      NearNumbersDiffer(u, v);
    } else if x.next - 1 - u < 65536 {
      NearNumbersDiffer(u, v);
    }
  }

  lemma SlotOfCongruent(u: nat, v: nat)
    requires Wrap16(u) == Wrap16(v)
    ensures SlotOf(u) == SlotOf(v)
  {
    SlotOfWrapped(u);
    SlotOfWrapped(v);
  }

  /** In every reachable state, what counts as marked is what markAcked does: a slot in use is marked by a
      feedback if and only if its number is among the marks. */
  lemma MarksAreAcks(cfg: Config, w: World, k: nat, time: nat, highest: u16, ack: Word64, timestamp: u32, n: nat)
    requires Sound(cfg, w) && k < |w.src| && n < SLOTS && w.s.streams[k].ring[n].isUsed
    ensures MarkAcked(w.s.core, w.s.streams[k], time, highest, ack, timestamp).1.ring[n].isAcked
            <==> w.src[k].num[n] in Marks(w.s.streams[k], w.src[k].num, highest, ack)
  {
    assert SourceOk(w.s.streams[k], w.src[k]);
  }

  /** So the flag itself is sound: when a feedback under way is delivered, markAcked marks a slot only if the
      receiver got its packet, or if that shares 16 bits with the predecessor of the first one it got. */
  lemma FlagsAreSound(cfg: Config, w: World, p: Flying, time: nat, inp: Inputs, n: nat)
    requires Sound(cfg, w) && Possible(w, Deliver(p, time, inp))
    requires n < SLOTS && w.s.streams[p.k].ring[n].isUsed
    ensures var f, x := FP.Decode(p.bytes).value, w.src[p.k];
            MarkAcked(w.s.core, w.s.streams[p.k], time, f.highest, f.ack, f.timestamp).1.ring[n].isAcked ==>
              Meant(x, x.num[n]) && (AllYoung(w.s.streams[p.k].ring, x) ==> Named(x.got, x.first, x.num[n]))
  {
    var f := FP.Decode(p.bytes).value;
    assert SourceOk(w.s.streams[p.k], w.src[p.k]);
    MarksAreAcks(cfg, w, p.k, time, f.highest, f.ack, f.timestamp, n);
    MarksAreTrue(w.s.streams[p.k], w.src[p.k], p);
  }

  /** Among the packets in use that the sweep looks at, at most 63 below the highest number, a feedback
      marks exactly those that the receiver had when it built the feedback. */
  lemma MarksAreExact(cfg: Config, w: World, p: Flying, n: nat)
    requires Sound(cfg, w) && p in w.flying && w.src[p.k].next - 1 - p.top < FEEDBACK_AGE
    requires n < SLOTS && w.s.streams[p.k].ring[n].isUsed
    requires p.top - 63 <= w.src[p.k].num[n] <= p.top
    requires var st, f := w.s.streams[p.k], FP.Decode(p.bytes).value;
             Visited(st.hiSeqAck + 1, SweepEnd(st.hiSeqAck + 1, f.highest), n)
    ensures var st, x, f := w.s.streams[p.k], w.src[p.k], FP.Decode(p.bytes).value;
            x.num[n] in Marks(st, x.num, f.highest, f.ack) <==> Named(p.seen, x.first, x.num[n])
  {
    assert SourceOk(w.s.streams[p.k], w.src[p.k]);
    SourceMarksAreExact(w.s.streams[p.k], w.src[p.k], p, n);
  }

  lemma SourceMarksAreExact(st: StreamState, x: Source, p: Flying, n: nat)
    requires SourceOk(st, x) && Truthful(p, x) && x.next - 1 - p.top < FEEDBACK_AGE
    requires n < SLOTS && st.ring[n].isUsed && p.top - 63 <= x.num[n] <= p.top
    requires Visited(st.hiSeqAck + 1, SweepEnd(st.hiSeqAck + 1, FP.Decode(p.bytes).value.highest), n)
    ensures var f := FP.Decode(p.bytes).value;
            x.num[n] in Marks(st, x.num, f.highest, f.ack) <==> Named(p.seen, x.first, x.num[n])
  {
    var f := FP.Decode(p.bytes).value;
    var u := x.num[n];
    ReportsNear(u, p.top, f.ack);
    if u < p.top {
      var k := p.top - 1 - u;
      assert Named(p.seen, x.first, p.top - 1 - k) <==> f.ack[k];
    }
    if u in Marks(st, x.num, f.highest, f.ack) {
      var i :| 0 <= i < SLOTS && st.ring[i].isUsed && Reports(f.highest, f.ack, st.ring[i].seqNr) && x.num[i] == u;
      assert i == SlotOf(u) == n;
    }
  }

  // ---- preservation ----

  /** A step of one stream and its source that keeps what holds of them. */
  lemma OneSourceChanged(cfg: Config, w: World, w': World, k: nat, st: StreamState, x: Source)
    requires Sound(cfg, w) && k < |w.src| && CoreOk(cfg, w'.s.core)
    requires w'.s.streams == w.s.streams[k := st] && w'.src == w.src[k := x] && w'.flying == w.flying
    requires SourceOk(st, x) && x.ssrc == w.src[k].ssrc
    requires w.src[k].got <= x.got && (w.src[k].rx.started ==> x.first == w.src[k].first)
    ensures Sound(cfg, w')
  {
    forall p | p in w'.flying ensures p.k < |w'.src| && Truthful(p, w'.src[p.k]) {
      if p.k == k {
        assert Truthful(p, w.src[k]) && p.top in w.src[k].got;
        assert SourceOk(w.s.streams[k], w.src[k]);
        assert Truthful(p, x);
      }
    }
  }

  lemma SendIsSound(cfg: Config, w: World, k: nat, u: nat, time: nat, bytes: nat)
    requires ConfigOk(cfg) && !cfg.openWindow && Sound(cfg, w) && Possible(w, Send(k, u, time, bytes))
    ensures Sound(cfg, Step(cfg, w, Send(k, u, time, bytes)))
  {
    TransmitKeepsWindow(cfg, w.s, time, k, bytes, Wrap16(u));
    assert SourceOk(w.s.streams[k], w.src[k]);
    SendKeepsSource(w.s.streams[k], w.src[k], u, time, bytes);
    OneSourceChanged(cfg, w, Step(cfg, w, Send(k, u, time, bytes)), k, Stored(w.s.streams[k], time, bytes, Wrap16(u)),
                     AfterSend(w.src[k], u));
  }

  /** The number sent last is the largest one, wherever it belongs. */
  lemma SendKeepsSource(st: StreamState, x: Source, u: nat, time: nat, bytes: nat)
    requires SourceOk(st, x) && x.next <= u
    ensures SourceOk(Stored(st, time, bytes, Wrap16(u)), AfterSend(x, u))
  {
    SlotOfWrapped(u);
  }

  lemma ArrivalIsSound(cfg: Config, w: World, ssrc: u32, u: nat)
    requires ConfigOk(cfg) && Sound(cfg, w) && Possible(w, Arrival(ssrc, u))
    ensures Sound(cfg, Step(cfg, w, Arrival(ssrc, u)))
  {
    var k := Find(w.src, ssrc);
    var st, x := w.s.streams[k], w.src[k];
    assert SourceOk(st, x);
    ArrivalKeepsSource(st, x, u);
    assert w.s.streams == w.s.streams[k := st];
    OneSourceChanged(cfg, w, Step(cfg, w, Arrival(ssrc, u)), k, st, AfterArrival(x, u));
  }

  lemma ArrivalKeepsSource(st: StreamState, x: Source, u: nat)
    requires SourceOk(st, x) && u in x.sent && (x.rx.started ==> -REORDER_REACH <= u - x.top <= REORDER_REACH)
    ensures SourceOk(st, AfterArrival(x, u))
  {
    if x.rx.started {
      ArrivalRefines(x.rx, x.got, x.first, x.top, u);
    } else {
      FirstArrival(u);
      assert x.got + {u} == {u};
    }
  }

  lemma ReportIsTruthful(x: Source, k: nat, session: u32, f: FP.Feedback)
    requires Compresses(x.rx, x.got, x.first, x.top)
    requires f.ssrc == x.ssrc && f.highest == x.rx.highest && f.ack == x.rx.ack
    ensures Truthful(Flying(FP.Encode(session, f), k, x.top, x.got), x)
  {
    FP.DecodeEncode(session, f);
    DecodedIsTruthful(x, Flying(FP.Encode(session, f), k, x.top, x.got), f);
  }

  lemma DecodedIsTruthful(x: Source, p: Flying, f: FP.Feedback)
    requires Compresses(x.rx, x.got, x.first, x.top) && p.seen == x.got && p.top == x.top
    requires f.ssrc == x.ssrc && f.highest == x.rx.highest && f.ack == x.rx.ack
    requires FP.Decode(p.bytes) == FP.Some(f)
    ensures Truthful(p, x)
  {
  }

  lemma ReportIsSound(cfg: Config, w: World, k: nat, session: u32, f: FP.Feedback)
    requires ConfigOk(cfg) && Sound(cfg, w) && Possible(w, Report(k, session, f))
    ensures Sound(cfg, Step(cfg, w, Report(k, session, f)))
  {
    assert SourceOk(w.s.streams[k], w.src[k]);
    ReportIsTruthful(w.src[k], k, session, f);
  }

  /** A feedback leaves the packets in their slots or takes them out of use, the marked ones among them. */
  lemma DetectKeepsLatest(l: Ledger, lastLossIx: int, first: nat, highest: u16, timeTxAck: nat,
                          num: seq<int>, sent: set<int>)
    requires Latest(l.ring, num, sent)
    requires forall n: nat :: n < SLOTS && l.ring[n].isUsed && l.ring[n].isAcked ==> Visited(first, SweepEnd(first, highest), n)
    ensures var ring := Detect(l, lastLossIx, first, highest, timeTxAck).ring;
            && Latest(ring, num, sent)
            && forall n: nat :: n < SLOTS && ring[n].isUsed ==> !ring[n].isAcked
  {
    var l1 := if lastLossIx >= 0 then Forget(l, lastLossIx, ForgetEnd(lastLossIx, first)) else l;
    var l' := Detect(l, lastLossIx, first, highest, timeTxAck);
    SweepIsShort(first, highest);
    forall n: nat | n < SLOTS
      ensures l'.ring[n].isUsed ==> l.ring[n].isUsed && l'.ring[n].seqNr == l.ring[n].seqNr && !l'.ring[n].isAcked
    {
      if lastLossIx >= 0 {
        ForgetAt(l, lastLossIx, ForgetEnd(lastLossIx, first), n);
      }
      SettleAllAt(l1, first, SweepEnd(first, highest) + 1, highest, timeTxAck, n);
    }
  }

  lemma DigestKeepsSource(cfg: Config, s: Sender, x: Source, k: nat, time: nat, timestamp: u32, highest: u16, ack: Word64)
    requires s.core.delay.ptr < BUCKETS && k < |s.streams| && SourceOk(s.streams[k], x)
    ensures SourceOk(Digest(cfg, s, time, k, timestamp, highest, ack).streams[k], x)
  {
    var marked := MarkAcked(s.core, s.streams[k], time, highest, ack, timestamp);
    MarkedVisited(s.streams[k], s.streams[k].hiSeqAck + 1, highest, ack);
    DetectKeepsLatest(LedgerOf(marked.0.c, marked.1), marked.1.lastLossIx, marked.1.hiSeqAck + 1, highest,
                      marked.1.timeTxAck, x.num, x.sent);
  }

  lemma MarkedVisited(st: StreamState, first: nat, highest: u16, ack: Word64)
    requires forall n :: 0 <= n < SLOTS && st.ring[n].isUsed ==> !st.ring[n].isAcked
    ensures var ring := Marked(st.ring, first, SweepEnd(first, highest), highest, ack);
            forall n: nat :: n < SLOTS && ring[n].isUsed && ring[n].isAcked ==> Visited(first, SweepEnd(first, highest), n)
  {
  }

  lemma FeedbackKeepsSource(cfg: Config, s: Sender, x: Source, k: nat, f: FP.Feedback, time: nat, inp: Inputs)
    requires ConfigOk(cfg) && !cfg.openWindow && InputsOk(inp) && CoreOk(cfg, s.core)
    requires k < |s.streams| && SourceOk(s.streams[k], x)
    ensures var s' := IncomingFeedback(cfg, s, time, k, f.timestamp, f.highest, f.ack, f.ecnCeBytes, inp);
            && CoreOk(cfg, s'.core)
            && |s'.streams| == |s.streams|
            && s'.streams == s.streams[k := s'.streams[k]]
            && SourceOk(s'.streams[k], x)
  {
    FeedbackKeepsWindow(cfg, s, time, k, f.timestamp, f.highest, f.ack, f.ecnCeBytes, inp);
    if !Stale(s.streams[k], f.highest) {
      var s0 := s.(core := Initialized(s.core, time));
      DigestKeepsSource(cfg, s0, x, k, time, f.timestamp, f.highest, f.ack);
      DigestKeeps(cfg, s0, time, k, f.timestamp, f.highest, f.ack);
      ConcludeKeeps(cfg, Digest(cfg, s0, time, k, f.timestamp, f.highest, f.ack), time, k, f.ecnCeBytes, inp);
    }
  }

  /** The marks of a feedback are what holds of the marks so far, for any state the stream is in by then. */
  lemma MarksKeepSource(st: StreamState, st': StreamState, x: Source, p: Flying)
    requires SourceOk(st, x) && SourceOk(st', x) && Truthful(p, x) && x.next - 1 - p.top < FEEDBACK_AGE
    ensures SourceOk(st', MarkedBy(st, x, FP.Decode(p.bytes).value))
  {
    var x' := MarkedBy(st, x, FP.Decode(p.bytes).value);
    MarksAreTrue(st, x, p);
    assert p.top in x.got;
    forall u | u in x'.marked ensures u in x'.sent && Meant(x', u) {
      assert u in x.sent && Meant(x, u);
    }
  }

  lemma DeliverIsSound(cfg: Config, w: World, p: Flying, time: nat, inp: Inputs)
    requires ConfigOk(cfg) && !cfg.openWindow && Sound(cfg, w) && Possible(w, Deliver(p, time, inp))
    ensures Sound(cfg, Step(cfg, w, Deliver(p, time, inp)))
  {
    var f, k := FP.Decode(p.bytes).value, p.k;
    var st, x := w.s.streams[k], w.src[k];
    assert Truthful(p, x) && SourceOk(st, x);
    FindSource(w.src, k);
    FeedbackKeepsSource(cfg, w.s, x, k, f, time, inp);
    var w' := Delivered(cfg, w, f, time, inp);
    MarksKeepSource(st, w'.s.streams[k], x, p);
    OneSourceChanged(cfg, w, w', k, w'.s.streams[k], MarkedBy(st, x, f));
  }

  lemma PollIsSound(cfg: Config, w: World, k: nat, time: nat, size: int)
    requires ConfigOk(cfg) && !cfg.openWindow && Sound(cfg, w) && k < |w.src|
    ensures Sound(cfg, Step(cfg, w, Poll(k, time, size)))
  {
    AskKeepsWindow(cfg, w.s, time, k, size);
    var st := w.s.streams[k];
    var w' := Step(cfg, w, Poll(k, time, size));
    assert SourceOk(st, w.src[k]) && SourceOk(st.(ring := Cleared(st.ring)), w.src[k]);
    assert w.s.streams == w.s.streams[k := st] && w.src == w.src[k := w.src[k]];
    OneSourceChanged(cfg, w, w', k, w'.s.streams[k], w.src[k]);
  }

  lemma RatesIsSound(cfg: Config, w: World, k: nat)
    requires ConfigOk(cfg) && Sound(cfg, w) && k < |w.src|
    ensures Sound(cfg, Step(cfg, w, Event.Rates(k)))
  {
    assert SourceOk(w.s.streams[k], w.src[k]);
    assert w.src == w.src[k := w.src[k]];
    OneSourceChanged(cfg, w, Step(cfg, w, Event.Rates(k)), k, RateUpdate(w.s.streams[k]), w.src[k]);
  }

  lemma JoinIsSound(cfg: Config, w: World, ssrc: u32, num: seq<int>, st: StreamState)
    requires ConfigOk(cfg) && Sound(cfg, w) && Possible(w, Event.Join(ssrc, num, st))
    ensures Sound(cfg, Step(cfg, w, Event.Join(ssrc, num, st)))
  {
    assert SourceOk(st, NewSource(ssrc, num));
    var w' := Step(cfg, w, Event.Join(ssrc, num, st));
    forall k | 0 <= k < |w'.src| ensures SourceOk(w'.s.streams[k], w'.src[k]) {
      if k < |w.src| {
        assert SourceOk(w.s.streams[k], w.src[k]);
      }
    }
  }

  lemma StepIsSound(cfg: Config, w: World, e: Event)
    requires ConfigOk(cfg) && !cfg.openWindow && Sound(cfg, w) && Possible(w, e)
    ensures Sound(cfg, Step(cfg, w, e))
  {
    match e {
      case Send(k, u, time, bytes) => SendIsSound(cfg, w, k, u, time, bytes);
      case Arrival(ssrc, u) => ArrivalIsSound(cfg, w, ssrc, u);
      case Report(k, session, f) => ReportIsSound(cfg, w, k, session, f);
      case Deliver(p, time, inp) => DeliverIsSound(cfg, w, p, time, inp);
      case Poll(k, time, size) => PollIsSound(cfg, w, k, time, size);
      case Rates(k) => RatesIsSound(cfg, w, k);
      case Join(ssrc, num, st) => JoinIsSound(cfg, w, ssrc, num, st);
      case Touch(time) => InitializedKeeps(cfg, w.s.core, time);
      case Frame(time, size) => MediaFrameKeepsWindow(cfg, w.s.core, time, size);
    }
  }

  // ---- runs ----

  ghost predicate Leads(cfg: Config, w: World, es: seq<Event>, w': World)
    requires ConfigOk(cfg) && !cfg.openWindow && Sound(cfg, w)
    decreases |es|
  {
    if es == [] then w == w'
    else Possible(w, es[0]) && (StepIsSound(cfg, w, es[0]); Leads(cfg, Step(cfg, w, es[0]), es[1..], w'))
  }

  lemma {:induction false} RunIsSound(cfg: Config, w: World, es: seq<Event>, w': World)
    requires ConfigOk(cfg) && !cfg.openWindow && Sound(cfg, w) && Leads(cfg, w, es, w')
    ensures Sound(cfg, w')
    decreases |es|
  {
    if es != [] {
      StepIsSound(cfg, w, es[0]);
      RunIsSound(cfg, Step(cfg, w, es[0]), es[1..], w');
    }
  }

  /** Every marked packet was received, or is the predecessor of the first one received of its source. */
  ghost predicate Exact(w: World) {
    forall k, u :: 0 <= k < |w.src| && u in w.src[k].marked ==> Named(w.src[k].got, w.src[k].first, u)
  }

  /** When feedback is delivered, its stream has no packet in use that is 65536 numbers old. */
  ghost predicate Young(w: World, e: Event)
    requires Shape(w) && Possible(w, e)
  {
    e.Deliver? ==> AllYoung(w.s.streams[e.p.k].ring, w.src[e.p.k])
  }

  lemma DeliverIsExact(cfg: Config, w: World, p: Flying, time: nat, inp: Inputs)
    requires ConfigOk(cfg) && !cfg.openWindow && Sound(cfg, w) && Exact(w) && Possible(w, Deliver(p, time, inp))
    requires AllYoung(w.s.streams[p.k].ring, w.src[p.k])
    ensures Exact(Step(cfg, w, Deliver(p, time, inp)))
  {
    FindSource(w.src, p.k);
    assert SourceOk(w.s.streams[p.k], w.src[p.k]);
    MarksAreTrue(w.s.streams[p.k], w.src[p.k], p);
  }

  lemma StepIsExact(cfg: Config, w: World, e: Event)
    requires ConfigOk(cfg) && !cfg.openWindow && Sound(cfg, w) && Exact(w) && Possible(w, e) && Young(w, e)
    ensures Exact(Step(cfg, w, e))
  {
    match e {
      case Deliver(p, time, inp) => DeliverIsExact(cfg, w, p, time, inp);
      case Arrival(ssrc, u) =>
        assert SourceOk(w.s.streams[Find(w.src, ssrc)], w.src[Find(w.src, ssrc)]);
      case _ =>
    }
  }

  ghost predicate AlwaysYoung(cfg: Config, w: World, es: seq<Event>)
    requires ConfigOk(cfg) && !cfg.openWindow && Sound(cfg, w)
    decreases |es|
  {
    es != [] && Possible(w, es[0]) ==>
      Young(w, es[0]) && (StepIsSound(cfg, w, es[0]); AlwaysYoung(cfg, Step(cfg, w, es[0]), es[1..]))
  }

  lemma {:induction false} RunIsExact(cfg: Config, w: World, es: seq<Event>, w': World)
    requires ConfigOk(cfg) && !cfg.openWindow && Sound(cfg, w) && Exact(w) && Leads(cfg, w, es, w')
    requires AlwaysYoung(cfg, w, es)
    ensures Exact(w')
    decreases |es|
  {
    if es != [] {
      StepIsSound(cfg, w, es[0]);
      StepIsExact(cfg, w, es[0]);
      RunIsExact(cfg, Step(cfg, w, es[0]), es[1..], w');
    }
  }

  /** Nothing sent and nothing received yet. */
  ghost predicate Start(cfg: Config, w: World) {
    && Initial(cfg, w.s) && Shape(w) && Distinct(w.src) && w.flying == {}
    && forall k :: 0 <= k < |w.src| ==> w.src[k] == NewSource(w.src[k].ssrc, w.src[k].num)
  }

  lemma StartIsSound(cfg: Config, w: World)
    requires ConfigOk(cfg) && Start(cfg, w)
    ensures Sound(cfg, w)
  {
    forall k | 0 <= k < |w.src| ensures SourceOk(w.s.streams[k], w.src[k]) {
      assert InitialStream(w.s.streams[k]);
    }
  }

  /** End-to-end soundness of acknowledgements: over every run, with any number of streams and feedback routed
      by the source it names, whatever was lost, duplicated or reordered and whatever numbers were skipped,
      each packet that the sender marked was sent and received, or shares its 16 bits with the predecessor of
      the first packet received of its source. It is that predecessor when no packet in use was 65536 numbers
      old at a delivery. */
  lemma AcksAreSound(cfg: Config, w0: World, es: seq<Event>, w: World)
    requires ConfigOk(cfg) && !cfg.openWindow && Start(cfg, w0)
    requires (StartIsSound(cfg, w0); Leads(cfg, w0, es, w))
    ensures forall k, u :: 0 <= k < |w.src| && u in w.src[k].marked ==>
              u in w.src[k].sent && (u in w.src[k].got || Wrap16(u) == Wrap16(w.src[k].first - 1))
    ensures (StartIsSound(cfg, w0); AlwaysYoung(cfg, w0, es)) ==>
              forall k, u :: 0 <= k < |w.src| && u in w.src[k].marked ==>
                u in w.src[k].sent && (u in w.src[k].got || u == w.src[k].first - 1)
  {
    StartIsSound(cfg, w0);
    RunIsSound(cfg, w0, es, w);
    assert forall k :: 0 <= k < |w.src| ==> SourceOk(w.s.streams[k], w.src[k]);
    if AlwaysYoung(cfg, w0, es) {
      RunIsExact(cfg, w0, es, w);
    }
  }

  /** The exception is real: the feedback after the first arrival reports its predecessor, which was
      not received. The comment in the source promises an empty ACK vector there. */
  lemma PredecessorIsReported(u: int)
    ensures var s := Arrive(NOTHING_RECEIVED, Wrap16(u));
            Compresses(s, {u}, u, u) && Reports(s.highest, s.ack, Wrap16(u - 1)) && u - 1 !in {u}
  {
    FirstArrival(u);
    assert Named({u}, u, u - 1 - 0);
    ReportsNear(u - 1, u, Arrive(NOTHING_RECEIVED, Wrap16(u)).ack);
  }

  /** Why packets in use that are 65536 numbers old matter: 4 and 65541 are sent, the others in between
      skipped, and only 65541 arrives. Its feedback reports 65540, which marks packet 4. */
  lemma OldPacketIsMarked(cfg: Config, s: Sender, num: seq<int>, time: nat, size: nat)
    requires Initial(cfg, s) && |s.streams| == 1 && |num| == SLOTS
    ensures var s1 := AddTransmitted(cfg, s, time, 0, size, 4);
            var s2 := AddTransmitted(cfg, s1, time, 0, size, Wrap16(65541));
            var rx := Arrive(NOTHING_RECEIVED, Wrap16(65541));
            && Compresses(rx, {65541}, 65541, 65541)
            && 4 in Marks(s2.streams[0], num[4 := 4][5 := 65541], rx.highest, rx.ack)
            && !Named({65541}, 65541, 4)
  {
    FirstArrival(65541);
    var rx := Arrive(NOTHING_RECEIVED, Wrap16(65541));
    assert Named({65541}, 65541, 65541 - 1 - 0);
    ReportsNear(65540, 65541, rx.ack);
    assert Wrap16(65540) == 4 && Wrap16(65541) == 5 && SlotOf(4) == 4 && SlotOf(5) == 5;
    assert InitialStream(s.streams[0]);
    var st := Stored(Stored(s.streams[0], time, size, 4), time, size, 5);
    assert st.ring[4] == Fresh(4, time, size);
    assert Visited(1, SweepEnd(1, 5), 4);
    assert num[4 := 4][5 := 65541][4] == 4;
  }

  // ---- the comparison with 64 in markAcked ----

  /** markAcked also shifts by 64, which C++ leaves undefined. Processors that use the shift count
      modulo 64 then look at bit 0. */
  predicate ReportsMasked(highest: u16, ack: Word64, seqNr: u16) {
    seqNr == highest || (var diff := Wrap16(highest - seqNr - 1); diff <= 64 && ack[diff % 64])
  }

  /** That reading reports exactly one packet more: the one 65 below the highest number, when the one
      just below it was received. */
  lemma MaskedShiftReports(u: int, top: int, ack: Word64)
    requires -60000 <= u - top <= 60000
    ensures ReportsMasked(Wrap16(top), ack, Wrap16(u))
            <==> Reports(Wrap16(top), ack, Wrap16(u)) || (u == top - 65 && ack[0])
  {
    ReportsNear(u, top, ack);
  }

  /** So it is unsound: after the single arrival of packet 70, packet 5 is reported. */
  lemma MaskedShiftIsUnsound()
    ensures var s := Arrive(NOTHING_RECEIVED, Wrap16(70));
            Compresses(s, {70}, 70, 70) && ReportsMasked(s.highest, s.ack, Wrap16(5)) && !Named({70}, 70, 5)
  {
    FirstArrival(70);
    MaskedExample(Arrive(NOTHING_RECEIVED, Wrap16(70)));
  }

  lemma MaskedExample(s: Reception)
    requires Compresses(s, {70}, 70, 70)
    ensures ReportsMasked(s.highest, s.ack, Wrap16(5))
  {
    assert Named({70}, 70, 70 - 1 - 0);
    MaskedShiftReports(5, 70, s.ack);
  }
}
