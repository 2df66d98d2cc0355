/** The sender as a state machine: one function for each public operation of ScreamTx that takes
    part in congestion control, for any number of streams. */
module SenderModel {
  import opened Arithmetic
  import opened Words
  import opened Sweep
  import opened TxRing
  import opened BaseDelay
  import opened DelayTrend
  import opened CongestionWindow

  /** What ScreamTx::Stream keeps for congestion control. The byte counters are cleared at every
      rate update; the ...Before members add up what they held until then. */
  datatype StreamState = StreamState(
    ring: Ring, hiSeqAck: u16, hiSeqTx: u16, lastLossIx: int, timeTxAck: nat,
    ecnCeMarkedBytes: u16, repairLoss: bool,
    bytesTransmitted: int, bytesAcked: int, bytesLost: int,
    transmittedBefore: int, ackedBefore: int, lostBefore: int)
  {
    function Transmitted(): int { transmittedBefore + bytesTransmitted }
    function Acked(): int { ackedBefore + bytesAcked }
    function Lost(): int { lostBefore + bytesLost }
  }

  datatype Sender = Sender(core: Core, streams: seq<StreamState>)

  /** ScreamTx::initialize, done by the first call of most operations. */
  function Initialized(core: Core, time: nat): Core {
    if core.c.isInitialized then core
    else
      core.(c := core.c.(isInitialized := true, lastSRttUpdate := time, baseOwdReset := time,
                         lastFractionAdd := time, lastLossEvent := time, lastTransmit := time,
                         nextTransmit := time, lastRtt := time, initTime := time),
            delay := core.delay.(lastAdd := time, lastRefresh := time + 1_000_000))
  }

  /** The window follows the segment size. */
  function Fit(cfg: Config, c: Control, mss: int, factor: int): Control {
    var cwndMin := if cfg.openWindow then c.cwndMin else factor * mss;
    c.(mss := mss, cwndMin := cwndMin, cwnd := MaxInt(c.cwnd, cwndMin))
  }

  /** ScreamTx::newMediaFrame, with the size of the next packet in the stream's queue. */
  function NewMediaFrame(cfg: Config, core: Core, time: nat, sizeOfNextRtp: int): Core {
    var core := Initialized(core, time);
    if Sub64(time, core.delay.lastRefresh) < core.c.sRtt * 2 then core
    else core.(c := Fit(cfg, core.c, MaxInt(core.c.mss, sizeOfNextRtp), 2))
  }

  /** The segment size is reset once a second. */
  function SecondPassed(cfg: Config, c: Control, time: nat): Control {
    if Sub64(time, c.lastBytesInFlight) > 1_000_000
    then Fit(cfg, c.(lastBytesInFlight := time), INIT_MSS, 3)
    else c
  }

  predicate WindowFull(c: Control, size: int) {
    if c.queueDelay < c.queueDelayTarget
    then c.bytesInFlight + size > c.cwnd + c.mss
    else c.bytesInFlight + size > c.cwnd
  }

  predicate TimedOut(c: Control, time: nat) {
    Sub64(time, c.lastTransmit) > 500_000 && c.lastTransmit < time
  }

  /** ScreamTx::isOkToTransmit once stream k is selected, with `size` bytes at the head of its queue
      (-1: nothing). The second part is the return value. */
  function IsOkToTransmit(cfg: Config, s: Sender, time: nat, k: nat, size: int): (Sender, real)
    requires k < |s.streams|
  {
    var core := Initialized(s.core, time);
    var c := SecondPassed(cfg, core.c, time);
    if size == -1 then (s.(core := core.(c := c)), -1.0)
    else if TimedOut(c, time) then
      (Sender(core.(c := c.(bytesInFlight := 0)),
              s.streams[k := s.streams[k].(ring := Cleared(s.streams[k].ring))]), 0.0)
    else
      (s.(core := core.(c := c)),
       if WindowFull(c, size) then -1.0
       else if c.nextTransmit > time then (c.nextTransmit - time) as real * 0.000001 else 0.0)
  }

  /** A packet is counted as in flight; alone when its slot was still in use. */
  function Counted(c: Control, collision: bool, size: nat): Control {
    if collision then c.(bytesInFlight := size, cwnd := c.cwndMin)
    else c.(bytesInFlight := c.bytesInFlight + size)
  }

  /** The control members after a transmission. */
  function Sent(cfg: Config, c: Control, time: nat, size: nat): Control {
    var c1 := Fit(cfg, c.(lastTransmit := time), MaxInt(c.mss, size), 2);
    c1.(nextTransmit := time + c1.paceInterval)
  }

  /** The stream after a transmission. When the slot is still in use, all slots are given up. */
  function Stored(st: StreamState, time: nat, size: nat, seqNr: u16): StreamState {
    var n := SlotOf(seqNr);
    var ring := if st.ring[n].isUsed then Cleared(st.ring) else st.ring;
    st.(ring := ring[n := Fresh(seqNr, time, size)],
        hiSeqTx := seqNr, bytesTransmitted := st.bytesTransmitted + size)
  }

  /** ScreamTx::addTransmitted. */
  function AddTransmitted(cfg: Config, s: Sender, time: nat, k: nat, size: nat, seqNr: u16): Sender
    requires k < |s.streams|
  {
    var core := Initialized(s.core, time);
    var collision := s.streams[k].ring[SlotOf(seqNr)].isUsed;
    Sender(core.(c := Sent(cfg, Counted(core.c, collision, size), time, size)),
           s.streams[k := Stored(s.streams[k], time, size, seqNr)])
  }

  /** Feedback older than the last one is ignored, as far as it is less than 536 numbers behind. */
  predicate Stale(st: StreamState, highest: u16) {
    Wrap16(highest - st.hiSeqAck) > 65000 && st.hiSeqAck != 0 && st.timeTxAck != 0
  }

  /** The packet with the highest acknowledged number is still in the ring. */
  predicate Hit(ring: Ring, highest: u16) {
    ring[SlotOf(highest)].isUsed && ring[SlotOf(highest)].seqNr == highest
  }

  /** The smoothed round trip times after a measured one. */
  function WithRtt(c: Control, time: nat, rtt: nat): Control {
    if rtt >= 1_000_000 then c
    else
      var c1 := c.(sRttSh := (7 * c.sRttSh + rtt) / 8);
      if Sub64(time, c1.lastSRttUpdate) > c1.sRttSh
      then c1.(sRtt := (7 * c1.sRtt + c1.sRttSh) / 8, lastSRttUpdate := time)
      else c1
  }

  /** Its delay and round trip time are measured. */
  function Measure(core: Core, p: Transmitted, time: nat, timestamp: u32): Core
    requires core.delay.ptr < BUCKETS
  {
    MeasureOwd(core, time, Wrap32(timestamp - p.timestamp), Sub64(time, p.timeTx))
  }

  function MeasureOwd(core: Core, time: nat, owd: u32, rtt: nat): Core
    requires core.delay.ptr < BUCKETS
  {
    var delayed := Delayed(core, time, owd);
    delayed.(c := WithRtt(delayed.c, time, rtt))
  }

  /** The one-way delay enters the base delay, and gives the queue delay. */
  function Delayed(core: Core, time: nat, owd: u32): Core
    requires core.delay.ptr < BUCKETS
  {
    var delay := Estimate(core.delay, time, owd);
    core.(c := core.c.(queueDelay := Wrap32(owd - Base(delay)) as real / 1000.0), delay := delay)
  }

  /** ScreamTx::markAcked. */
  function MarkAcked(core: Core, st: StreamState, time: nat, highest: u16, ack: Word64, timestamp: u32): (Core, StreamState)
    requires core.delay.ptr < BUCKETS
  {
    var first := st.hiSeqAck + 1;
    var ring := Marked(st.ring, first, SweepEnd(first, highest), highest, ack);
    if Hit(st.ring, highest) then
      var p := st.ring[SlotOf(highest)];
      (Measure(core, p, time, timestamp), st.(ring := ring, timeTxAck := p.timeTx))
    else (core, st.(ring := ring))
  }

  function LedgerOf(c: Control, st: StreamState): Ledger {
    Ledger(st.ring, c.bytesInFlight, c.bytesNewlyAcked, st.bytesAcked, st.bytesLost, false)
  }

  /** A packet that is given up now is a loss event: at most one per round trip. */
  predicate CountsAsLoss(cfg: Config, c: Control, time: nat) {
    Sub64(time, c.lastLossEvent) > c.sRtt && cfg.lossBeta < 1.0
  }

  /** The control members and the stream with the numbers of a ledger written back. */
  function WithLedger(cfg: Config, c: Control, l: Ledger, time: nat): Control {
    c.(bytesInFlight := l.inFlight, bytesNewlyAcked := l.newlyAcked,
       lossEvent := c.lossEvent || (l.gaveUp && CountsAsLoss(cfg, c, time)))
  }

  function StreamWithLedger(st: StreamState, l: Ledger): StreamState {
    st.(ring := l.ring, bytesAcked := l.acked, bytesLost := l.lost, repairLoss := st.repairLoss || l.gaveUp)
  }

  /** ScreamTx::detectLoss. */
  function DetectLoss(cfg: Config, core: Core, st: StreamState, time: nat, highest: u16): (Core, StreamState) {
    var first := st.hiSeqAck + 1;
    var l := Detect(LedgerOf(core.c, st), st.lastLossIx, first, highest, st.timeTxAck);
    (core.(c := WithLedger(cfg, core.c, l, time)),
     StreamWithLedger(st, l).(hiSeqAck := highest, lastLossIx := first))
  }

  /** What follows loss detection: ECN marks are noted. */
  function Note(core: Core, st: StreamState, time: nat, ecn: u16): Core {
    var marked := ecn != st.ecnCeMarkedBytes && Sub64(time, core.c.lastLossEvent) > core.c.sRtt;
    var c := core.c;
    var event := c.lossEvent || c.ecnCeEvent || marked;
    core.(c := c.(ecnCeEvent := c.ecnCeEvent || marked,
                  lastLossEvent := if event then time else c.lastLossEvent,
                  lastCwndUpdate := if c.lastCwndUpdate == 0 then time else c.lastCwndUpdate))
  }

  /** The window is updated at most every 10 ms. */
  function React(cfg: Config, core: Core, time: nat, inp: Inputs): Core
    requires ConfigOk(cfg) && InputsOk(inp) && ControlOk(cfg, core.c) && core.fractionPtr < SAMPLES
  {
    if Sub64(time, core.c.lastCwndUpdate) > 10_000 then
      var core' := UpdateCwnd(cfg, core, inp, time);
      core'.(c := core'.c.(lastCwndUpdate := time))
    else core
  }

  ghost predicate CoreOk(cfg: Config, core: Core) {
    ControlOk(cfg, core.c) && core.fractionPtr < SAMPLES && core.delay.ptr < BUCKETS
  }

  /** The first half of ScreamTx::incomingFeedback: marks and loss detection on stream k. */
  function Digest(cfg: Config, s: Sender, time: nat, k: nat, timestamp: u32, highest: u16, ack: Word64): Sender
    requires s.core.delay.ptr < BUCKETS && k < |s.streams|
  {
    var marked := MarkAcked(s.core, s.streams[k], time, highest, ack, timestamp);
    var detected := DetectLoss(cfg, marked.0, marked.1, time, highest);
    Sender(detected.0, s.streams[k := detected.1])
  }

  /** Its second half: ECN marks, and the window. */
  function Conclude(cfg: Config, s: Sender, time: nat, k: nat, ecn: u16, inp: Inputs): Sender
    requires ConfigOk(cfg) && InputsOk(inp) && CoreOk(cfg, s.core) && k < |s.streams|
  {
    Sender(React(cfg, Note(s.core, s.streams[k], time, ecn), time, inp),
           s.streams[k := s.streams[k].(ecnCeMarkedBytes := ecn)])
  }

  /** ScreamTx::incomingFeedback for stream k. */
  function IncomingFeedback(cfg: Config, s: Sender, time: nat, k: nat, timestamp: u32, highest: u16,
                            ack: Word64, ecn: u16, inp: Inputs): Sender
    requires ConfigOk(cfg) && InputsOk(inp) && CoreOk(cfg, s.core) && k < |s.streams|
  {
    Taken(cfg, s.(core := Initialized(s.core, time)), time, k, timestamp, highest, ack, ecn, inp)
  }

  /** The same once the clocks are set. */
  function Taken(cfg: Config, s: Sender, time: nat, k: nat, timestamp: u32, highest: u16, ack: Word64, ecn: u16,
                 inp: Inputs): Sender
    requires ConfigOk(cfg) && InputsOk(inp) && CoreOk(cfg, s.core) && k < |s.streams|
  {
    if Stale(s.streams[k], highest) then s
    else
      DigestKeeps(cfg, s, time, k, timestamp, highest, ack);
      Conclude(cfg, Digest(cfg, s, time, k, timestamp, highest, ack), time, k, ecn, inp)
  }

  /** Stream::updateRate: the byte counters start again. */
  function RateUpdate(st: StreamState): StreamState {
    st.(bytesTransmitted := 0, bytesAcked := 0, bytesLost := 0,
        transmittedBefore := st.Transmitted(), ackedBefore := st.Acked(), lostBefore := st.Lost())
  }

  /** What markAcked does to ring, edge time and bytes in flight. */
  lemma MarkAckedParts(core: Core, st: StreamState, time: nat, highest: u16, ack: Word64, timestamp: u32)
    requires core.delay.ptr < BUCKETS
    ensures var marked, first := MarkAcked(core, st, time, highest, ack, timestamp), st.hiSeqAck + 1;
            && marked.0.c.bytesInFlight == core.c.bytesInFlight
            && marked.1.ring == Marked(st.ring, first, SweepEnd(first, highest), highest, ack)
            && marked.1.timeTxAck == if Hit(st.ring, highest) then st.ring[SlotOf(highest)].timeTx else st.timeTxAck
  {
  }

  lemma DelayedKeeps(cfg: Config, core: Core, time: nat, owd: u32)
    requires CoreOk(cfg, core)
    ensures CoreOk(cfg, Delayed(core, time, owd))
  {
  }

  lemma MeasureKeeps(cfg: Config, core: Core, p: Transmitted, time: nat, timestamp: u32)
    requires CoreOk(cfg, core)
    ensures CoreOk(cfg, Measure(core, p, time, timestamp))
  {
    DelayedKeeps(cfg, core, time, Wrap32(timestamp - p.timestamp));
  }

  lemma MarkAckedKeeps(cfg: Config, core: Core, st: StreamState, time: nat, highest: u16, ack: Word64, timestamp: u32)
    requires CoreOk(cfg, core)
    ensures CoreOk(cfg, MarkAcked(core, st, time, highest, ack, timestamp).0)
  {
    MeasureKeeps(cfg, core, st.ring[SlotOf(highest)], time, timestamp);
  }

  lemma DetectLossKeeps(cfg: Config, core: Core, st: StreamState, time: nat, highest: u16)
    requires CoreOk(cfg, core)
    ensures CoreOk(cfg, DetectLoss(cfg, core, st, time, highest).0)
  {
    DetectAccounts(LedgerOf(core.c, st), st.lastLossIx, st.hiSeqAck + 1, highest, st.timeTxAck);
  }

  lemma DigestKeeps(cfg: Config, s: Sender, time: nat, k: nat, timestamp: u32, highest: u16, ack: Word64)
    requires CoreOk(cfg, s.core) && k < |s.streams|
    ensures CoreOk(cfg, Digest(cfg, s, time, k, timestamp, highest, ack).core)
  {
    MarkAckedKeeps(cfg, s.core, s.streams[k], time, highest, ack, timestamp);
    var marked := MarkAcked(s.core, s.streams[k], time, highest, ack, timestamp);
    DetectLossKeeps(cfg, marked.0, marked.1, time, highest);
  }

  lemma ReactKeeps(cfg: Config, core: Core, time: nat, inp: Inputs)
    requires ConfigOk(cfg) && InputsOk(inp) && CoreOk(cfg, core)
    ensures CoreOk(cfg, React(cfg, core, time, inp))
    ensures React(cfg, core, time, inp).c.bytesInFlight == core.c.bytesInFlight
  {
    UpdateKeeps(cfg, core, inp, time);
    UpdateDelay(cfg, core, inp, time);
  }

  lemma ConcludeKeeps(cfg: Config, s: Sender, time: nat, k: nat, ecn: u16, inp: Inputs)
    requires ConfigOk(cfg) && InputsOk(inp) && CoreOk(cfg, s.core) && k < |s.streams|
    ensures var s' := Conclude(cfg, s, time, k, ecn, inp);
            && CoreOk(cfg, s'.core)
            && s'.core.c.bytesInFlight == s.core.c.bytesInFlight
            && s'.streams == s.streams[k := s.streams[k].(ecnCeMarkedBytes := ecn)]
  {
    ReactKeeps(cfg, Note(s.core, s.streams[k], time, ecn), time, inp);
  }

  lemma UpdateDelay(cfg: Config, core: Core, inp: Inputs, time: nat)
    requires ConfigOk(cfg) && InputsOk(inp) && CoreOk(cfg, core)
    ensures UpdateCwnd(cfg, core, inp, time).delay.ptr == core.delay.ptr
  {
  }

  // ---- runs ----

  datatype Event =
    | MediaFrame(time: nat, sizeOfNextRtp: int)
    | Ask(time: nat, k: nat, size: int)
    | Transmit(time: nat, k: nat, bytes: nat, seqNr: u16)
    | Feedback(time: nat, k: nat, timestamp: u32, highest: u16, ack: Word64, ecn: u16, inp: Inputs)
    | Rates(k: nat)
    /** A stream is registered. */
    | Join(st: StreamState)
    /** A call that finds no stream: it only initializes. */
    | Touch(time: nat)

  ghost predicate InitialStream(st: StreamState) {
    && (forall n :: 0 <= n < SLOTS ==> !st.ring[n].isUsed)
    && st.hiSeqAck == 0 && st.lastLossIx == -1 && st.timeTxAck == 0
    && st.bytesTransmitted == st.bytesAcked == st.bytesLost == 0
    && st.transmittedBefore == st.ackedBefore == st.lostBefore == 0
  }

  ghost predicate Enabled(s: Sender, e: Event) {
    match e
    case MediaFrame(_, _) => true
    case Feedback(_, k, _, _, _, _, inp) => k < |s.streams| && InputsOk(inp)
    case Join(st) => InitialStream(st)
    case Touch(_) => true
    case _ => e.k < |s.streams|
  }

  ghost function Step(cfg: Config, s: Sender, e: Event): Sender
    requires ConfigOk(cfg) && CoreOk(cfg, s.core) && Enabled(s, e)
  {
    match e
    case MediaFrame(time, size) => s.(core := NewMediaFrame(cfg, s.core, time, size))
    case Ask(time, k, size) => IsOkToTransmit(cfg, s, time, k, size).0
    case Transmit(time, k, bytes, seqNr) => AddTransmitted(cfg, s, time, k, bytes, seqNr)
    case Feedback(time, k, timestamp, highest, ack, ecn, inp) =>
      IncomingFeedback(cfg, s, time, k, timestamp, highest, ack, ecn, inp)
    case Rates(k) => s.(streams := s.streams[k := RateUpdate(s.streams[k])])
    case Join(st) => s.(streams := s.streams + [st])
    case Touch(time) => s.(core := Initialized(s.core, time))
  }
}
