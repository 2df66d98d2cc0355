/** The sender endpoint (class ScreamTx): its methods change the object step by step, and each is
    proved to do what the function of SenderModel says. */
module ScreamTx {
  import opened Arithmetic
  import opened Words
  import opened Sweep
  import opened TxRing
  import opened CongestionWindow
  import opened SenderModel
  import opened WindowUpdate
  import BD = BaseDelay
  import DT = DelayTrend
  import SR = SenderRuns
  import FP = FeedbackPacket
  import QD = QueueDelay
  import TM = Transmission
  import LE = LossEvents
  import WR = WindowReactions

  /** ScreamTx::Stream. */
  class TxStream {
    const ssrc: nat
    const txPackets: array<Transmitted>
    var hiSeqAck: u16
    var hiSeqTx: u16
    var lastLossDetectIx: int
    var timeTxAck: nat
    var ecnCeMarkedBytes: u16
    var repairLoss: bool
    var bytesTransmitted: int
    var bytesAcked: int
    var bytesLost: int
    ghost var transmittedBefore: int
    ghost var ackedBefore: int
    ghost var lostBefore: int

    constructor (ssrc: nat)
      ensures fresh(txPackets) && Valid() && this.ssrc == ssrc
      ensures InitialStream(State())
    {
      this.ssrc := ssrc;
      txPackets := new Transmitted[SLOTS](_ => UNUSED);
      hiSeqAck, hiSeqTx, lastLossDetectIx, timeTxAck, ecnCeMarkedBytes, repairLoss := 0, 0, -1, 0, 0, false;
      bytesTransmitted, bytesAcked, bytesLost := 0, 0, 0;
      transmittedBefore, ackedBefore, lostBefore := 0, 0, 0;
    }

    ghost predicate Valid()
      reads this, txPackets
    {
      txPackets.Length == SLOTS && Aligned(txPackets[..])
    }

    ghost function State(): StreamState
      requires txPackets.Length == SLOTS
      reads this, txPackets
    {
      StreamState(txPackets[..], hiSeqAck, hiSeqTx, lastLossDetectIx, timeTxAck, ecnCeMarkedBytes, repairLoss,
                  bytesTransmitted, bytesAcked, bytesLost, transmittedBefore, ackedBefore, lostBefore)
    }

    /** The loop that gives up all packets of the stream. */
    method Clear()
      requires Valid()
      modifies txPackets
      ensures Valid()
      ensures txPackets[..] == Cleared(old(txPackets[..]))
    {
      for n := 0 to SLOTS
        invariant forall i :: 0 <= i < SLOTS ==>
          txPackets[i] == if i < n then old(txPackets[i]).(isUsed := false) else old(txPackets[i])
      {
        txPackets[n] := txPackets[n].(isUsed := false);
      }
      assert txPackets[..] == Cleared(old(txPackets[..]));
    }

    /** Registers a transmitted packet in its slot. */
    method Put(time: nat, size: nat, seqNr: u16)
      requires Valid()
      modifies this`hiSeqTx, this`bytesTransmitted, txPackets
      ensures Valid()
      ensures State() == old(State()).(
        ring := old(State()).ring[SlotOf(seqNr) := Fresh(seqNr, time, size)],
        hiSeqTx := seqNr, bytesTransmitted := old(bytesTransmitted) + size)
    {
      hiSeqTx := seqNr;
      txPackets[SlotOf(seqNr)] := Transmitted(time, Wrap32(time / 1000), size, seqNr, true, false, false);
      bytesTransmitted := bytesTransmitted + size;
    }

    /** Stores a packet; all packets of the stream are given up when its slot is not free. */
    method Store(time: nat, size: nat, seqNr: u16) returns (collision: bool)
      requires Valid()
      modifies this`hiSeqTx, this`bytesTransmitted, txPackets
      ensures Valid()
      ensures collision == old(txPackets[SlotOf(seqNr)]).isUsed
      ensures State() == Stored(old(State()), time, size, seqNr)
    {
      collision := txPackets[SlotOf(seqNr)].isUsed;
      if collision {
        Clear();
      }
      Put(time, size, seqNr);
    }

    /** The part of updateRate that restarts the byte counters. */
    method UpdateRate()
      requires Valid()
      modifies this
      ensures Valid()
      ensures State() == RateUpdate(old(State()))
    {
      transmittedBefore, ackedBefore, lostBefore :=
        transmittedBefore + bytesTransmitted, ackedBefore + bytesAcked, lostBefore + bytesLost;
      bytesTransmitted, bytesAcked, bytesLost := 0, 0, 0;
    }
  }

  class ScreamTx {
    const cfg: Config
    /** The scalar members, as one record. */
    var c: Control
    const delay: BD.BaseDelay
    const trend: DT.DelayTrend
    var streams: seq<TxStream>

    ghost function Rings(): set<object>
      reads this
    {
      set s <- streams :: s.txPackets
    }

    ghost function Repr(): set<object>
      reads this
    {
      {this, delay, delay.baseOwdHist, trend, trend.queueDelayFractionHist} + (set s <- streams) + Rings()
    }

    /** The streams are different objects with a ring each. */
    ghost predicate Shape()
      reads this
    {
      && (forall i, j :: 0 <= i < j < |streams| ==> streams[i] != streams[j] && streams[i].txPackets != streams[j].txPackets)
      && (forall i :: 0 <= i < |streams| ==> streams[i].txPackets.Length == SLOTS)
    }

    ghost predicate Valid()
      reads this, streams, Repr()
    {
      && Shape() && delay.Valid() && trend.Valid()
      && (forall i :: 0 <= i < |streams| ==> Aligned(streams[i].txPackets[..]))
    }

    ghost function CoreState(): Core
      requires delay.Valid() && trend.Valid()
      reads this, delay, delay.baseOwdHist, trend, trend.queueDelayFractionHist
    {
      Core(c, delay.State(), trend.History(), trend.queueDelayFractionHistPtr)
    }

    /** The one-way delays measured since the last reset. */
    ghost function Samples(): BD.History
      reads this, delay
    {
      BD.History(delay.closed, delay.open)
    }

    ghost function StreamStates(): (states: seq<StreamState>)
      requires Shape()
      reads this, streams, Rings()
      ensures |states| == |streams|
      ensures forall i :: 0 <= i < |streams| ==> states[i] == streams[i].State()
    {
      seq(|streams|, i requires 0 <= i < |streams| && streams[i].txPackets.Length == SLOTS
                     reads this, streams, Rings() => streams[i].State())
    }

    /** The sender as SenderModel sees it. */
    ghost function State(): Sender
      requires Shape() && delay.Valid() && trend.Valid()
      reads this, streams, Rings(), delay, delay.baseOwdHist, trend, trend.queueDelayFractionHist
    {
      Sender(CoreState(), StreamStates())
    }

    /** cwnd0 is the initial window, 0 for the default. */
    constructor (cfg: Config, cwnd0: nat)
      ensures Valid() && fresh(Repr())
      ensures this.cfg == cfg && streams == []
      ensures !cfg.openWindow && (cwnd0 == 0 || cwnd0 >= 2 * INIT_MSS) ==> SR.Initial(cfg, State())
      ensures cfg.openWindow ==> c.cwnd == c.cwndMin == 10_000_000
      ensures !cfg.openWindow ==> c.cwndMin == 200 && c.cwnd == if cwnd0 == 0 then 200 else cwnd0
      ensures c.mss == 100 && c.bytesInFlight == c.bytesNewlyAcked == c.sRtt == c.paceInterval == 0
      ensures c.inFastStart && !c.isInitialized && !c.lossEvent && !c.ecnCeEvent && c.queueDelayMin == 1000.0
    {
      this.cfg := cfg;
      var cwndMin := if cfg.openWindow then 10_000_000 else 2 * INIT_MSS;
      var cwnd := if cfg.openWindow then cwndMin else if cwnd0 == 0 then 2 * INIT_MSS else cwnd0;
      c := Control(
        false, INIT_MSS, cwnd, cwndMin, 0, 0,
        false, false, false, true, 0.0,
        0.0, cfg.queueDelayTargetMin, 1000.0, 0.0, 0.0, 0.0, 0.0,
        0, 0, 0, 0, 0, 0, 0, 0, 0, 0, 0, 0, 0, 0);
      delay := new BD.BaseDelay();
      trend := new DT.DelayTrend();
      streams := [];
    }

    method RegisterNewStream(ssrc: nat)
      requires Valid()
      modifies this`streams
      ensures Valid() && fresh(Repr() - old(Repr()))
      ensures |streams| == |old(streams)| + 1 && old(streams) <= streams && fresh(streams[|old(streams)|])
      ensures streams[|old(streams)|].ssrc == ssrc
      ensures State().core == old(State().core)
      ensures old(State().streams) <= State().streams
      ensures InitialStream(State().streams[|old(streams)|])
    {
      var stream := new TxStream(ssrc);
      assert StreamStates() == old(StreamStates());
      streams := streams + [stream];
      assert StreamStates() == old(StreamStates()) + [stream.State()];
    }

    /** Only stream k changed. */
    twostate lemma OneStreamChanged(k: nat)
      requires old(Shape()) && streams == old(streams) && k < |streams|
      requires forall i :: 0 <= i < |streams| && i != k ==> unchanged(streams[i]) && unchanged(streams[i].txPackets)
      ensures StreamStates() == old(StreamStates())[k := streams[k].State()]
    {
    }

    method Initialize(time: nat)
      requires Valid()
      modifies this`c, delay`lastBaseOwdAdd, delay`lastBaseDelayRefresh
      ensures Valid()
      ensures State() == old(State()).(core := Initialized(old(CoreState()), time))
    {
      if !c.isInitialized {
        c := c.(isInitialized := true, lastSRttUpdate := time, baseOwdReset := time,
                lastFractionAdd := time, lastLossEvent := time, lastTransmit := time,
                nextTransmit := time, lastRtt := time, initTime := time);
        delay.lastBaseOwdAdd := time;
        delay.lastBaseDelayRefresh := time + 1_000_000;
      }
      assert State().streams == old(State()).streams;
    }

    /** Stores the packet sizes' effect on the window: mss, cwndMin and cwnd in this order. */
    method UpdateMss(mss: int, factor: int)
      modifies this`c
      ensures c == Fit(cfg, old(c), mss, factor)
    {
      c := c.(mss := mss);
      if !cfg.openWindow {
        c := c.(cwndMin := factor * c.mss);
      }
      c := c.(cwnd := MaxInt(c.cwnd, c.cwndMin));
    }

    method NewMediaFrame(time: nat, sizeOfNextRtp: int) returns (clearQueue: bool)
      requires Valid()
      modifies this`c, delay`lastBaseOwdAdd, delay`lastBaseDelayRefresh
      ensures Valid()
      ensures State() == old(State()).(core := SenderModel.NewMediaFrame(cfg, old(CoreState()), time, sizeOfNextRtp))
      ensures clearQueue <==> BD.Sub64(time, delay.lastBaseDelayRefresh) < c.sRtt * 2
    {
      Initialize(time);
      clearQueue := BD.Sub64(time, delay.lastBaseDelayRefresh) < c.sRtt * 2;
      if !clearQueue {
        UpdateMss(MaxInt(c.mss, sizeOfNextRtp), 2);
      }
      assert State().streams == old(State()).streams;
    }

    /** Stream k is the one that the scheduler selected; size is that of the packet at the head of its
        queue, -1 for none. A non-negative result allows transmission now or in that many seconds. */
    method IsOkToTransmit(time: nat, k: nat, size: int) returns (wait: real)
      requires Valid() && k < |streams|
      modifies this`c, delay`lastBaseOwdAdd, delay`lastBaseDelayRefresh, streams[k].txPackets
      ensures Valid()
      ensures (State(), wait) == SenderModel.IsOkToTransmit(cfg, old(State()), time, k, size)
      ensures wait >= 0.0 <==> TM.Allowed(cfg, old(c), time, size)
      ensures wait >= 0.0 ==> time as real + wait * 1000000.0 == TM.AllowedFrom(old(c), time) as real
    {
      TM.AllowedIff(cfg, State(), time, k, size);
      Initialize(time);
      CheckSecond(time);
      assert StreamStates() == old(StreamStates());
      if size == -1 {
        return -1.0;
      }
      var exit := if c.queueDelay < c.queueDelayTarget
                  then c.bytesInFlight + size > c.cwnd + c.mss
                  else c.bytesInFlight + size > c.cwnd;
      wait := 0.0;
      if c.nextTransmit > time {
        wait := (c.nextTransmit - time) as real * 0.000001;
      }
      if BD.Sub64(time, c.lastTransmit) > 500_000 && c.lastTransmit < time {
        GiveUpAll(k);
        exit := false;
        wait := 0.0;
      }
      if exit {
        wait := -1.0;
      }
    }

    /** The retransmission timeout. */
    method GiveUpAll(k: nat)
      requires Valid() && k < |streams|
      modifies this`c, streams[k].txPackets
      ensures Valid()
      ensures c == old(c).(bytesInFlight := 0)
      ensures StreamStates() == old(StreamStates())[k := old(StreamStates())[k].(ring := Cleared(old(StreamStates())[k].ring))]
    {
      streams[k].Clear();
      c := c.(bytesInFlight := 0);
      OneStreamChanged(k);
    }

    /** The segment size is reset once a second. */
    method CheckSecond(time: nat)
      modifies this`c
      ensures c == SecondPassed(cfg, old(c), time)
    {
      if BD.Sub64(time, c.lastBytesInFlight) > 1_000_000 {
        c := c.(lastBytesInFlight := time);
        UpdateMss(INIT_MSS, 3);
      }
    }

    method AddTransmitted(time: nat, k: nat, size: nat, seqNr: u16)
      requires Valid() && k < |streams|
      modifies this`c, delay`lastBaseOwdAdd, delay`lastBaseDelayRefresh, streams[k], streams[k].txPackets
      ensures Valid() && streams == old(streams)
      ensures State() == SenderModel.AddTransmitted(cfg, old(State()), time, k, size, seqNr)
    {
      Initialize(time);
      StorePacket(time, k, size, seqNr);
      NoteSent(time, size);
    }

    /** The window and the pacing after a transmission. */
    method NoteSent(time: nat, size: nat)
      modifies this`c
      ensures c == Sent(cfg, old(c), time, size)
    {
      c := c.(lastTransmit := time);
      UpdateMss(MaxInt(c.mss, size), 2);
      c := c.(nextTransmit := time + c.paceInterval);
    }

    /** Puts a packet into its slot; all packets of the stream are given up when it is not free. */
    method StorePacket(time: nat, k: nat, size: nat, seqNr: u16)
      requires Valid() && k < |streams|
      modifies this`c, streams[k], streams[k].txPackets
      ensures Valid()
      ensures StreamStates() == old(StreamStates())[k := Stored(old(StreamStates())[k], time, size, seqNr)]
      ensures c == Counted(old(c), old(StreamStates())[k].ring[SlotOf(seqNr)].isUsed, size)
    {
      var collision := streams[k].Store(time, size, seqNr);
      if collision {
        c := c.(bytesInFlight := 0);
        c := c.(cwnd := c.cwndMin);
      }
      c := c.(bytesInFlight := c.bytesInFlight + size);
      OneStreamChanged(k);
    }

    /** The queue delay of the packet with the highest acknowledged number: how far it is above the smallest
        delay in the window, this one included. The unsigned subtraction does not wrap. */
    method MeasureDelay(time: nat, owd: u32)
      requires delay.Valid() && trend.Valid()
      modifies this`c, delay, delay.baseOwdHist
      ensures delay.Valid() && trend.Valid()
      ensures CoreState() == Delayed(old(CoreState()), time, owd)
      ensures Samples() == QD.Extended(old(Samples()), old(delay.lastBaseOwdAdd), time, owd)
      ensures QD.Queued(c, owd, Samples())
      ensures Wrap32(owd - BD.Base(delay.State())) == owd - BD.MinOf(QD.Window(Samples()))
    {
      var acked := delay.EstimateOwd(time, owd);
      var base := delay.GetBaseOwd();
      SmallWrap(acked - base);
      var qDel := Wrap32(acked - base);
      c := c.(queueDelay := qDel as real / 1000.0);
    }

    /** Delay and round trip time of that packet. */
    method MeasureAck(p: Transmitted, time: nat, timestamp: u32)
      requires delay.Valid() && trend.Valid()
      modifies this`c, delay, delay.baseOwdHist
      ensures delay.Valid() && trend.Valid()
      ensures CoreState() == Measure(old(CoreState()), p, time, timestamp)
      ensures Samples() == QD.Extended(old(Samples()), old(delay.lastBaseOwdAdd), time, Wrap32(timestamp - p.timestamp))
      ensures QD.Queued(c, Wrap32(timestamp - p.timestamp), Samples())
    {
      MeasureBoth(time, Wrap32(timestamp - p.timestamp), BD.Sub64(time, p.timeTx));
    }

    method MeasureBoth(time: nat, owd: u32, rtt: nat)
      requires delay.Valid() && trend.Valid()
      modifies this`c, delay, delay.baseOwdHist
      ensures delay.Valid() && trend.Valid()
      ensures CoreState() == MeasureOwd(old(CoreState()), time, owd, rtt)
      ensures Samples() == QD.Extended(old(Samples()), old(delay.lastBaseOwdAdd), time, owd)
      ensures QD.Queued(c, owd, Samples())
    {
      MeasureDelay(time, owd);
      ghost var delayed := CoreState();
      SmoothRtt(time, rtt);
      assert CoreState() == delayed.(c := WithRtt(delayed.c, time, rtt));
    }

    method SmoothRtt(time: nat, rtt: nat)
      modifies this`c
      ensures c == WithRtt(old(c), time, rtt)
      ensures QD.RttFollows(old(c), c, time, rtt)
    {
      QD.WithRttFollows(c, time, rtt);
      if rtt < 1_000_000 {
        c := c.(sRttSh := (7 * c.sRttSh + rtt) / 8);
        if BD.Sub64(time, c.lastSRttUpdate) > c.sRttSh {
          c := c.(sRtt := (7 * c.sRtt + c.sRttSh) / 8, lastSRttUpdate := time);
        }
      }
    }

    /** The body of the loop in markAcked: slot n is looked at. */
    method MarkOne(stream: TxStream, n: nat, time: nat, highest: u16, ack: Word64, timestamp: u32)
      requires delay.Valid() && trend.Valid() && stream.txPackets.Length == SLOTS && n < SLOTS
      modifies this`c, delay, delay.baseOwdHist, stream, stream.txPackets
      ensures delay.Valid() && trend.Valid()
      ensures var p := old(stream.txPackets[n]);
              var hit := p.isUsed && p.seqNr == highest;
              && stream.State() == old(stream.State()).(
                   ring := old(stream.State()).ring[n := MarkSlot(p, highest, ack)],
                   timeTxAck := if hit then p.timeTx else old(stream.timeTxAck))
              && CoreState() == (if hit then Measure(old(CoreState()), p, time, timestamp) else old(CoreState()))
              && Samples() == if hit then QD.Extended(old(Samples()), old(delay.lastBaseOwdAdd), time, Wrap32(timestamp - p.timestamp))
                              else old(Samples())
    {
      var txPackets, p := stream.txPackets, stream.txPackets[n];
      if p.isUsed {
        var diff := Wrap16(highest - p.seqNr - 1);
        if diff < 64 && ack[diff] {
          txPackets[n] := p.(isAcked := true);
        }
        if p.seqNr == highest {
          txPackets[n] := p.(isAcked := true);
          stream.timeTxAck := p.timeTx;
          MeasureAck(p, time, timestamp);
        }
      }
    }

    method MarkAcked(time: nat, k: nat, highest: u16, ack: Word64, timestamp: u32)
      requires Valid() && k < |streams|
      modifies this`c, delay, delay.baseOwdHist, streams[k], streams[k].txPackets
      ensures Valid()
      ensures var marked := SenderModel.MarkAcked(old(CoreState()), old(StreamStates())[k], time, highest, ack, timestamp);
              && CoreState() == marked.0
              && StreamStates() == old(StreamStates())[k := marked.1]
      ensures QD.Measures(old(CoreState()), CoreState(), old(StreamStates())[k].ring, old(Samples()), Samples(),
                          time, highest, timestamp)
    {
      QD.FeedbackMeasures(CoreState(), StreamStates()[k], Samples(), time, highest, ack, timestamp);
      MarkLoop(streams[k], time, highest, ack, timestamp);
      OneStreamChanged(k);
    }

    method MarkLoop(stream: TxStream, time: nat, highest: u16, ack: Word64, timestamp: u32)
      requires delay.Valid() && trend.Valid() && stream.Valid()
      modifies this`c, delay, delay.baseOwdHist, stream, stream.txPackets
      ensures delay.Valid() && trend.Valid() && stream.Valid()
      ensures (CoreState(), stream.State())
              == SenderModel.MarkAcked(old(CoreState()), old(stream.State()), time, highest, ack, timestamp)
      ensures Samples() == QD.SamplesAfter(old(Samples()), old(CoreState()).delay.lastAdd, old(stream.State()).ring,
                                           time, highest, timestamp)
    {
      var first := stream.hiSeqAck + 1;
      var last := FindSweepEnd(first, highest);
      SweepIsShort(first, highest);
      MarkSlots(stream, first, last, time, highest, ack, timestamp);
    }

    /** The loop over the slots from `first` to `last`. */
    method MarkSlots(stream: TxStream, first: nat, last: nat, time: nat, highest: u16, ack: Word64, timestamp: u32)
      requires delay.Valid() && trend.Valid() && stream.Valid() && last == SweepEnd(first, highest)
      modifies this`c, delay, delay.baseOwdHist, stream, stream.txPackets
      ensures delay.Valid() && trend.Valid()
      ensures stream.State() == old(stream.State()).(ring := Marked(old(stream.State()).ring, first, last, highest, ack),
                                                     timeTxAck := stream.timeTxAck)
      ensures CoreState() == if Hit(old(stream.State()).ring, highest)
                             then Measure(old(CoreState()), old(stream.State()).ring[SlotOf(highest)], time, timestamp)
                             else old(CoreState())
      ensures stream.timeTxAck == if Hit(old(stream.State()).ring, highest)
                                  then old(stream.State()).ring[SlotOf(highest)].timeTx else old(stream.timeTxAck)
      ensures Samples() == QD.SamplesAfter(old(Samples()), old(CoreState()).delay.lastAdd, old(stream.State()).ring,
                                           time, highest, timestamp)
    {
      ghost var st, core := stream.State(), CoreState();
      ghost var top, hit := st.ring[SlotOf(highest)], Hit(st.ring, highest);
      ghost var samples, after := Samples(), QD.SamplesAfter(Samples(), core.delay.lastAdd, st.ring, time, highest, timestamp);
      SweepIsShort(first, highest);
      var m := first;
      while m <= last
        invariant first <= m <= last + 1
        invariant delay.Valid() && trend.Valid()
        invariant stream.State() == st.(ring := MarkedBefore(st.ring, first, m, highest, ack), timeTxAck := stream.timeTxAck)
        invariant CoreState() == if m > last && hit then Measure(core, top, time, timestamp) else core
        invariant stream.timeTxAck == if m > last && hit then top.timeTx else st.timeTxAck
        invariant Samples() == if m > last then after else samples
      {
        MarkedStep(st.ring, first, m, highest, ack);
        ghost var p := st.ring[SlotOf(m)];
        assert stream.txPackets[SlotOf(m)] == p;
        assert p.isUsed && p.seqNr == highest <==> m == last && hit;
        MarkOne(stream, SlotOf(m), time, highest, ack, timestamp);
        m := m + 1;
      }
    }

    /** The ledger `l` is what the object shows now, after it showed c0 and st0. */
    ghost predicate Shows(stream: TxStream, c0: Control, st0: StreamState, l: Ledger, time: nat)
      requires stream.txPackets.Length == SLOTS
      reads this`c, stream, stream.txPackets
    {
      c == WithLedger(cfg, c0, l, time) && stream.State() == StreamWithLedger(st0, l)
    }

    /** Slot n is given up: the packet is lost. */
    method GiveUp(stream: TxStream, n: nat, time: nat, ghost c0: Control, ghost st0: StreamState, ghost l: Ledger)
      requires stream.txPackets.Length == SLOTS && n < SLOTS && Shows(stream, c0, st0, l, time)
      modifies this`c, stream, stream.txPackets
      ensures Shows(stream, c0, st0,
                    l.(ring := l.ring[n := l.ring[n].(isUsed := false)], lost := l.lost + l.ring[n].size, gaveUp := true), time)
    {
      if BD.Sub64(time, c.lastLossEvent) > c.sRtt && cfg.lossBeta < 1.0 {
        c := c.(lossEvent := true);
      }
      stream.bytesLost := stream.bytesLost + stream.txPackets[n].size;
      stream.txPackets[n] := stream.txPackets[n].(isUsed := false);
      stream.repairLoss := true;
    }

    /** The loop over packets out of the reach of the ACK vector. */
    method ForgetLoop(stream: TxStream, lo: nat, hi: nat, time: nat, ghost c0: Control, ghost st0: StreamState, ghost l0: Ledger)
      requires stream.txPackets.Length == SLOTS && Shows(stream, c0, st0, l0, time)
      modifies this`c, stream, stream.txPackets
      ensures Shows(stream, c0, st0, Forget(l0, lo, hi), time)
    {
      var m := lo;
      ghost var l := l0;
      while m < hi
        invariant m <= hi || m == lo
        invariant Shows(stream, c0, st0, l, time)
        invariant Forget(l, m, hi) == Forget(l0, lo, hi)
      {
        var n := SlotOf(m);
        if stream.txPackets[n].isUsed {
          GiveUp(stream, n, time, c0, st0, l);
        }
        l := ForgetSlot(l, n);
        m := m + 1;
      }
    }

    /** The first half of the body of the second loop of detectLoss: the received edge. */
    method CrossOne(stream: TxStream, n: nat, highest: u16, time: nat, ghost c0: Control, ghost st0: StreamState, ghost l: Ledger)
      requires stream.txPackets.Length == SLOTS && n < SLOTS && Shows(stream, c0, st0, l, time)
      requires l.ring[n].isUsed
      modifies this`c, stream, stream.txPackets
      ensures Shows(stream, c0, st0, Crossed(l, n, highest), time)
    {
      var p := stream.txPackets[n];
      var passed := HasPassed(p.seqNr, highest);
      if passed && !p.isAfterReceivedEdge {
        CrossedWindow(cfg, c0, l, n, highest, time);
        c := c.(bytesNewlyAcked := c.bytesNewlyAcked + p.size, bytesInFlight := Floor0(c.bytesInFlight - p.size));
        stream.bytesAcked := stream.bytesAcked + p.size;
        stream.txPackets[n] := p.(isAfterReceivedEdge := true);
      }
    }

    /** The body of the second loop of detectLoss. */
    method SettleOne(stream: TxStream, n: nat, highest: u16, time: nat, ghost c0: Control, ghost st0: StreamState, ghost l: Ledger)
      requires stream.txPackets.Length == SLOTS && n < SLOTS && Shows(stream, c0, st0, l, time)
      modifies this`c, stream, stream.txPackets
      ensures Shows(stream, c0, st0, Settle(l, n, highest, st0.timeTxAck), time)
    {
      SettleIsCrossedThenExpired(l, n, highest, st0.timeTxAck);
      if stream.txPackets[n].isUsed {
        CrossOne(stream, n, highest, time, c0, st0, l);
        var p := stream.txPackets[n];
        if p.timeTx + REORDER_TIME < stream.timeTxAck && !p.isAcked {
          GiveUp(stream, n, time, c0, st0, Crossed(l, n, highest));
        } else if p.isAcked {
          stream.txPackets[n] := p.(isUsed := false);
        }
      }
    }

    method SettleLoop(stream: TxStream, lo: nat, hi: nat, highest: u16, time: nat,
                      ghost c0: Control, ghost st0: StreamState, ghost l0: Ledger)
      requires stream.txPackets.Length == SLOTS && Shows(stream, c0, st0, l0, time)
      modifies this`c, stream, stream.txPackets
      ensures Shows(stream, c0, st0, SettleAll(l0, lo, hi, highest, st0.timeTxAck), time)
    {
      var m := lo;
      ghost var l := l0;
      while m < hi
        invariant m <= hi || m == lo
        invariant Shows(stream, c0, st0, l, time)
        invariant SettleAll(l, m, hi, highest, st0.timeTxAck) == SettleAll(l0, lo, hi, highest, st0.timeTxAck)
      {
        SettleOne(stream, SlotOf(m), highest, time, c0, st0, l);
        l := Settle(l, SlotOf(m), highest, st0.timeTxAck);
        m := m + 1;
      }
    }

    method DetectLoss(time: nat, k: nat, highest: u16)
      requires Valid() && k < |streams|
      modifies this`c, streams[k], streams[k].txPackets
      ensures Valid()
      ensures var detected := SenderModel.DetectLoss(cfg, old(CoreState()), old(StreamStates())[k], time, highest);
              && CoreState() == detected.0
              && StreamStates() == old(StreamStates())[k := detected.1]
      ensures c.lossEvent <==>
                old(c).lossEvent ||
                (LE.SomeGivenUp(old(StreamStates())[k], highest) && BD.Sub64(time, old(c).lastLossEvent) > old(c).sRtt && cfg.lossBeta < 1.0)
      ensures streams[k].repairLoss <==> old(streams[k].repairLoss) || LE.SomeGivenUp(old(StreamStates())[k], highest)
    {
      LE.LossEventIff(cfg, CoreState(), StreamStates()[k], time, highest);
      DetectLoop(streams[k], time, highest);
      OneStreamChanged(k);
    }

    method DetectLoop(stream: TxStream, time: nat, highest: u16)
      requires delay.Valid() && trend.Valid() && stream.Valid()
      modifies this`c, stream, stream.txPackets
      ensures stream.Valid()
      ensures (CoreState(), stream.State()) == SenderModel.DetectLoss(cfg, old(CoreState()), old(stream.State()), time, highest)
    {
      ghost var st0, l0 := stream.State(), LedgerOf(c, stream.State());
      var ix0 := stream.hiSeqAck + 1;
      var ix1 := FindSweepEnd(ix0, highest);
      ghost var l1 := l0;
      if stream.lastLossDetectIx >= 0 {
        var end := ix0;
        if stream.lastLossDetectIx > end {
          end := end + SLOTS;
        }
        ForgetLoop(stream, stream.lastLossDetectIx, end, time, old(c), st0, l0);
        l1 := Forget(l0, st0.lastLossIx, ForgetEnd(st0.lastLossIx, ix0));
      }
      SettleLoop(stream, ix0, ix1 + 1, highest, time, old(c), st0, l1);
      stream.hiSeqAck := highest;
      stream.lastLossDetectIx := ix0;
      DetectAligned(l0, st0.lastLossIx, ix0, highest, st0.timeTxAck);
    }

    // ---- updateCwnd ----

    method AverageDelay(time: nat)
      requires delay.Valid() && trend.Valid() && c.queueDelayTarget > 0.0
      modifies this`c, delay, delay.baseOwdHist
      ensures delay.Valid() && trend.Valid()
      ensures CoreState() == Average(old(CoreState()), time)
    {
      c := Observed(c, time);
      if Drifted(c, time) {
        c := c.(queueDelayMinAvg := 0.0, queueDelay := 0.0, baseOwdReset := time);
        delay.ResetHistory();
      }
      c := Smoothed(c);
    }

    method RefreshTargets(time: nat, inp: Inputs)
      requires delay.Valid() && trend.Valid() && c.queueDelayTarget > 0.0
      modifies this`c, trend, trend.queueDelayFractionHist
      ensures delay.Valid() && trend.Valid()
      ensures CoreState() == Refresh(cfg, old(CoreState()), inp, time)
    {
      if BD.Sub64(time, c.lastFractionAdd) <= 50000 {
        return;
      }
      trend.Insert(Fraction(c), Copies(BD.Sub64(time, c.lastFractionAdd)));
      var queueDelayTrend := c.queueDelayTrend;
      if BD.Sub64(time, c.initTime) > 2_000_000 {
        queueDelayTrend := trend.ComputeQueueDelayTrend(c.queueDelayFractionAvg);
      }
      c := Refreshed(c, inp, queueDelayTrend, time);
      if cfg.enableSbd {
        var target := AdaptTarget(cfg, c, inp);
        c := c.(queueDelayTarget := target);
      }
    }

    method UpdateCwnd(time: nat, inp: Inputs)
      requires delay.Valid() && trend.Valid()
      requires ConfigOk(cfg) && InputsOk(inp) && ControlOk(cfg, c)
      modifies this`c, delay, delay.baseOwdHist, trend, trend.queueDelayFractionHist
      ensures delay.Valid() && trend.Valid()
      ensures CoreState() == CongestionWindow.UpdateCwnd(cfg, old(CoreState()), inp, time)
      ensures WR.Answers(cfg, old(CoreState()), CoreState(), inp, time)
    {
      WR.UpdateAnswers(cfg, CoreState(), inp, time);
      var limited := Limited(c, inp, time);
      RefreshKeeps(cfg, CoreState(), inp, time);
      AverageKeeps(cfg, CoreState(), time);
      AverageDelay(time);
      RefreshTargets(time, inp);
      c := SteerWindow(cfg, c, inp, limited, time);
      c := ValidateWindow(c, inp);
      c := Resume(c, time);
      c := c.(bytesNewlyAcked := 0);
    }

    // ---- incomingFeedback ----

    /** The stream of a source, as getStream finds it. */
    method GetStream(ssrc: nat) returns (k: nat)
      ensures k <= |streams|
      ensures forall i :: 0 <= i < k ==> streams[i].ssrc != ssrc
      ensures k < |streams| ==> streams[k].ssrc == ssrc
    {
      k := 0;
      while k < |streams| && streams[k].ssrc != ssrc
        invariant k <= |streams|
        invariant forall i :: 0 <= i < k ==> streams[i].ssrc != ssrc
      {
        k := k + 1;
      }
    }

    /** Marks, loss detection, ECN and the window update. */
    method IncomingFeedback(time: nat, k: nat, timestamp: u32, highest: u16, ack: Word64, ecn: u16, inp: Inputs)
      requires Valid() && k < |streams|
      requires ConfigOk(cfg) && InputsOk(inp) && ControlOk(cfg, c)
      modifies this`c, delay, delay.baseOwdHist, trend, trend.queueDelayFractionHist, streams[k], streams[k].txPackets
      ensures Valid()
      ensures State() == SenderModel.IncomingFeedback(cfg, old(State()), time, k, timestamp, highest, ack, ecn, inp)
    {
      Initialize(time);
      TakeFeedback(time, k, timestamp, highest, ack, ecn, inp);
    }

    /** Stale feedback is ignored. */
    method TakeFeedback(time: nat, k: nat, timestamp: u32, highest: u16, ack: Word64, ecn: u16, inp: Inputs)
      requires Valid() && k < |streams|
      requires ConfigOk(cfg) && InputsOk(inp) && ControlOk(cfg, c)
      modifies this`c, delay, delay.baseOwdHist, trend, trend.queueDelayFractionHist, streams[k], streams[k].txPackets
      ensures Valid()
      ensures State() == Taken(cfg, old(State()), time, k, timestamp, highest, ack, ecn, inp)
    {
      var stream := streams[k];
      assert stream.State() == State().streams[k];
      if Wrap16(highest - stream.hiSeqAck) > 65000 && stream.hiSeqAck != 0 && stream.timeTxAck != 0 {
        return;
      }
      HandleFeedback(time, k, timestamp, highest, ack, ecn, inp);
    }

    /** Feedback that is not stale. */
    method HandleFeedback(time: nat, k: nat, timestamp: u32, highest: u16, ack: Word64, ecn: u16, inp: Inputs)
      requires Valid() && k < |streams|
      requires ConfigOk(cfg) && InputsOk(inp) && ControlOk(cfg, c)
      modifies this`c, delay, delay.baseOwdHist, trend, trend.queueDelayFractionHist, streams[k], streams[k].txPackets
      ensures Valid()
      ensures CoreOk(cfg, Digest(cfg, old(State()), time, k, timestamp, highest, ack).core)
      ensures State() == Conclude(cfg, Digest(cfg, old(State()), time, k, timestamp, highest, ack), time, k, ecn, inp)
    {
      DigestKeeps(cfg, State(), time, k, timestamp, highest, ack);
      DigestFeedback(time, k, timestamp, highest, ack);
      ConcludeFeedback(time, k, ecn, inp);
    }

    /** Marks and loss detection. */
    method DigestFeedback(time: nat, k: nat, timestamp: u32, highest: u16, ack: Word64)
      requires Valid() && k < |streams|
      modifies this`c, delay, delay.baseOwdHist, streams[k], streams[k].txPackets
      ensures Valid()
      ensures State() == Digest(cfg, old(State()), time, k, timestamp, highest, ack)
    {
      MarkAcked(time, k, highest, ack, timestamp);
      DetectLoss(time, k, highest);
    }

    method ConcludeFeedback(time: nat, k: nat, ecn: u16, inp: Inputs)
      requires Valid() && k < |streams|
      requires ConfigOk(cfg) && InputsOk(inp) && ControlOk(cfg, c)
      modifies this`c, delay, delay.baseOwdHist, trend, trend.queueDelayFractionHist, streams[k]
      ensures Valid()
      ensures State() == Conclude(cfg, old(State()), time, k, ecn, inp)
    {
      NoteMarks(streams[k], time, ecn);
      React(time, inp);
      assert CoreState() == Conclude(cfg, old(State()), time, k, ecn, inp).core;
      streams[k].ecnCeMarkedBytes := ecn;
      OneStreamChanged(k);
    }

    /** The window is updated at most every 10 ms. */
    method React(time: nat, inp: Inputs)
      requires delay.Valid() && trend.Valid()
      requires ConfigOk(cfg) && InputsOk(inp) && ControlOk(cfg, c)
      modifies this`c, delay, delay.baseOwdHist, trend, trend.queueDelayFractionHist
      ensures delay.Valid() && trend.Valid()
      ensures CoreState() == SenderModel.React(cfg, old(CoreState()), time, inp)
    {
      if BD.Sub64(time, c.lastCwndUpdate) > 10_000 {
        UpdateCwnd(time, inp);
        c := c.(lastCwndUpdate := time);
      }
    }

    method NoteMarks(stream: TxStream, time: nat, ecn: u16)
      requires delay.Valid() && trend.Valid() && stream.txPackets.Length == SLOTS
      modifies this`c
      ensures CoreState() == Note(old(CoreState()), stream.State(), time, ecn)
    {
      if ecn != stream.ecnCeMarkedBytes && BD.Sub64(time, c.lastLossEvent) > c.sRtt {
        c := c.(ecnCeEvent := true, lastLossEvent := time);
      }
      if c.lossEvent || c.ecnCeEvent {
        c := c.(lastLossEvent := time);
      }
      if c.lastCwndUpdate == 0 {
        c := c.(lastCwndUpdate := time);
      }
    }

    /** The feedback of source `source`; one of an unknown source only initializes. */
    method FeedbackOf(source: u32, time: nat, f: FP.Feedback, inp: Inputs) returns (ghost k: nat)
      requires Valid() && ConfigOk(cfg) && InputsOk(inp) && ControlOk(cfg, c)
      modifies Repr()
      ensures Valid() && streams == old(streams)
      ensures k <= |streams|
      ensures forall i :: 0 <= i < k ==> streams[i].ssrc != source
      ensures k < |streams| ==> streams[k].ssrc == source
      ensures State() == if k < |streams|
                         then SenderModel.IncomingFeedback(cfg, old(State()), time, k, f.timestamp, f.highest, f.ack, f.ecnCeBytes, inp)
                         else old(State()).(core := Initialized(old(CoreState()), time))
    {
      var index := GetStream(source);
      k := index;
      if index < |streams| {
        IncomingFeedback(time, index, f.timestamp, f.highest, f.ack, f.ecnCeBytes, inp);
        assert streams == old(streams);
      } else {
        Initialize(time);
        assert streams == old(streams);
      }
    }

    /** A feedback packet from the network; what is no 32-byte feedback packet changes nothing. */
    method IncomingPacket(time: nat, buf: seq<FP.byte>, inp: Inputs) returns (ghost k: nat)
      requires Valid() && ConfigOk(cfg) && InputsOk(inp) && ControlOk(cfg, c)
      modifies Repr()
      ensures Valid() && streams == old(streams)
      ensures FP.Decode(buf).None? ==> State() == old(State())
      ensures FP.Decode(buf).Some? ==>
        var f := FP.Decode(buf).value;
        && k <= |streams|
        && (forall i :: 0 <= i < k ==> streams[i].ssrc != f.ssrc)
        && (k < |streams| ==> streams[k].ssrc == f.ssrc)
        && State() == if k < |streams|
                      then SenderModel.IncomingFeedback(cfg, old(State()), time, k, f.timestamp, f.highest, f.ack, f.ecnCeBytes, inp)
                      else old(State()).(core := Initialized(old(CoreState()), time))
    {
      var decoded := FP.Decode(buf);
      if decoded.None? {
        return 0;
      }
      k := FeedbackOf(decoded.value.ssrc, time, decoded.value, inp);
    }
  }

  lemma SmallWrap(n: nat)
    requires n < 0x1_0000_0000
    ensures Wrap32(n) == n
  {
  }

  /** The wrap-around safety net of detectLoss. */
  method HasPassed(seqNr: u16, highest: u16) returns (passed: bool)
    ensures passed == AtOrBefore(seqNr, highest)
  {
    var seqNrExt: nat, highestSeqNrExt: nat := seqNr, highest;
    if seqNrExt < highestSeqNrExt && highestSeqNrExt - seqNrExt > 20000 {
      seqNrExt := seqNrExt + 65536;
    } else if seqNrExt > highestSeqNrExt && seqNrExt - highestSeqNrExt > 20000 {
      highestSeqNrExt := highestSeqNrExt + 65536;
    }
    passed := seqNrExt <= highestSeqNrExt;
  }

  /** The ledger after a used slot was compared with the highest number. */
  function Crossed(l: Ledger, n: nat, highest: u16): Ledger
    requires n < SLOTS
  {
    var p := l.ring[n];
    if Crosses(p, highest)
    then l.(ring := l.ring[n := p.(isAfterReceivedEdge := true)], inFlight := Floor0(l.inFlight - p.size),
            newlyAcked := l.newlyAcked + p.size, acked := l.acked + p.size)
    else l
  }

  lemma CrossedWindow(cfg: Config, c0: Control, l: Ledger, n: nat, highest: u16, time: nat)
    requires n < SLOTS && Crosses(l.ring[n], highest)
    ensures var c := WithLedger(cfg, c0, l, time);
            var size := l.ring[n].size;
            WithLedger(cfg, c0, Crossed(l, n, highest), time)
            == c.(bytesNewlyAcked := c.bytesNewlyAcked + size, bytesInFlight := Floor0(c.bytesInFlight - size))
  {
  }

  /** The ledger after that slot was checked for loss and acknowledgement. */
  function Expired(l: Ledger, n: nat, timeTxAck: nat): Ledger
    requires n < SLOTS
  {
    var p := l.ring[n];
    if IsLate(p, timeTxAck)
    then l.(ring := l.ring[n := p.(isUsed := false)], lost := l.lost + p.size, gaveUp := true)
    else if p.isUsed && p.isAcked then l.(ring := l.ring[n := p.(isUsed := false)])
    else l
  }

  lemma SettleIsCrossedThenExpired(l: Ledger, n: nat, highest: u16, timeTxAck: nat)
    requires n < SLOTS
    ensures Settle(l, n, highest, timeTxAck) == Expired(Crossed(l, n, highest), n, timeTxAck)
  {
    var l1 := Expired(Crossed(l, n, highest), n, timeTxAck);
    assert l1.ring == l.ring[n := SettleSlot(l.ring[n], highest, timeTxAck)];
  }

  /** Loss detection leaves the packets in their slots. */
  lemma DetectAligned(l: Ledger, lastLossIx: int, first: nat, highest: u16, timeTxAck: nat)
    requires Aligned(l.ring)
    ensures Aligned(Detect(l, lastLossIx, first, highest, timeTxAck).ring)
  {
    var l1 := if lastLossIx >= 0 then Forget(l, lastLossIx, ForgetEnd(lastLossIx, first)) else l;
    SweepIsShort(first, highest);
    forall n: nat | n < SLOTS
      ensures var p := Detect(l, lastLossIx, first, highest, timeTxAck).ring[n];
              p.seqNr == l.ring[n].seqNr && (p.isUsed ==> l.ring[n].isUsed)
    {
      if lastLossIx >= 0 {
        ForgetAt(l, lastLossIx, ForgetEnd(lastLossIx, first), n);
      }
      SettleAllAt(l1, first, SweepEnd(first, highest) + 1, highest, timeTxAck, n);
    }
  }

  /** The ring before the sweep from `first` on looks at index m. */
  function MarkedBefore(ring: Ring, first: nat, m: nat, highest: u16, ack: Word64): Ring {
    if m <= first then ring else Marked(ring, first, m - 1, highest, ack)
  }

  lemma MarkedStep(ring: Ring, first: nat, m: nat, highest: u16, ack: Word64)
    requires first <= m < first + SLOTS
    ensures var before, n := MarkedBefore(ring, first, m, highest, ack), SlotOf(m);
            before[n] == ring[n] && Marked(ring, first, m, highest, ack) == before[n := MarkSlot(ring[n], highest, ack)]
  {
    VisitedFromEnd(first, m);
  }

  lemma VisitedFromEnd(first: nat, m: nat)
    requires first <= m < first + SLOTS
    ensures forall i: nat :: i < SLOTS ==> (Visited(first, m, i) <==> SlotOf(m) == i || (first < m && Visited(first, m - 1, i)))
    ensures first < m ==> !Visited(first, m - 1, SlotOf(m))
  {
  }
}
