/** The queue delay that the sender derives from a feedback: how far the one-way delay of the acknowledged
    packet is above the smallest one in the window of the base delay. */
module QueueDelay {
  import opened Words
  import opened Sweep
  import opened TxRing
  import opened BaseDelay
  import opened CongestionWindow
  import opened SenderModel

  /** The samples of the window: of the last fifty closed buckets and of the open one. */
  function Window(h: History): seq<u32> {
    Recent(h.closed, BUCKETS) + h.open
  }

  /** The history with one more sample; when ten seconds have passed it closes the open bucket. */
  function Extended(h: History, lastAdd: nat, time: nat, owd: u32): History {
    if (time - lastAdd) % 0x1_0000_0000_0000_0000 >= 10_000_000
    then History(h.closed + [h.open + [owd]], [])
    else History(h.closed, h.open + [owd])
  }

  /** `s` summarizes the history h. */
  ghost predicate Sums(s: Delay, h: History) {
    Summarizes(s, h.closed, h.open)
  }

  /** The queue delay, in ms, is the sample minus the smallest one in the window. */
  predicate Queued(c: Control, owd: u32, h: History) {
    1000.0 * c.queueDelay == (owd - MinOf(Window(h))) as real
  }

  lemma SmallWrap(n: int)
    requires 0 <= n < 0x1_0000_0000
    ensures Wrap32(n) == n
  {
  }

  lemma SampleInWindow(h: History, lastAdd: nat, time: nat, owd: u32)
    ensures owd in Window(Extended(h, lastAdd, time, owd))
  {
    var h' := Extended(h, lastAdd, time, owd);
    assert owd in h.open + [owd];
    if h'.open == [] {
      assert h'.closed[|h'.closed| - 1] == h.open + [owd];
      assert Recent(h'.closed, BUCKETS) == Recent(h.closed, BUCKETS - 1) + (h.open + [owd]) by {
        assert h'.closed[..|h'.closed| - 1] == h.closed;
      }
    }
  }

  /** The queue delay, in ms, is the sample minus the smallest one in the window, this one included. */
  lemma DelayedIs(core: Core, h: History, time: nat, owd: u32)
    requires Sums(core.delay, h)
    ensures var core' := Delayed(core, time, owd);
            var h' := Extended(h, core.delay.lastAdd, time, owd);
            && Sums(core'.delay, h')
            && owd in Window(h') && MinOf(Window(h')) <= owd
            && Queued(core'.c, owd, h')
  {
    var h' := Extended(h, core.delay.lastAdd, time, owd);
    EstimateSummarizes(core.delay, h.closed, h.open, time, owd);
    BaseIsWindowMinimum(Estimate(core.delay, time, owd), h'.closed, h'.open);
    SampleInWindow(h, core.delay.lastAdd, time, owd);
    SmallWrap(owd - Base(Estimate(core.delay, time, owd)));
  }

  /** So it is zero exactly when no sample in the window is smaller. */
  lemma ZeroIff(core: Core, h: History, time: nat, owd: u32)
    requires Sums(core.delay, h)
    ensures Delayed(core, time, owd).c.queueDelay == 0.0
            <==> forall x :: x in Window(Extended(h, core.delay.lastAdd, time, owd)) ==> owd <= x
  {
    var w := Window(Extended(h, core.delay.lastAdd, time, owd));
    DelayedIs(core, h, time, owd);
    MinOfBounds(w);
    forall x | x in w ensures MinOf(w) <= x {
      var i :| 0 <= i < |w| && w[i] == x;
    }
    if MinOf(w) == owd {
      assert forall x :: x in w ==> owd <= x;
    } else {
      assert MinOf(w) in w;
    }
  }

  /** markAcked measures exactly the packet with the highest number, when it is still in its slot: the sample
      is the reported time minus the time it was sent, on 32 bits. */
  lemma MarkAckedMeasures(core: Core, st: StreamState, h: History, time: nat, highest: u16, ack: Word64, timestamp: u32)
    requires core.delay.ptr < BUCKETS && Sums(core.delay, h)
    ensures var core' := MarkAcked(core, st, time, highest, ack, timestamp).0;
            var p := st.ring[SlotOf(highest)];
            var sample := (timestamp - p.timestamp) % 0x1_0000_0000;
            var h' := Extended(h, core.delay.lastAdd, time, sample);
            if p.isUsed && p.seqNr == highest
            then Sums(core'.delay, h') && Queued(core'.c, sample, h')
            else Sums(core'.delay, h) && core'.c.queueDelay == core.c.queueDelay
  {
    DelayedIs(core, h, time, Wrap32(timestamp - st.ring[SlotOf(highest)].timestamp));
  }

  /** The samples after a feedback: the packet with the highest number adds one when it is in its slot. */
  function SamplesAfter(h: History, lastAdd: nat, ring: Ring, time: nat, highest: u16, timestamp: u32): History {
    if Hit(ring, highest) then Extended(h, lastAdd, time, Wrap32(timestamp - ring[SlotOf(highest)].timestamp)) else h
  }

  // ---- round trip times ----

  /** x moves an eighth of the way from the old value to the sample, rounded down. */
  predicate EighthTowards(x: nat, before: nat, sample: nat) {
    8 * x <= 7 * before + sample < 8 * x + 8
  }

  /** A round trip below a second moves the short-term average an eighth of the way; the long-term average follows that one,
      at most once in a short-term round trip. A longer one changes nothing. */
  predicate RttFollows(c: Control, c': Control, time: nat, rtt: nat) {
    && (rtt >= 1_000_000 ==> c'.sRttSh == c.sRttSh && c'.sRtt == c.sRtt && c'.lastSRttUpdate == c.lastSRttUpdate)
    && (rtt < 1_000_000 ==>
          && EighthTowards(c'.sRttSh, c.sRttSh, rtt)
          && if (time - c.lastSRttUpdate) % 0x1_0000_0000_0000_0000 > c'.sRttSh
             then EighthTowards(c'.sRtt, c.sRtt, c'.sRttSh) && c'.lastSRttUpdate == time
             else c'.sRtt == c.sRtt && c'.lastSRttUpdate == c.lastSRttUpdate)
  }

  lemma WithRttFollows(c: Control, time: nat, rtt: nat)
    ensures RttFollows(c, WithRtt(c, time, rtt), time, rtt)
  {
  }

  /** Such an average stays between its old value and the sample. */
  lemma EighthBetween(x: nat, before: nat, sample: nat)
    requires EighthTowards(x, before, sample)
    ensures before <= sample ==> before <= x <= sample
    ensures sample <= before ==> sample <= x <= before
  {
  }

  lemma MeasureFollows(core: Core, p: Transmitted, time: nat, timestamp: u32)
    requires core.delay.ptr < BUCKETS
    ensures RttFollows(core.c, Measure(core, p, time, timestamp).c, time, (time - p.timeTx) % 0x1_0000_0000_0000_0000)
  {
    var delayed := Delayed(core, time, Wrap32(timestamp - p.timestamp));
    WithRttFollows(delayed.c, time, Sub64(time, p.timeTx));
    DelayedKeepsRtt(core, time, Wrap32(timestamp - p.timestamp));
  }

  lemma DelayedKeepsRtt(core: Core, time: nat, owd: u32)
    requires core.delay.ptr < BUCKETS
    ensures var c, c' := core.c, Delayed(core, time, owd).c;
            c'.sRttSh == c.sRttSh && c'.sRtt == c.sRtt && c'.lastSRttUpdate == c.lastSRttUpdate
  {
  }

  /** markAcked measures the round trip of the packet with the highest number since it was sent. */
  lemma MarkAckedFollows(core: Core, st: StreamState, time: nat, highest: u16, ack: Word64, timestamp: u32)
    requires core.delay.ptr < BUCKETS
    ensures var (core', st') := MarkAcked(core, st, time, highest, ack, timestamp);
            var p := st.ring[SlotOf(highest)];
            if p.isUsed && p.seqNr == highest
            then RttFollows(core.c, core'.c, time, (time - p.timeTx) % 0x1_0000_0000_0000_0000) && st'.timeTxAck == p.timeTx
            else core' == core && st'.timeTxAck == st.timeTxAck
  {
    MeasureFollows(core, st.ring[SlotOf(highest)], time, timestamp);
  }

  /** The packet with the highest number, when it is in its slot, gives one sample, the queue delay and a round trip time;
      otherwise nothing is measured. */
  predicate Measures(core: Core, core': Core, ring: Ring, h: History, h': History, time: nat, highest: u16, timestamp: u32) {
    var p := ring[SlotOf(highest)];
    var sample := (timestamp - p.timestamp) % 0x1_0000_0000;
    if p.isUsed && p.seqNr == highest
    then && h' == Extended(h, core.delay.lastAdd, time, sample)
         && Queued(core'.c, sample, h')
         && RttFollows(core.c, core'.c, time, (time - p.timeTx) % 0x1_0000_0000_0000_0000)
    else h' == h && core' == core
  }

  lemma FeedbackMeasures(core: Core, st: StreamState, h: History, time: nat, highest: u16, ack: Word64, timestamp: u32)
    requires core.delay.ptr < BUCKETS && Sums(core.delay, h)
    ensures Measures(core, MarkAcked(core, st, time, highest, ack, timestamp).0, st.ring, h,
                     SamplesAfter(h, core.delay.lastAdd, st.ring, time, highest, timestamp), time, highest, timestamp)
  {
    MarkAckedMeasures(core, st, h, time, highest, ack, timestamp);
    MarkAckedFollows(core, st, time, highest, ack, timestamp);
  }

  // ---- runs ----

  /** The difference of the last sample of a run to the base delay after it. */
  function QueuedAfter(s: Delay, events: seq<DelayEvent>): int
    requires s.ptr < BUCKETS
  {
    if events == [] || events[|events| - 1].ResetNow? then 0
    else events[|events| - 1].owd - Base(After(s, events))
  }

  /** Over every run of samples and resets: the delay measured with the last sample is its distance to the
      smallest sample in the window. */
  lemma QueuedOverRuns(s: Delay, events: seq<DelayEvent>, time: nat, owd: u32)
    requires Summarizes(s, [], [])
    ensures var run := events + [Sample(time, owd)];
            && QueuedAfter(s, run) == owd - MinOf(Window(Sampled(s, run))) >= 0
            && owd in Window(Sampled(s, run))
  {
    var run := events + [Sample(time, owd)];
    assert run[..|run| - 1] == events;
    BaseOverRuns(s, run);
    BaseOverRuns(s, events);
    var s1, h := After(s, events), Sampled(s, events);
    assert Sampled(s, run) == Extended(h, s1.lastAdd, time, owd);
    SampleInWindow(h, s1.lastAdd, time, owd);
    EstimateSummarizes(s1, h.closed, h.open, time, owd);
  }

  // ---- a constant offset of the clocks ----

  /** Every sample of the run stays a sample below the marker for "none" when d is added. */
  ghost predicate Shiftable(events: seq<DelayEvent>, d: int) {
    forall i :: 0 <= i < |events| && events[i].Sample? ==> events[i].owd < NO_SAMPLE && 0 <= events[i].owd + d < NO_SAMPLE
  }

  function ShiftedBy(x: u32, d: int): u32 {
    if 0 <= x + d < 0x1_0000_0000 then x + d else x
  }

  function ShiftedSamples(xs: seq<u32>, d: int): (r: seq<u32>)
    ensures |r| == |xs|
  {
    seq(|xs|, i requires 0 <= i < |xs| => ShiftedBy(xs[i], d))
  }

  function ShiftedBuckets(bs: seq<seq<u32>>, d: int): (r: seq<seq<u32>>)
    ensures |r| == |bs|
  {
    seq(|bs|, i requires 0 <= i < |bs| => ShiftedSamples(bs[i], d))
  }

  function ShiftedRun(events: seq<DelayEvent>, d: int): (r: seq<DelayEvent>)
    ensures |r| == |events|
  {
    seq(|events|, i requires 0 <= i < |events| =>
      match events[i]
      case Sample(time, owd) => Sample(time, ShiftedBy(owd, d))
      case ResetNow => ResetNow)
  }

  /** All samples are below the marker, before and after the shift. */
  ghost predicate AllShift(xs: seq<u32>, d: int) {
    forall i :: 0 <= i < |xs| ==> xs[i] < NO_SAMPLE && 0 <= xs[i] + d < NO_SAMPLE
  }

  lemma {:induction false} MinShifts(xs: seq<u32>, d: int)
    requires xs != [] && AllShift(xs, d)
    ensures MinOf(xs) < NO_SAMPLE && MinOf(ShiftedSamples(xs, d)) == MinOf(xs) + d
  {
    assert ShiftedSamples(xs, d)[1..] == ShiftedSamples(xs[1..], d);
    if |xs| > 1 {
      MinShifts(xs[1..], d);
    }
  }

  lemma ShiftAppend(xs: seq<u32>, ys: seq<u32>, d: int)
    ensures ShiftedSamples(xs + ys, d) == ShiftedSamples(xs, d) + ShiftedSamples(ys, d)
  {
  }

  lemma {:induction false} RecentShifts(closed: seq<seq<u32>>, k: nat, d: int)
    ensures Recent(ShiftedBuckets(closed, d), k) == ShiftedSamples(Recent(closed, k), d)
  {
    if k > 0 && closed != [] {
      var before, last := closed[..|closed| - 1], closed[|closed| - 1];
      RecentShifts(before, k - 1, d);
      assert ShiftedBuckets(closed, d)[..|closed| - 1] == ShiftedBuckets(before, d);
      ShiftAppend(Recent(before, k - 1), last, d);
    }
  }

  /** The buckets of the shifted run are the shifted buckets, closed at the same times. */
  lemma {:induction false} RunShifts(s: Delay, events: seq<DelayEvent>, d: int)
    requires s.ptr < BUCKETS && Shiftable(events, d)
    ensures After(s, ShiftedRun(events, d)).lastAdd == After(s, events).lastAdd
    ensures var h, h' := Sampled(s, events), Sampled(s, ShiftedRun(events, d));
            && h'.closed == ShiftedBuckets(h.closed, d) && h'.open == ShiftedSamples(h.open, d)
            && AllShift(h.open, d) && forall i :: 0 <= i < |h.closed| ==> AllShift(h.closed[i], d)
  {
    if events != [] {
      var before, e := events[..|events| - 1], events[|events| - 1];
      assert ShiftedRun(events, d)[..|events| - 1] == ShiftedRun(before, d);
      assert Shiftable(before, d) by {
        assert forall i :: 0 <= i < |before| ==> before[i] == events[i];
      }
      RunShifts(s, before, d);
      if e.Sample? {
        var h := Sampled(s, before);
        ShiftAppend(h.open, [e.owd], d);
        assert ShiftedSamples([e.owd], d) == [ShiftedBy(e.owd, d)];
        assert ShiftedBuckets(h.closed + [h.open + [e.owd]], d)
            == ShiftedBuckets(h.closed, d) + [ShiftedSamples(h.open + [e.owd], d)];
      }
    }
  }

  lemma {:induction false} RecentAllShift(closed: seq<seq<u32>>, k: nat, d: int)
    requires forall i :: 0 <= i < |closed| ==> AllShift(closed[i], d)
    ensures AllShift(Recent(closed, k), d)
  {
    if k > 0 && closed != [] {
      RecentAllShift(closed[..|closed| - 1], k - 1, d);
    }
  }

  /** A constant offset between the clocks of sender and receiver does not change the queue delay. */
  lemma OffsetInvariant(s: Delay, events: seq<DelayEvent>, time: nat, owd: u32, d: int)
    requires Summarizes(s, [], []) && Shiftable(events + [Sample(time, owd)], d)
    ensures QueuedAfter(s, ShiftedRun(events + [Sample(time, owd)], d)) == QueuedAfter(s, events + [Sample(time, owd)])
  {
    var run := events + [Sample(time, owd)];
    var run' := ShiftedRun(run, d);
    QueuedOverRuns(s, events, time, owd);
    assert run[|run| - 1] == Sample(time, owd);
    assert run' == ShiftedRun(events, d) + [Sample(time, ShiftedBy(owd, d))];
    QueuedOverRuns(s, ShiftedRun(events, d), time, ShiftedBy(owd, d));
    RunShifts(s, run, d);
    var h := Sampled(s, run);
    RecentShifts(h.closed, BUCKETS, d);
    RecentAllShift(h.closed, BUCKETS, d);
    ShiftAppend(Recent(h.closed, BUCKETS), h.open, d);
    assert Window(Sampled(s, run')) == ShiftedSamples(Window(h), d);
    MinShifts(Window(h), d);
  }
}
