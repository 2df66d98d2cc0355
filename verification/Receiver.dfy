/** The receiver's compression of its reception history (ScreamRx::Stream::receive):
    a 16-bit highest sequence number and a 64-bit ACK vector. */
module Receiver {
  import opened Arithmetic
  import opened Words

  /** What `receive` keeps of the history. */
  datatype Reception = Reception(started: bool, highest: u16, ack: Word64)

  const NOTHING_RECEIVED: Reception := Reception(false, 0, Zero64())

  const REORDER_REACH := 16384

  /** How far an arrival is ahead of the highest number (negative: behind), after the
      wrap-around correction of whichever of the two numbers seems to have wrapped. */
  function Displacement(seqNr: u16, highest: u16): int {
    var seqExt := if seqNr < highest && highest - seqNr > REORDER_REACH then seqNr + 65536 else seqNr;
    var highestExt := if highest < seqNr && seqNr - highest > REORDER_REACH then highest + 65536 else highest;
    seqExt - highestExt
  }

  /** The ACK vector after the highest number moved up by d > 0. */
  function Advance(ack: Word64, d: nat): Word64
    requires d > 0
  {
    if d >= 64 then Zero64() else BitOr(ShiftLeft(ack, d), OneBit(d - 1))
  }

  /** The ACK vector after an arrival d > 0 behind the highest number. */
  function Fill(ack: Word64, d: nat): Word64
    requires d > 0
  {
    if d < 64 then BitOr(ack, OneBit(d - 1)) else ack
  }

  /** One arrival, as a function of what was kept before. */
  function Arrive(s: Reception, seqNr: u16): Reception {
    var highest := if s.started then s.highest else Wrap16(seqNr - 1);
    var d := Displacement(seqNr, highest);
    if d > 0 then Reception(true, seqNr, Advance(s.ack, d))
    else if d == 0 then Reception(true, seqNr, s.ack)
    else Reception(true, highest, Fill(s.ack, -d))
  }

  /** The packets the ACK vector may name: those received, and the predecessor of the first
      packet received, which the code pretends was the highest number before it. */
  predicate Named(got: set<int>, first: int, u: int) {
    u in got || u == first - 1
  }

  /** `s` compresses the history in which the unwrapped numbers `got` arrived, `first` at first
      and `top` being the largest: bits 0..62 tell exactly which numbers are named, bit 63 never
      names a packet that is not. */
  ghost predicate Compresses(s: Reception, got: set<int>, first: int, top: int) {
    && s.started
    && first in got && top in got
    && (forall u :: u in got ==> u <= top)
    && s.highest == Wrap16(top)
    && (forall k :: 0 <= k < 63 ==> (s.ack[k] <==> Named(got, first, top - 1 - k)))
    && (s.ack[63] ==> Named(got, first, top - 64))
  }

  lemma FirstArrival(u: int)
    ensures Compresses(Arrive(NOTHING_RECEIVED, Wrap16(u)), {u}, u, u)
  {
    var s := Arrive(NOTHING_RECEIVED, Wrap16(u));
    assert s.ack == BitOr(ShiftLeft(Zero64(), 1), OneBit(0));
  }

  /** The correction gives the true distance when the arrival is within reach of the highest. */
  lemma DisplacementWithinReach(top: int, u: int)
    requires -REORDER_REACH <= u - top <= REORDER_REACH
    ensures Displacement(Wrap16(u), Wrap16(top)) == u - top
  {
  }

  /** ACK vector refinement, one arrival: loss, duplication and reordering within reach keep
      the compression exact. */
  lemma ArrivalRefines(s: Reception, got: set<int>, first: int, top: int, u: int)
    requires Compresses(s, got, first, top)
    requires -REORDER_REACH <= u - top <= REORDER_REACH
    ensures Compresses(Arrive(s, Wrap16(u)), got + {u}, first, MaxInt(top, u))
  {
    DisplacementWithinReach(top, u);
    var s' := Arrive(s, Wrap16(u));
    if u > top {
      var d := u - top;
      forall k | 0 <= k < 63
        ensures s'.ack[k] <==> Named(got + {u}, first, u - 1 - k)
      {
        if d < 64 && k >= d {
          assert u - 1 - k == top - 1 - (k - d);
        }
      }
      if s'.ack[63] && d < 63 {
        assert s.ack[63 - d];
        assert u - 64 == top - 1 - (63 - d);
      }
    } else if u < top {
      forall k | 0 <= k < 63
        ensures s'.ack[k] <==> Named(got + {u}, first, top - 1 - k)
      {
      }
    }
  }

  /** The state after the arrivals `us`, oldest first. */
  function ArriveAll(us: seq<int>): Reception {
    if us == [] then NOTHING_RECEIVED else Arrive(ArriveAll(us[..|us| - 1]), Wrap16(us[|us| - 1]))
  }

  function Arrived(us: seq<int>): set<int> {
    set u | u in us
  }

  function Highest(us: seq<int>): int
    requires us != []
  {
    if |us| == 1 then us[0] else MaxInt(Highest(us[..|us| - 1]), us[|us| - 1])
  }

  /** Each arrival is within reach of the highest number that arrived before it. */
  ghost predicate WithinReach(us: seq<int>) {
    forall i {:trigger us[i]} :: 0 < i < |us| ==> -REORDER_REACH <= us[i] - Highest(us[..i]) <= REORDER_REACH
  }

  lemma ReachOfPrefix(us: seq<int>)
    requires |us| > 1 && WithinReach(us)
    ensures WithinReach(us[..|us| - 1])
    ensures -REORDER_REACH <= us[|us| - 1] - Highest(us[..|us| - 1]) <= REORDER_REACH
  {
    var n := |us| - 1;
    var before := us[..n];
    assert -REORDER_REACH <= us[n] - Highest(us[..n]) <= REORDER_REACH;
    forall i {:trigger before[i]} | 0 < i < n
      ensures -REORDER_REACH <= before[i] - Highest(before[..i]) <= REORDER_REACH
    {
      assert before[..i] == us[..i] && before[i] == us[i];
    }
  }

  lemma ArrivedGrows(before: seq<int>, u: int)
    ensures Arrived(before + [u]) == Arrived(before) + {u}
  {
  }

  /** ACK vector refinement over every run: whatever was lost, duplicated or reordered within
      reach, 80 bits describe the last 64 packets. */
  lemma {:induction false} RunRefines(us: seq<int>)
    requires us != [] && WithinReach(us)
    ensures Compresses(ArriveAll(us), Arrived(us), us[0], Highest(us))
  {
    var n := |us| - 1;
    var before, u := us[..n], us[n];
    assert us == before + [u];
    ArrivedGrows(before, u);
    if n == 0 {
      FirstArrival(u);
      assert before == [] && Arrived(us) == {u};
    } else {
      ReachOfPrefix(us);
      RunRefines(before);
      ArrivalRefines(ArriveAll(before), Arrived(before), us[0], Highest(before), u);
    }
  }

  /** From the highest number h, an arrival e numbers away is read as e numbers away. */
  predicate ReadsTrue(h: u16, e: int) {
    Displacement(Wrap16(h + e), h) == e
  }

  /** The reach of 16384 is exact: a displacement e is read correctly whatever the current
      highest number is, if and only if it is at most 16384 in size. */
  lemma ReachIsExact(e: int)
    ensures (forall h: u16 :: ReadsTrue(h, e)) <==> -REORDER_REACH <= e <= REORDER_REACH
  {
    if -REORDER_REACH <= e <= REORDER_REACH {
      forall h: u16 ensures ReadsTrue(h, e) {
        DisplacementWithinReach(h, h + e);
      }
    } else {
      assert !ReadsTrue(if e > 0 then 0 else 65535, e);
    }
  }

  /** All 64 bits are exact. */
  ghost predicate Exact(s: Reception, got: set<int>, first: int, top: int) {
    Compresses(s, got, first, top) && (s.ack[63] <==> Named(got, first, top - 64))
  }

  /** Bit 63 stays exact unless the arrival is exactly 64 ahead of the highest number, or is
      exactly 64 behind it and not named yet: the two comparisons with 64 in the code. */
  lemma LastBitExactIff(s: Reception, got: set<int>, first: int, top: int, u: int)
    requires Exact(s, got, first, top)
    requires -REORDER_REACH <= u - top <= REORDER_REACH
    ensures Exact(Arrive(s, Wrap16(u)), got + {u}, first, MaxInt(top, u))
            <==> u != top + 64 && !(u == top - 64 && !s.ack[63])
  {
    DisplacementWithinReach(top, u);
    ArrivalRefines(s, got, first, top, u);
    var s' := Arrive(s, Wrap16(u));
    if top < u < top + 64 {
      var d := u - top;
      assert s'.ack[63] == (s.ack[63 - d] || d - 1 == 63);
      assert u - 64 == top - 1 - (63 - d);
    }
  }

  /** The wrap-around correction of `receive`. */
  method Extend(seqNr: u16, highestSeqNr: u16) returns (seqNrExt: nat, highestSeqNrExt: nat)
    ensures seqNrExt - highestSeqNrExt == Displacement(seqNr, highestSeqNr)
  {
    seqNrExt, highestSeqNrExt := seqNr, highestSeqNr;
    if seqNr < highestSeqNr && highestSeqNr - seqNr > REORDER_REACH {
      seqNrExt := seqNrExt + 65536;
    }
    if highestSeqNr < seqNr && seqNr - highestSeqNr > REORDER_REACH {
      highestSeqNrExt := highestSeqNrExt + 65536;
    }
  }

  /** One received source (ScreamRx::Stream). */
  class RxStream {
    const ssrc: u32
    var firstReceived: bool
    var highestSeqNr: u16
    var highestSeqNrTx: u16
    var ackVector: Word64
    var receiveTimestamp: u32
    var ecnCeMarkedBytes: u16
    var lastFeedbackTime: nat
    var rtpSinceLastRtcp: nat

    constructor (ssrc: u32)
      ensures this.ssrc == ssrc
      ensures Kept() == NOTHING_RECEIVED
      ensures lastFeedbackTime == 0 && rtpSinceLastRtcp == 0 && ecnCeMarkedBytes == 0
    {
      this.ssrc := ssrc;
      firstReceived, highestSeqNr, highestSeqNrTx, ackVector := false, 0, 0, Zero64();
      receiveTimestamp, ecnCeMarkedBytes, lastFeedbackTime, rtpSinceLastRtcp := 0, 0, 0, 0;
    }

    function Kept(): Reception
      reads this
    {
      Reception(firstReceived, highestSeqNr, ackVector)
    }

    /** The packet is recorded in the highest number and the ACK vector. */
    method Record(seqNr: u16)
      modifies this`firstReceived, this`highestSeqNr, this`ackVector
      ensures Kept() == Arrive(old(Kept()), seqNr)
    {
      if !firstReceived {
        highestSeqNr := Wrap16(seqNr - 1);
        firstReceived := true;
      }
      var seqNrExt, highestSeqNrExt := Extend(seqNr, highestSeqNr);
      if seqNrExt >= highestSeqNrExt {
        var diff := seqNrExt - highestSeqNrExt;
        if diff != 0 {
          if diff >= 64 {
            ackVector := Zero64();
          } else {
            ackVector := ShiftLeft(ackVector, diff);
            ackVector := BitOr(ackVector, OneBit(diff - 1));
          }
        }
        highestSeqNr := seqNr;
      } else {
        var diff := highestSeqNrExt - seqNrExt;
        if diff < 64 {
          ackVector := BitOr(ackVector, OneBit(diff - 1));
        }
      }
    }

    method Receive(time: nat, size: nat, seqNr: u16, isEcnCe: bool)
      modifies this
      ensures Kept() == Arrive(old(Kept()), seqNr)
      ensures rtpSinceLastRtcp == old(rtpSinceLastRtcp) + 1
      ensures receiveTimestamp == Wrap32(time / 1000)
      ensures ecnCeMarkedBytes == if isEcnCe then Wrap16(old(ecnCeMarkedBytes) + size) else old(ecnCeMarkedBytes)
      ensures highestSeqNrTx == old(highestSeqNrTx) && lastFeedbackTime == old(lastFeedbackTime)
    {
      rtpSinceLastRtcp := rtpSinceLastRtcp + 1;
      Record(seqNr);
      receiveTimestamp := Wrap32(time / 1000);
      if isEcnCe {
        ecnCeMarkedBytes := Wrap16(ecnCeMarkedBytes + size);
      }
    }
  }
}
