/** When the bytes in flight of a single stream are exact. With feedback in order, bytesInFlight
    equals the bytes in used slots that are not past the received edge, as long as at most 2048 numbers
    were used or skipped since the feedback before last. */
module InFlight {
  import opened Words
  import opened Sweep
  import opened TxRing

  /** Slot n in use holds the packet with the unwrapped number num[n]. Numbers may be skipped. */
  ghost predicate Placed(ring: Ring, num: seq<int>, next: int) {
    && |num| == SLOTS
    && forall n :: 0 <= n < SLOTS && ring[n].isUsed ==>
         && 0 <= num[n] < next
         && SlotOf(num[n]) == n
         && ring[n].seqNr == Wrap16(num[n])
  }

  /** The packet with number u is before the edge, or open beyond it. The packet numbered 0 is an exception:
      the first sweep starts at 1, so it may stay open while the edge is below 2048. */
  ghost predicate OpenAt(u: int, edge: int) {
    u > edge || (u == 0 && edge < SLOTS)
  }

  /** The received edge is at `edge`. */
  ghost predicate EdgeAt(ring: Ring, num: seq<int>, edge: int)
    requires |num| == SLOTS
  {
    forall n :: 0 <= n < SLOTS && ring[n].isUsed ==>
      && (ring[n].isAfterReceivedEdge ==> num[n] <= edge)
      && (ring[n].isAcked ==> num[n] <= edge)
      && (!ring[n].isAfterReceivedEdge ==> OpenAt(num[n], edge))
  }

  /** Packets were sent in the order of their numbers, those beyond the edge not before timeTxAck. */
  ghost predicate InSequence(ring: Ring, num: seq<int>, edge: int, timeTxAck: nat, lastTime: nat)
    requires |num| == SLOTS
  {
    && timeTxAck <= lastTime
    && (forall n :: 0 <= n < SLOTS && ring[n].isUsed ==>
          ring[n].timeTx <= lastTime && (num[n] > edge ==> timeTxAck <= ring[n].timeTx))
    && (forall i, j :: 0 <= i < SLOTS && 0 <= j < SLOTS && ring[i].isUsed && ring[j].isUsed && num[i] <= num[j] ==>
          ring[i].timeTx <= ring[j].timeTx)
  }

  ghost predicate Tracks(ring: Ring, num: seq<int>, next: int, edge: int, timeTxAck: nat, lastTime: nat) {
    Placed(ring, num, next) && EdgeAt(ring, num, edge) && InSequence(ring, num, edge, timeTxAck, lastTime)
  }

  /** Within 20000 numbers the 16-bit comparison of detectLoss is right. */
  lemma AtOrBeforeNear(u: int, v: int)
    requires -20000 <= u - v <= 20000
    ensures AtOrBefore(Wrap16(u), Wrap16(v)) <==> u <= v
  {
  }

  /** Feedback with the highest number `highest` names no packet beyond it, whatever its ACK vector. */
  lemma ReportsOnlyUpTo(u: int, highest: int, ack: Word64)
    requires -60000 <= u - highest <= 60000
    requires Reports(Wrap16(highest), ack, Wrap16(u))
    ensures u <= highest
  {
    if Wrap16(u) == Wrap16(highest) {
      NearNumbersDiffer(u, highest);
    }
  }

  /** The ACK marks of a feedback that is in order. */
  lemma MarkedTracks(ring: Ring, num: seq<int>, next: int, edge: int, highest: int, first: nat, last: int,
                     ack: Word64, timeTxAck: nat, lastTime: nat)
    requires Tracks(ring, num, next, edge, timeTxAck, lastTime)
    requires edge <= highest < next && next - 1 - edge <= SLOTS
    ensures var ring' := Marked(ring, first, last, Wrap16(highest), ack);
            && Placed(ring', num, next)
            && InSequence(ring', num, edge, timeTxAck, lastTime)
            && MarkedUpTo(ring', num, edge, highest)
  {
    var ring' := Marked(ring, first, last, Wrap16(highest), ack);
    forall n | 0 <= n < SLOTS && ring'[n].isUsed ensures ring'[n].isAcked ==> num[n] <= highest {
      if Reports(Wrap16(highest), ack, ring[n].seqNr) && num[n] > edge {
        ReportsOnlyUpTo(num[n], highest, ack);
      }
    }
  }

  /** A packet whose slot the sweep over forgotten packets looks at is past the edge already. */
  lemma ForgottenIsPast(ring: Ring, num: seq<int>, next: int, edge: int, before: int, n: nat)
    requires Placed(ring, num, next)
    requires 0 <= before <= edge < next && next - 1 - before <= SLOTS
    requires n < SLOTS && ring[n].isUsed
    requires !ring[n].isAfterReceivedEdge ==> OpenAt(num[n], edge)
    requires var lo := Wrap16(before) + 1; Between(lo, ForgetEnd(lo, Wrap16(edge) + 1), n)
    ensures ring[n].isAfterReceivedEdge
  {
    ForgetRange(before, edge);
    if Wrap16(edge) < Wrap16(before) {
      assert false;
    } else if !ring[n].isAfterReceivedEdge {
      StepVisits(before, edge - before, n, num[n]);
      OpenIsOutside(before, edge, num[n]);
      assert false;
    }
  }

  /** An open packet shares no slot with a number in (before, edge]. */
  lemma OpenIsOutside(before: int, edge: int, u: int)
    requires 0 <= before <= edge && OpenAt(u, edge) && u - 1 - before < SLOTS && edge - before <= SLOTS
    ensures (u - before - 1) % SLOTS >= edge - before
  {
    if u > edge {
      SmallRemainder(u - before - 1);
    } else {
      assert (0 - before - 1) + SLOTS == SLOTS - 1 - before;
      assert (0 - before - 1) % SLOTS == (SLOTS - 1 - before) % SLOTS;
      SmallRemainder(SLOTS - 1 - before);
    }
  }

  /** How far the bytes in flight exceed the open bytes. */
  function Excess(l: Ledger): int {
    l.inFlight - Bytes(l.ring, true)
  }

  /** The packets that the sweep over forgotten packets gives up before they pass the edge. */
  function OpenForgotten(ring: Ring, lo: nat, hi: int): (c: seq<bool>)
    ensures |c| == SLOTS
  {
    seq(SLOTS, n requires 0 <= n < SLOTS => Between(lo, hi, n) && ring[n].isUsed && !ring[n].isAfterReceivedEdge)
  }

  /** What that sweep makes the bytes in flight exceed the open bytes by: exactly the packets it gives
      up before they pass the edge. They are never subtracted, so they count as in flight until the
      next collision or timeout. */
  lemma {:induction false} ForgetLeaks(l: Ledger, lo: nat, hi: int)
    ensures Excess(Forget(l, lo, hi)) == Excess(l) + SizeOf(l.ring, OpenForgotten(l.ring, lo, hi))
    decreases hi - lo
  {
    var open := OpenForgotten(l.ring, lo, hi);
    if lo >= hi {
      SizeOfNone(l.ring, open);
    } else {
      var n := SlotOf(lo);
      var p := l.ring[n];
      var l' := ForgetSlot(l, n);
      ForgetLeaks(l', lo + 1, hi);
      BetweenSplit(lo, hi);
      var open' := OpenForgotten(l'.ring, lo + 1, hi);
      assert open == open'[n := p.isUsed && !p.isAfterReceivedEdge];
      SizeOfChosen(l.ring, open', n, p.isUsed && !p.isAfterReceivedEdge);
      SizeOfSame(l.ring, l'.ring, open');
      BytesUpdate(l.ring, n, p.(isUsed := false), true);
    }
  }

  /** A visit of this slot takes a packet out of use that has not passed the edge. */
  predicate Drops(p: Transmitted, highest: u16, timeTxAck: nat) {
    && p.isUsed && !p.isAfterReceivedEdge && !AtOrBefore(p.seqNr, highest)
    && (IsLate(p, timeTxAck) || p.isAcked)
  }

  /** The packets that the sweep up to the highest number drops before they pass the edge. */
  function OpenDropped(ring: Ring, lo: nat, hi: int, highest: u16, timeTxAck: nat): (c: seq<bool>)
    ensures |c| == SLOTS
  {
    seq(SLOTS, n requires 0 <= n < SLOTS => Between(lo, hi, n) && Drops(ring[n], highest, timeTxAck))
  }

  /** What that sweep makes the bytes in flight exceed the open bytes by. */
  lemma {:induction false} SettleAllLeaks(l: Ledger, lo: nat, hi: int, highest: u16, timeTxAck: nat)
    requires Excess(l) >= 0 && hi - lo <= SLOTS
    ensures Excess(SettleAll(l, lo, hi, highest, timeTxAck))
            == Excess(l) + SizeOf(l.ring, OpenDropped(l.ring, lo, hi, highest, timeTxAck))
    decreases hi - lo
  {
    var open := OpenDropped(l.ring, lo, hi, highest, timeTxAck);
    if lo >= hi {
      SizeOfNone(l.ring, open);
    } else {
      var n := SlotOf(lo);
      var p := l.ring[n];
      var l' := Settle(l, n, highest, timeTxAck);
      BytesUpdate(l.ring, n, SettleSlot(p, highest, timeTxAck), true);
      BytesAtLeast(l.ring, n, true);
      SettleAllLeaks(l', lo + 1, hi, highest, timeTxAck);
      BetweenSplit(lo, hi);
      var open' := OpenDropped(l'.ring, lo + 1, hi, highest, timeTxAck);
      assert open == open'[n := Drops(p, highest, timeTxAck)];
      SizeOfChosen(l.ring, open', n, Drops(p, highest, timeTxAck));
      SizeOfSame(l.ring, l'.ring, open');
    }
  }

  /** The first sweep of loss detection looks at slot n. */
  predicate Forgets(lastLossIx: int, first: nat, n: nat) {
    lastLossIx >= 0 && Between(lastLossIx, ForgetEnd(lastLossIx, first), n)
  }

  /** Loss detection gives up the packet in slot n before it passes the edge: because it is out of the
      reach of the ACK vector, or because it is late or acknowledged while its number does not compare
      as at or before the highest one. */
  predicate Leaks(p: Transmitted, n: nat, lastLossIx: int, first: nat, highest: u16, timeTxAck: nat) {
    && p.isUsed && !p.isAfterReceivedEdge
    && (|| Forgets(lastLossIx, first, n)
        || (Visited(first, SweepEnd(first, highest), n) && Drops(p, highest, timeTxAck)))
  }

  function LeakingSlots(ring: Ring, lastLossIx: int, first: nat, highest: u16, timeTxAck: nat): (c: seq<bool>)
    ensures |c| == SLOTS
  {
    seq(SLOTS, n requires 0 <= n < SLOTS => Leaks(ring[n], n, lastLossIx, first, highest, timeTxAck))
  }

  lemma {:induction false} SizeOfUnion(ring: seq<Transmitted>, a: seq<bool>, b: seq<bool>, c: seq<bool>)
    requires |ring| == |a| == |b| == |c|
    requires forall n :: 0 <= n < |c| ==> !(a[n] && b[n]) && (c[n] <==> a[n] || b[n])
    ensures SizeOf(ring, c) == SizeOf(ring, a) + SizeOf(ring, b)
  {
    if ring != [] {
      assert forall n :: 0 <= n < |c[1..]| ==> a[1..][n] == a[n + 1] && b[1..][n] == b[n + 1] && c[1..][n] == c[n + 1];
      SizeOfUnion(ring[1..], a[1..], b[1..], c[1..]);
    }
  }

  lemma {:induction false} SizeOfZeroIff(ring: seq<Transmitted>, chosen: seq<bool>)
    requires |ring| == |chosen|
    ensures SizeOf(ring, chosen) == 0 <==> forall n :: 0 <= n < |ring| && chosen[n] ==> ring[n].size == 0
  {
    if ring != [] {
      SizeOfZeroIff(ring[1..], chosen[1..]);
      assert forall n :: 0 < n < |ring| ==> ring[n] == ring[1..][n - 1] && chosen[n] == chosen[1..][n - 1];
    }
  }

  /** What loss detection makes the bytes in flight exceed the open bytes by, for any ring, any feedback
      and any history: exactly the bytes of the packets it gives up before they pass the edge. */
  lemma DetectLeaks(l: Ledger, lastLossIx: int, first: nat, highest: u16, timeTxAck: nat)
    requires Excess(l) >= 0
    ensures Excess(Detect(l, lastLossIx, first, highest, timeTxAck))
            == Excess(l) + SizeOf(l.ring, LeakingSlots(l.ring, lastLossIx, first, highest, timeTxAck))
  {
    var last := SweepEnd(first, highest);
    var leaking := LeakingSlots(l.ring, lastLossIx, first, highest, timeTxAck);
    SweepIsShort(first, highest);
    if lastLossIx >= 0 {
      var end := ForgetEnd(lastLossIx, first);
      var l1 := Forget(l, lastLossIx, end);
      ForgetLeaks(l, lastLossIx, end);
      SettleAllLeaks(l1, first, last + 1, highest, timeTxAck);
      ForgetFrame(l, lastLossIx, end);
      var dropped := OpenDropped(l1.ring, first, last + 1, highest, timeTxAck);
      SizeOfSame(l1.ring, l.ring, dropped);
      SizeOfUnion(l.ring, OpenForgotten(l.ring, lastLossIx, end), dropped, leaking);
    } else {
      SettleAllLeaks(l, first, last + 1, highest, timeTxAck);
      assert leaking == OpenDropped(l.ring, first, last + 1, highest, timeTxAck);
    }
  }

  /** So exact bytes in flight stay exact if and only if no packet with bytes is given up like that. */
  lemma DetectExactIff(l: Ledger, lastLossIx: int, first: nat, highest: u16, timeTxAck: nat)
    requires Excess(l) == 0
    ensures Excess(Detect(l, lastLossIx, first, highest, timeTxAck)) == 0
            <==> forall n :: 0 <= n < SLOTS && Leaks(l.ring[n], n, lastLossIx, first, highest, timeTxAck) ==>
                   l.ring[n].size == 0
  {
    DetectLeaks(l, lastLossIx, first, highest, timeTxAck);
    var leaking := LeakingSlots(l.ring, lastLossIx, first, highest, timeTxAck);
    SizeOfZeroIff(l.ring, leaking);
    assert forall n :: 0 <= n < SLOTS ==> leaking[n] == Leaks(l.ring[n], n, lastLossIx, first, highest, timeTxAck);
  }

  /** What the ring looks like between the ACK marks and the sweeps of a feedback. */
  ghost predicate MarkedUpTo(ring: Ring, num: seq<int>, edge: int, highest: int)
    requires |num| == SLOTS
  {
    forall n :: 0 <= n < SLOTS && ring[n].isUsed ==>
      && (ring[n].isAcked ==> num[n] <= highest)
      && (ring[n].isAfterReceivedEdge ==> num[n] <= edge)
      && (!ring[n].isAfterReceivedEdge ==> OpenAt(num[n], edge))
  }

  /** The sweep over forgotten packets. */
  lemma ForgetTracks(l: Ledger, num: seq<int>, next: int, edge: int, before: int, highest: int,
                     timeTxAck: nat, lastTime: nat)
    requires l.inFlight == Bytes(l.ring, true)
    requires Placed(l.ring, num, next) && InSequence(l.ring, num, highest, timeTxAck, lastTime)
    requires 0 <= before <= edge <= highest < next && next - 1 - before <= SLOTS
    requires MarkedUpTo(l.ring, num, edge, highest)
    ensures var lo := Wrap16(before) + 1;
            var l' := Forget(l, lo, ForgetEnd(lo, Wrap16(edge) + 1));
            && l'.inFlight == Bytes(l'.ring, true)
            && Placed(l'.ring, num, next) && InSequence(l'.ring, num, highest, timeTxAck, lastTime)
            && MarkedUpTo(l'.ring, num, edge, highest)
  {
    var lo := Wrap16(before) + 1;
    var end := ForgetEnd(lo, Wrap16(edge) + 1);
    forall n | 0 <= n < SLOTS && Between(lo, end, n) && l.ring[n].isUsed ensures l.ring[n].isAfterReceivedEdge {
      ForgottenIsPast(l.ring, num, next, edge, before, n);
    }
    ForgetLeaks(l, lo, end);
    SizeOfNone(l.ring, OpenForgotten(l.ring, lo, end));
    ForgetFrame(l, lo, end);
  }

  lemma SweepFrame(l: Ledger, first: nat, highest: u16, timeTxAck: nat)
    ensures forall n: nat :: n < SLOTS ==>
              SettleAll(l, first, SweepEnd(first, highest) + 1, highest, timeTxAck).ring[n]
              == if Visited(first, SweepEnd(first, highest), n) then SettleSlot(l.ring[n], highest, timeTxAck) else l.ring[n]
  {
    SweepIsShort(first, highest);
    forall n: nat | n < SLOTS
      ensures SettleAll(l, first, SweepEnd(first, highest) + 1, highest, timeTxAck).ring[n]
              == if Visited(first, SweepEnd(first, highest), n) then SettleSlot(l.ring[n], highest, timeTxAck) else l.ring[n]
    {
      SettleAllAt(l, first, SweepEnd(first, highest) + 1, highest, timeTxAck, n);
    }
  }

  /** A feedback in order drops no packet that has not passed the edge. */
  lemma NothingDropped(ring: Ring, num: seq<int>, next: int, edge: int, highest: int, timeTxAck: nat, lastTime: nat)
    requires Placed(ring, num, next) && InSequence(ring, num, highest, timeTxAck, lastTime)
    requires 0 <= edge <= highest < next && next - 1 - edge <= SLOTS
    requires MarkedUpTo(ring, num, edge, highest)
    ensures forall n :: 0 <= n < SLOTS ==> !Drops(ring[n], Wrap16(highest), timeTxAck)
  {
    forall n | 0 <= n < SLOTS ensures !Drops(ring[n], Wrap16(highest), timeTxAck) {
      if ring[n].isUsed && !ring[n].isAfterReceivedEdge {
        AtOrBeforeNear(num[n], highest);
      }
    }
  }

  lemma SweepKeepsExact(l: Ledger, first: nat, highest: u16, timeTxAck: nat)
    requires l.inFlight == Bytes(l.ring, true)
    requires forall n :: 0 <= n < SLOTS ==> !Drops(l.ring[n], highest, timeTxAck)
    ensures var l' := SettleAll(l, first, SweepEnd(first, highest) + 1, highest, timeTxAck);
            l'.inFlight == Bytes(l'.ring, true)
  {
    SweepIsShort(first, highest);
    SettleAllLeaks(l, first, SweepEnd(first, highest) + 1, highest, timeTxAck);
    SizeOfNone(l.ring, OpenDropped(l.ring, first, SweepEnd(first, highest) + 1, highest, timeTxAck));
  }

  /** The sweep up to the highest number. */
  lemma SettleTracks(l: Ledger, num: seq<int>, next: int, edge: int, highest: int, timeTxAck: nat, lastTime: nat)
    requires l.inFlight == Bytes(l.ring, true)
    requires Placed(l.ring, num, next) && InSequence(l.ring, num, highest, timeTxAck, lastTime)
    requires 0 <= edge <= highest < next && highest - edge <= SLOTS && next - 1 - edge <= SLOTS
    requires MarkedUpTo(l.ring, num, edge, highest)
    ensures var first, h := Wrap16(edge) + 1, Wrap16(highest);
            var l' := SettleAll(l, first, SweepEnd(first, h) + 1, h, timeTxAck);
            && l'.inFlight == Bytes(l'.ring, true)
            && Tracks(l'.ring, num, next, highest, timeTxAck, lastTime)
  {
    var first, h := Wrap16(edge) + 1, Wrap16(highest);
    NothingDropped(l.ring, num, next, edge, highest, timeTxAck, lastTime);
    SweepKeepsExact(l, first, h, timeTxAck);
    SweepFrame(l, first, h, timeTxAck);
    SettledTracks(l.ring, SettleAll(l, first, SweepEnd(first, h) + 1, h, timeTxAck).ring,
                  num, next, edge, highest, timeTxAck, lastTime);
  }

  /** A feedback that is in order and names a sent packet keeps the bytes in flight exact. */
  lemma DetectExact(l: Ledger, num: seq<int>, next: int, edge: int, before: int, highest: int, lastLossIx: int,
                    timeTxAck: nat, lastTime: nat)
    requires l.inFlight == Bytes(l.ring, true)
    requires Placed(l.ring, num, next) && InSequence(l.ring, num, highest, timeTxAck, lastTime)
    requires 0 <= before <= edge <= highest < next && next - 1 - before <= SLOTS
    requires lastLossIx == -1 || lastLossIx == Wrap16(before) + 1
    requires MarkedUpTo(l.ring, num, edge, highest)
    ensures var l' := Detect(l, lastLossIx, Wrap16(edge) + 1, Wrap16(highest), timeTxAck);
            && l'.inFlight == Bytes(l'.ring, true)
            && Tracks(l'.ring, num, next, highest, timeTxAck, lastTime)
  {
    var first := Wrap16(edge) + 1;
    if lastLossIx >= 0 {
      ForgetTracks(l, num, next, edge, before, highest, timeTxAck, lastTime);
      SettleTracks(Forget(l, lastLossIx, ForgetEnd(lastLossIx, first)), num, next, edge, highest, timeTxAck, lastTime);
    } else {
      SettleTracks(l, num, next, edge, highest, timeTxAck, lastTime);
    }
  }

  /** The sweep reaches every packet between the old and the new edge. */
  lemma SweepReaches(edge: int, highest: int, u: int)
    requires 0 <= edge <= highest && highest - edge <= SLOTS && edge < u <= highest
    ensures Visited(Wrap16(edge) + 1, SweepEnd(Wrap16(edge) + 1, Wrap16(highest)), SlotOf(u))
  {
    StepEnd(edge, highest - edge);
    StepVisits(edge, highest - edge, SlotOf(u), u);
    SmallRemainder(u - edge - 1);
  }

  lemma SettledTracks(ring: Ring, ring': Ring, num: seq<int>, next: int, edge: int, highest: int,
                      timeTxAck: nat, lastTime: nat)
    requires Placed(ring, num, next) && InSequence(ring, num, highest, timeTxAck, lastTime)
    requires 0 <= edge <= highest < next && highest - edge <= SLOTS && next - 1 - edge <= SLOTS
    requires MarkedUpTo(ring, num, edge, highest)
    requires forall n: nat :: n < SLOTS ==>
               ring'[n] == if Visited(Wrap16(edge) + 1, SweepEnd(Wrap16(edge) + 1, Wrap16(highest)), n)
                           then SettleSlot(ring[n], Wrap16(highest), timeTxAck) else ring[n]
    ensures Tracks(ring', num, next, highest, timeTxAck, lastTime)
  {
    forall n | 0 <= n < SLOTS && ring'[n].isUsed
      ensures ring[n].isUsed
      ensures ring'[n].timeTx == ring[n].timeTx && ring'[n].seqNr == ring[n].seqNr
      ensures (ring'[n].isAcked ==> num[n] <= highest)
      ensures (ring'[n].isAfterReceivedEdge ==> num[n] <= highest)
      ensures (!ring'[n].isAfterReceivedEdge ==> OpenAt(num[n], highest))
    {
      if !ring[n].isAfterReceivedEdge {
        AtOrBeforeNear(num[n], highest);
        if edge < num[n] <= highest {
          SweepReaches(edge, highest, num[n]);
        } else if num[n] == 0 && highest >= SLOTS {
          SweepReaches(edge, highest, SLOTS);
        }
      }
    }
  }

  // ---- the limit of 2048 packets ----

  /** The ring after 2047, 2048 and 2049 were sent, and nothing before. */
  function LateStart(time: nat, size: nat): Ring {
    seq(SLOTS, _ => UNUSED)[2047 := Fresh(2047, time, size)][0 := Fresh(2048, time, size)][1 := Fresh(2049, time, size)]
  }

  lemma LateStartBytes(time: nat, size: nat)
    ensures Bytes(LateStart(time, size), true) == 3 * size
  {
    var ring: Ring := seq(SLOTS, _ => UNUSED);
    BytesOfUnused(ring, true);
    BytesUpdate(ring, 2047, Fresh(2047, time, size), true);
    BytesUpdate(ring[2047 := Fresh(2047, time, size)], 0, Fresh(2048, time, size), true);
    BytesUpdate(ring[2047 := Fresh(2047, time, size)][0 := Fresh(2048, time, size)], 1, Fresh(2049, time, size), true);
  }

  /** The first feedback sweeps from index 1, because the highest acknowledged number starts as 0. It
      reaches only one of the three packets. */
  lemma FirstFeedback(time: nat, size: nat, ack: Word64)
    ensures var l := Ledger(Marked(LateStart(time, size), 1, SweepEnd(1, 2049), 2049, ack), 3 * size, 0, 0, 0, false);
            var l1 := Detect(l, -1, 1, 2049, time);
            && Excess(l1) == 0
            && !l1.ring[1].isUsed
            && l1.ring[0] == Fresh(2048, time, size) && l1.ring[2047] == Fresh(2047, time, size)
            && forall n :: 2 <= n < 2047 ==> !l1.ring[n].isUsed
  {
    var ring := LateStart(time, size);
    LateStartBytes(time, size);
    BytesMarked(ring, 1, 1, 2049, ack, true);
    assert SweepEnd(1, 2049) == 1;
    var l := Ledger(Marked(ring, 1, 1, 2049, ack), 3 * size, 0, 0, 0, false);
    DetectLeaks(l, -1, 1, 2049, time);
    SizeOfNone(l.ring, LeakingSlots(l.ring, -1, 1, 2049, time));
    forall n: nat | n < SLOTS
      ensures Detect(l, -1, 1, 2049, time).ring[n] == if n == 1 then SettleSlot(l.ring[n], 2049, time) else ring[n]
    {
      SettleAllAt(l, 1, 2, 2049, time, n);
      OnlyOne(n);
    }
  }

  lemma OnlyOne(n: nat)
    requires n < SLOTS
    ensures Visited(1, 1, n) <==> n == 1
  {
  }

  lemma WholeRing(n: nat)
    requires n < SLOTS
    ensures Between(1, 2050, n)
  {
  }

  lemma SecondDetect(l: Ledger, time: nat, size: nat, ack: Word64)
    requires Excess(l) == 0
    requires forall n :: 0 <= n < SLOTS ==> (l.ring[n].isUsed <==> n == 0 || n == 2047)
    requires l.ring[0].size == l.ring[2047].size == size
    requires !l.ring[0].isAfterReceivedEdge && !l.ring[2047].isAfterReceivedEdge
    ensures var ring := Marked(l.ring, 2050, SweepEnd(2050, 2049), 2049, ack);
            Excess(Detect(l.(ring := ring), 1, 2050, 2049, time)) == 2 * size
  {
    var ring := Marked(l.ring, 2050, SweepEnd(2050, 2049), 2049, ack);
    BytesMarked(l.ring, 2050, SweepEnd(2050, 2049), 2049, ack, true);
    DetectLeaks(l.(ring := ring), 1, 2050, 2049, time);
    SecondFeedback(ring, time, size);
  }

  /** The second one gives up the other two. */
  lemma SecondFeedback(ring: Ring, time: nat, size: nat)
    requires forall n :: 0 <= n < SLOTS ==> (ring[n].isUsed <==> n == 0 || n == 2047)
    requires ring[0].size == ring[2047].size == size
    requires !ring[0].isAfterReceivedEdge && !ring[2047].isAfterReceivedEdge
    ensures SizeOf(ring, LeakingSlots(ring, 1, 2050, 2049, time)) == 2 * size
  {
    var none := seq(SLOTS, _ => false);
    forall n | 0 <= n < SLOTS ensures LeakingSlots(ring, 1, 2050, 2049, time)[n] == none[2047 := true][0 := true][n] {
      WholeRing(n);
    }
    assert LeakingSlots(ring, 1, 2050, 2049, time) == none[2047 := true][0 := true];
    SizeOfNone(ring, none);
    SizeOfChosen(ring, none, 2047, true);
    SizeOfChosen(ring, none[2047 := true], 0, true);
  }

  /** The limit of 2048 packets since the feedback before last is sharp; before the second feedback it
      counts from number 0, where the highest acknowledged number starts. When 2047, 2048 and 2049 are sent,
      one too many, and acknowledged by two feedbacks with the highest number 2049, in order and naming sent
      packets, two of them are given up as lost before they pass the edge, whatever the ACK vectors say, and
      their bytes stay in flight. */
  lemma LateStartLeaks(time: nat, size: nat, ack: Word64, ack': Word64)
    ensures var l := Ledger(Marked(LateStart(time, size), 1, SweepEnd(1, 2049), 2049, ack), 3 * size, 0, 0, 0, false);
            var l1 := Detect(l, -1, 1, 2049, time);
            var l2 := Detect(l1.(ring := Marked(l1.ring, 2050, SweepEnd(2050, 2049), 2049, ack')), 1, 2050, 2049, time);
            Excess(l) == 0 && Excess(l1) == 0 && Excess(l2) == 2 * size
  {
    FirstFeedback(time, size, ack);
    LateStartBytes(time, size);
    BytesMarked(LateStart(time, size), 1, SweepEnd(1, 2049), 2049, ack, true);
    var l := Ledger(Marked(LateStart(time, size), 1, SweepEnd(1, 2049), 2049, ack), 3 * size, 0, 0, 0, false);
    var l1 := Detect(l, -1, 1, 2049, time);
    SecondDetect(l1, time, size, ack');
  }
}
