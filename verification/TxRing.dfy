/** The sender's ring of transmitted packets and the accounting that ScreamTx::addTransmitted,
    markAcked and detectLoss do on it, as functions of the state before. */
module TxRing {
  import opened Words
  import opened Sweep

  datatype Transmitted = Transmitted(
    timeTx: nat, timestamp: nat, size: nat, seqNr: u16,
    isUsed: bool, isAcked: bool, isAfterReceivedEdge: bool)

  /** The 2048 slots of one stream. */
  type Ring = r: seq<Transmitted> | |r| == SLOTS witness seq(SLOTS, _ => UNUSED)

  const UNUSED: Transmitted := Transmitted(0, 0, 0, 0, false, false, false)

  /** The slot of a packet that is sent now. */
  function Fresh(seqNr: u16, time: nat, size: nat): Transmitted {
    Transmitted(time, Wrap32(time / 1000), size, seqNr, true, false, false)
  }

  /** Packets overtaken by an acknowledged packet that was sent this much later are lost (us). */
  const REORDER_TIME := 20000

  /** Every slot in use holds a packet whose number belongs there. */
  ghost predicate Aligned(ring: Ring) {
    forall n :: 0 <= n < SLOTS && ring[n].isUsed ==> SlotOf(ring[n].seqNr) == n
  }

  function Cleared(ring: Ring): Ring {
    seq(SLOTS, n requires 0 <= n < SLOTS => ring[n].(isUsed := false))
  }

  // ---- ScreamTx::markAcked ----

  /** Feedback with this highest number and ACK vector reports packet `seqNr` as received. */
  predicate Reports(highest: u16, ack: Word64, seqNr: u16) {
    seqNr == highest || (var diff := Wrap16(highest - seqNr - 1); diff < 64 && ack[diff])
  }

  function MarkSlot(p: Transmitted, highest: u16, ack: Word64): Transmitted {
    if p.isUsed && Reports(highest, ack, p.seqNr) then p.(isAcked := true) else p
  }

  /** The ring after the ACK marks of one sweep. */
  function Marked(ring: Ring, first: nat, last: int, highest: u16, ack: Word64): Ring {
    seq(SLOTS, n requires 0 <= n < SLOTS =>
      if Visited(first, last, n) then MarkSlot(ring[n], highest, ack) else ring[n])
  }

  // ---- ScreamTx::detectLoss ----

  /** A ring with the byte counts that follow it: bytes in flight and newly acknowledged (shared by
      all streams), acknowledged and lost (of this stream); and whether a packet was given up. */
  datatype Ledger = Ledger(ring: Ring, inFlight: int, newlyAcked: int, acked: int, lost: int, gaveUp: bool)

  function Floor0(n: int): int {
    if n < 0 then 0 else n
  }

  /** Slot n leaves the reach of the ACK vector: a packet still in use is lost. */
  function ForgetSlot(l: Ledger, n: nat): Ledger
    requires n < SLOTS
  {
    var p := l.ring[n];
    if p.isUsed
    then l.(ring := l.ring[n := p.(isUsed := false)], lost := l.lost + p.size, gaveUp := true)
    else l
  }

  function Forget(l: Ledger, lo: nat, hi: int): Ledger
    decreases hi - lo
  {
    if lo >= hi then l else Forget(ForgetSlot(l, SlotOf(lo)), lo + 1, hi)
  }

  /** seqNr is not beyond `highest`, with the wrap-around correction of the code. */
  predicate AtOrBefore(seqNr: u16, highest: u16) {
    if seqNr < highest && highest - seqNr > 20000 then false
    else if seqNr > highest && seqNr - highest > 20000 then true
    else seqNr <= highest
  }

  /** The packet passes the received edge: it counts as delivered from now on. */
  predicate Crosses(p: Transmitted, highest: u16) {
    p.isUsed && AtOrBefore(p.seqNr, highest) && !p.isAfterReceivedEdge
  }

  predicate IsLate(p: Transmitted, timeTxAck: nat) {
    p.isUsed && p.timeTx + REORDER_TIME < timeTxAck && !p.isAcked
  }

  /** What a visit leaves in a slot. */
  function SettleSlot(p: Transmitted, highest: u16, timeTxAck: nat): Transmitted {
    if !p.isUsed then p
    else p.(isAfterReceivedEdge := p.isAfterReceivedEdge || Crosses(p, highest),
            isUsed := !IsLate(p, timeTxAck) && !p.isAcked)
  }

  function Settle(l: Ledger, n: nat, highest: u16, timeTxAck: nat): Ledger
    requires n < SLOTS
  {
    var p := l.ring[n];
    var crossing := if Crosses(p, highest) then p.size else 0;
    var late := if IsLate(p, timeTxAck) then p.size else 0;
    Ledger(l.ring[n := SettleSlot(p, highest, timeTxAck)],
           if Crosses(p, highest) then Floor0(l.inFlight - crossing) else l.inFlight,
           l.newlyAcked + crossing, l.acked + crossing, l.lost + late,
           l.gaveUp || IsLate(p, timeTxAck))
  }

  function SettleAll(l: Ledger, lo: nat, hi: int, highest: u16, timeTxAck: nat): Ledger
    decreases hi - lo
  {
    if lo >= hi then l
    else SettleAll(Settle(l, SlotOf(lo), highest, timeTxAck), lo + 1, hi, highest, timeTxAck)
  }

  /** Where the sweep over packets out of the ACK vector's reach ends. 2048 is added at most once. */
  function ForgetEnd(lastLossIx: int, first: nat): nat {
    if lastLossIx > first then first + SLOTS else first
  }

  /** Loss detection for a feedback: `first` is one above the previous highest number, lastLossIx
      what `first` was for the feedback before (-1 when there was none). */
  function Detect(l: Ledger, lastLossIx: int, first: nat, highest: u16, timeTxAck: nat): Ledger {
    var l1 := if lastLossIx >= 0 then Forget(l, lastLossIx, ForgetEnd(lastLossIx, first)) else l;
    SettleAll(l1, first, SweepEnd(first, highest) + 1, highest, timeTxAck)
  }

  // ---- bytes in the ring ----

  /** Bytes in used slots; only those not past the received edge when openOnly. */
  function Weight(p: Transmitted, openOnly: bool): nat {
    if p.isUsed && !(openOnly && p.isAfterReceivedEdge) then p.size else 0
  }

  function Bytes(ring: seq<Transmitted>, openOnly: bool): nat {
    if ring == [] then 0 else Weight(ring[0], openOnly) + Bytes(ring[1..], openOnly)
  }

  lemma {:induction false} BytesUpdate(ring: seq<Transmitted>, n: nat, p: Transmitted, openOnly: bool)
    requires n < |ring|
    ensures Bytes(ring[n := p], openOnly) == Bytes(ring, openOnly) - Weight(ring[n], openOnly) + Weight(p, openOnly)
  {
    if n == 0 {
      assert ring[0 := p][1..] == ring[1..];
    } else {
      BytesUpdate(ring[1..], n - 1, p, openOnly);
      assert ring[n := p][1..] == ring[1..][n - 1 := p];
    }
  }

  lemma {:induction false} BytesAtLeast(ring: seq<Transmitted>, n: nat, openOnly: bool)
    requires n < |ring|
    ensures Weight(ring[n], openOnly) <= Bytes(ring, openOnly)
  {
    if n > 0 {
      BytesAtLeast(ring[1..], n - 1, openOnly);
    }
  }

  lemma {:induction false} BytesOfUnused(ring: seq<Transmitted>, openOnly: bool)
    requires forall n :: 0 <= n < |ring| ==> Weight(ring[n], openOnly) == 0
    ensures Bytes(ring, openOnly) == 0
  {
    if ring != [] {
      forall n | 0 <= n < |ring[1..]| ensures Weight(ring[1..][n], openOnly) == 0 {
        assert ring[1..][n] == ring[n + 1];
      }
      BytesOfUnused(ring[1..], openOnly);
    }
  }

  lemma {:induction false} BytesSame(ring: seq<Transmitted>, other: seq<Transmitted>, openOnly: bool)
    requires |ring| == |other|
    requires forall n :: 0 <= n < |ring| ==> Weight(ring[n], openOnly) == Weight(other[n], openOnly)
    ensures Bytes(ring, openOnly) == Bytes(other, openOnly)
  {
    if ring != [] {
      forall n | 0 <= n < |ring[1..]| ensures Weight(ring[1..][n], openOnly) == Weight(other[1..][n], openOnly) {
        assert ring[1..][n] == ring[n + 1] && other[1..][n] == other[n + 1];
      }
      BytesSame(ring[1..], other[1..], openOnly);
    }
  }

  lemma BytesMarked(ring: Ring, first: nat, last: int, highest: u16, ack: Word64, openOnly: bool)
    ensures Bytes(Marked(ring, first, last, highest, ack), openOnly) == Bytes(ring, openOnly)
  {
    BytesSame(Marked(ring, first, last, highest, ack), ring, openOnly);
  }

  lemma BytesCleared(ring: Ring, openOnly: bool)
    ensures Bytes(Cleared(ring), openOnly) == 0
  {
    BytesOfUnused(Cleared(ring), openOnly);
  }

  // ---- what loss detection does to the bytes ----

  /** Nothing is acknowledged twice or lost twice, and no byte leaves the count of bytes in flight
      that was not counted in: acknowledged bytes plus open bytes, and lost bytes plus bytes in use,
      do not grow; bytes in flight cover the open bytes. */
  ghost predicate Accounts(l: Ledger, l': Ledger) {
    && l'.acked + Bytes(l'.ring, true) <= l.acked + Bytes(l.ring, true)
    && l'.lost + Bytes(l'.ring, false) <= l.lost + Bytes(l.ring, false)
    && l'.acked >= l.acked && l'.lost >= l.lost
    && l'.newlyAcked - l.newlyAcked == l'.acked - l.acked
    && (l.inFlight >= Bytes(l.ring, true) ==>
          && l'.inFlight >= Bytes(l'.ring, true)
          && l.inFlight - l'.inFlight == l'.acked - l.acked)
  }

  lemma ForgetSlotAccounts(l: Ledger, n: nat)
    requires n < SLOTS
    ensures Accounts(l, ForgetSlot(l, n))
  {
    var p := l.ring[n].(isUsed := false);
    BytesUpdate(l.ring, n, p, true);
    BytesUpdate(l.ring, n, p, false);
  }

  lemma SettleAccounts(l: Ledger, n: nat, highest: u16, timeTxAck: nat)
    requires n < SLOTS
    ensures Accounts(l, Settle(l, n, highest, timeTxAck))
  {
    var p := SettleSlot(l.ring[n], highest, timeTxAck);
    BytesUpdate(l.ring, n, p, true);
    BytesUpdate(l.ring, n, p, false);
    BytesAtLeast(l.ring, n, true);
  }

  lemma {:induction false} ForgetAccounts(l: Ledger, lo: nat, hi: int)
    ensures Accounts(l, Forget(l, lo, hi))
    decreases hi - lo
  {
    if lo < hi {
      ForgetSlotAccounts(l, SlotOf(lo));
      ForgetAccounts(ForgetSlot(l, SlotOf(lo)), lo + 1, hi);
    }
  }

  lemma {:induction false} SettleAllAccounts(l: Ledger, lo: nat, hi: int, highest: u16, timeTxAck: nat)
    ensures Accounts(l, SettleAll(l, lo, hi, highest, timeTxAck))
    decreases hi - lo
  {
    if lo < hi {
      SettleAccounts(l, SlotOf(lo), highest, timeTxAck);
      SettleAllAccounts(Settle(l, SlotOf(lo), highest, timeTxAck), lo + 1, hi, highest, timeTxAck);
    }
  }

  /** Loss detection accounts for every byte, whatever the feedback says. */
  lemma DetectAccounts(l: Ledger, lastLossIx: int, first: nat, highest: u16, timeTxAck: nat)
    ensures Accounts(l, Detect(l, lastLossIx, first, highest, timeTxAck))
  {
    var l1 := if lastLossIx >= 0 then Forget(l, lastLossIx, ForgetEnd(lastLossIx, first)) else l;
    if lastLossIx >= 0 {
      ForgetAccounts(l, lastLossIx, ForgetEnd(lastLossIx, first));
    }
    SettleAllAccounts(l1, first, SweepEnd(first, highest) + 1, highest, timeTxAck);
  }

  // ---- what loss detection does to a slot ----

  /** Slot n after Forget: a slot some index falls into is out of use, the others are as before. */
  lemma {:induction false} ForgetAt(l: Ledger, lo: nat, hi: int, n: nat)
    requires n < SLOTS
    ensures Forget(l, lo, hi).ring[n]
            == if lo < hi && Visited(lo, hi - 1, n) then l.ring[n].(isUsed := false) else l.ring[n]
    decreases hi - lo
  {
    if lo < hi {
      ForgetAt(ForgetSlot(l, SlotOf(lo)), lo + 1, hi, n);
      VisitedSplit(lo, hi - 1, n);
    }
  }

  lemma ForgetFrame(l: Ledger, lo: nat, hi: int)
    ensures forall n: nat :: n < SLOTS ==>
              Forget(l, lo, hi).ring[n] == if Between(lo, hi, n) then l.ring[n].(isUsed := false) else l.ring[n]
  {
    forall n: nat | n < SLOTS
      ensures Forget(l, lo, hi).ring[n] == if Between(lo, hi, n) then l.ring[n].(isUsed := false) else l.ring[n]
    {
      ForgetAt(l, lo, hi, n);
    }
  }

  /** Slot n after a sweep of at most 2048 indices: settled if visited, as before if not. */
  lemma {:induction false} SettleAllAt(l: Ledger, lo: nat, hi: int, highest: u16, timeTxAck: nat, n: nat)
    requires n < SLOTS && hi - lo <= SLOTS
    ensures SettleAll(l, lo, hi, highest, timeTxAck).ring[n]
            == if lo < hi && Visited(lo, hi - 1, n) then SettleSlot(l.ring[n], highest, timeTxAck) else l.ring[n]
    decreases hi - lo
  {
    if lo < hi {
      SettleAllAt(Settle(l, SlotOf(lo), highest, timeTxAck), lo + 1, hi, highest, timeTxAck, n);
      VisitedSplit(lo, hi - 1, n);
    }
  }

  lemma VisitedSplit(first: nat, last: int, n: nat)
    requires n < SLOTS && first <= last
    ensures Visited(first, last, n) <==> SlotOf(first) == n || (first < last && Visited(first + 1, last, n))
    ensures last - first < SLOTS && SlotOf(first) == n && first < last ==> !Visited(first + 1, last, n)
  {
    if SlotOf(first) == n {
      assert (n - first) % SLOTS == 0;
      assert (n - (first + 1)) % SLOTS == SLOTS - 1;
    } else {
      PreviousRemainder(n - first);
    }
  }

  lemma PreviousRemainder(x: int)
    requires x % SLOTS != 0
    ensures (x - 1) % SLOTS == x % SLOTS - 1
  {
  }

  // ---- how many bytes loss detection acknowledges and loses ----

  /** The sizes of the chosen packets. */
  function SizeOf(ring: seq<Transmitted>, chosen: seq<bool>): nat
    requires |ring| == |chosen|
  {
    if ring == [] then 0 else (if chosen[0] then ring[0].size else 0) + SizeOf(ring[1..], chosen[1..])
  }

  lemma {:induction false} SizeOfSame(ring: seq<Transmitted>, other: seq<Transmitted>, chosen: seq<bool>)
    requires |ring| == |other| == |chosen|
    requires forall n :: 0 <= n < |ring| && chosen[n] ==> ring[n].size == other[n].size
    ensures SizeOf(ring, chosen) == SizeOf(other, chosen)
  {
    if ring != [] {
      assert forall n :: 0 <= n < |ring[1..]| ==> ring[1..][n] == ring[n + 1] && other[1..][n] == other[n + 1] && chosen[1..][n] == chosen[n + 1];
      SizeOfSame(ring[1..], other[1..], chosen[1..]);
    }
  }

  lemma {:induction false} SizeOfChosen(ring: seq<Transmitted>, chosen: seq<bool>, n: nat, yes: bool)
    requires n < |ring| == |chosen|
    ensures SizeOf(ring, chosen[n := yes])
            == SizeOf(ring, chosen) - (if chosen[n] then ring[n].size else 0) + (if yes then ring[n].size else 0)
  {
    if n == 0 {
      assert chosen[0 := yes][1..] == chosen[1..];
    } else {
      SizeOfChosen(ring[1..], chosen[1..], n - 1, yes);
      assert chosen[n := yes][1..] == chosen[1..][n - 1 := yes];
    }
  }

  lemma {:induction false} SizeOfNone(ring: seq<Transmitted>, chosen: seq<bool>)
    requires |ring| == |chosen|
    requires forall n :: 0 <= n < |ring| ==> !chosen[n]
    ensures SizeOf(ring, chosen) == 0
  {
    if ring != [] {
      assert forall n :: 0 <= n < |ring[1..]| ==> chosen[1..][n] == chosen[n + 1];
      SizeOfNone(ring[1..], chosen[1..]);
    }
  }

  predicate Between(lo: nat, hi: int, n: nat) {
    lo < hi && Visited(lo, hi - 1, n)
  }

  /** The first index of a sweep adds its own slot. */
  lemma BetweenSplit(lo: nat, hi: int)
    requires lo < hi
    ensures forall k :: 0 <= k < SLOTS ==> (Between(lo, hi, k) <==> k == SlotOf(lo) || Between(lo + 1, hi, k))
    ensures hi - lo <= SLOTS ==> !Between(lo + 1, hi, SlotOf(lo))
  {
    forall k | 0 <= k < SLOTS ensures Between(lo, hi, k) <==> k == SlotOf(lo) || Between(lo + 1, hi, k) {
      VisitedSplit(lo, hi - 1, k);
    }
    VisitedSplit(lo, hi - 1, SlotOf(lo));
  }

  /** The packets that pass the received edge during a sweep over lo..hi-1. */
  function CrossingSlots(ring: Ring, lo: nat, hi: int, highest: u16): (c: seq<bool>)
    ensures |c| == SLOTS
  {
    seq(SLOTS, n requires 0 <= n < SLOTS => Between(lo, hi, n) && Crosses(ring[n], highest))
  }

  /** The packets given up as late during that sweep. */
  function LateSlots(ring: Ring, lo: nat, hi: int, timeTxAck: nat): (c: seq<bool>)
    ensures |c| == SLOTS
  {
    seq(SLOTS, n requires 0 <= n < SLOTS => Between(lo, hi, n) && IsLate(ring[n], timeTxAck))
  }

  /** The packets given up because they leave the reach of the ACK vector. */
  function ForgottenSlots(ring: Ring, lo: nat, hi: int): (c: seq<bool>)
    ensures |c| == SLOTS
  {
    seq(SLOTS, n requires 0 <= n < SLOTS => Between(lo, hi, n) && ring[n].isUsed)
  }

  /** A sweep acknowledges exactly the packets that pass the edge, and loses exactly the late ones. */
  lemma {:induction false} SettleAllCounts(l: Ledger, lo: nat, hi: int, highest: u16, timeTxAck: nat)
    requires hi - lo <= SLOTS
    ensures SettleAll(l, lo, hi, highest, timeTxAck).acked
            == l.acked + SizeOf(l.ring, CrossingSlots(l.ring, lo, hi, highest))
    ensures SettleAll(l, lo, hi, highest, timeTxAck).lost
            == l.lost + SizeOf(l.ring, LateSlots(l.ring, lo, hi, timeTxAck))
    decreases hi - lo
  {
    var crossing := CrossingSlots(l.ring, lo, hi, highest);
    var late := LateSlots(l.ring, lo, hi, timeTxAck);
    if lo >= hi {
      SizeOfNone(l.ring, crossing);
      SizeOfNone(l.ring, late);
    } else {
      var n := SlotOf(lo);
      var l' := Settle(l, n, highest, timeTxAck);
      SettleAllCounts(l', lo + 1, hi, highest, timeTxAck);
      BetweenSplit(lo, hi);
      var crossing' := CrossingSlots(l'.ring, lo + 1, hi, highest);
      var late' := LateSlots(l'.ring, lo + 1, hi, timeTxAck);
      assert crossing == crossing'[n := Crosses(l.ring[n], highest)];
      assert late == late'[n := IsLate(l.ring[n], timeTxAck)];
      SizeOfChosen(l.ring, crossing', n, Crosses(l.ring[n], highest));
      SizeOfChosen(l.ring, late', n, IsLate(l.ring[n], timeTxAck));
      SizeOfSame(l.ring, l'.ring, crossing');
      SizeOfSame(l.ring, l'.ring, late');
    }
  }

  /** The sweep over forgotten packets loses exactly the used slots it looks at, each once, even
      when it goes around the ring several times. */
  lemma {:induction false} ForgetCounts(l: Ledger, lo: nat, hi: int)
    ensures Forget(l, lo, hi).lost == l.lost + SizeOf(l.ring, ForgottenSlots(l.ring, lo, hi))
    ensures Forget(l, lo, hi).acked == l.acked && Forget(l, lo, hi).inFlight == l.inFlight
    decreases hi - lo
  {
    var forgotten := ForgottenSlots(l.ring, lo, hi);
    if lo >= hi {
      SizeOfNone(l.ring, forgotten);
    } else {
      var n := SlotOf(lo);
      var l' := ForgetSlot(l, n);
      ForgetCounts(l', lo + 1, hi);
      BetweenSplit(lo, hi);
      var forgotten' := ForgottenSlots(l'.ring, lo + 1, hi);
      assert forgotten == forgotten'[n := l.ring[n].isUsed];
      SizeOfChosen(l.ring, forgotten', n, l.ring[n].isUsed);
      SizeOfSame(l.ring, l'.ring, forgotten');
    }
  }

  // ---- what the sweep over forgotten packets reaches ----

  /** When the highest number moved from `before` to `edge`, the sweep runs over the numbers in between,
      unless the 16-bit number wrapped: then it ends before it starts, because 2048 is added only once. */
  lemma ForgetRange(before: int, edge: int)
    requires 0 <= edge - before <= SLOTS
    ensures var lo := Wrap16(before) + 1;
            var end := ForgetEnd(lo, Wrap16(edge) + 1);
            && (Wrap16(before) <= Wrap16(edge) ==> end == Wrap16(edge) + 1 == lo + (edge - before))
            && (Wrap16(edge) < Wrap16(before) ==> end < lo)
  {
    if Wrap16(edge) < Wrap16(before) {
      assert Wrap16(edge) == Wrap16(before) + (edge - before) - 65536;
    } else {
      assert Wrap16(edge) == Wrap16(before) + (edge - before);
    }
  }

  /** The slots of the numbers after `before` up to `edge`. */
  ghost predicate InStep(before: int, edge: int, n: nat) {
    exists u: nat :: before < u <= edge && SlotOf(Wrap16(u)) == n
  }

  /** The packets between two successive feedbacks are given up exactly as intended if and only if the
      16-bit number did not wrap between them; after a wrap none of them is, and lost packets stay. */
  lemma ForgetReachesIff(before: nat, edge: nat)
    requires 1 <= edge - before <= SLOTS
    ensures var lo := Wrap16(before) + 1;
            var end := ForgetEnd(lo, Wrap16(edge) + 1);
            && ((forall n: nat :: n < SLOTS ==> (Between(lo, end, n) <==> InStep(before, edge, n)))
                <==> Wrap16(before) <= Wrap16(edge))
            && (Wrap16(edge) < Wrap16(before) ==> forall n: nat :: n < SLOTS ==> !Between(lo, end, n))
  {
    var lo := Wrap16(before) + 1;
    var end := ForgetEnd(lo, Wrap16(edge) + 1);
    ForgetRange(before, edge);
    if Wrap16(before) <= Wrap16(edge) {
      forall n: nat | n < SLOTS ensures Between(lo, end, n) <==> InStep(before, edge, n) {
        SweepCoversTheStep(before, edge - before, n);
      }
    } else {
      assert InStep(before, edge, SlotOf(Wrap16(edge)));
      assert !Between(lo, end, SlotOf(Wrap16(edge)));
    }
  }
}
