/** Which slots of the ring of transmitted packets a feedback makes the sender look at
    (the index arithmetic shared by ScreamTx::markAcked and ScreamTx::detectLoss). */
module Sweep {
  import opened Words

  /** kMaxTxPackets. */
  const SLOTS := 2048

  function SlotOf(m: nat): (n: nat)
    ensures n < SLOTS
  {
    m % SLOTS
  }

  /** The last index of the sweep that starts at `first`: the smallest one that is not below
      `first` and falls into the slot of the highest acknowledged number. */
  function SweepEnd(first: nat, highest: u16): nat {
    first + (highest - first) % SLOTS
  }

  /** The search for that index in the code. */
  method FindSweepEnd(first: nat, highest: u16) returns (last: nat)
    ensures last == SweepEnd(first, highest)
  {
    last := highest % SLOTS;
    while last < first
      invariant last < first + SLOTS || last < SLOTS
      invariant last % SLOTS == highest % SLOTS
      invariant last < first + SLOTS
    {
      last := last + SLOTS;
    }
  }

  /** The sweep over first..last looks at slot n. */
  predicate Visited(first: nat, last: int, n: nat) {
    (n - first) % SLOTS <= last - first
  }

  lemma VisitedMeans(first: nat, last: int, n: nat)
    requires n < SLOTS && last - first < SLOTS
    ensures Visited(first, last, n) <==> exists m: nat :: first <= m <= last && SlotOf(m) == n
  {
    if Visited(first, last, n) {
      assert SlotOf(first + (n - first) % SLOTS) == n;
    }
    forall m: nat | first <= m <= last && SlotOf(m) == n ensures Visited(first, last, n) {
      assert (n - first) % SLOTS == m - first;
    }
  }

  /** A sweep looks at between 1 and 2048 slots, each of them once. */
  lemma SweepIsShort(first: nat, highest: u16)
    ensures 0 <= SweepEnd(first, highest) - first < SLOTS
    ensures SlotOf(SweepEnd(first, highest)) == SlotOf(highest)
    ensures forall a: nat, b: nat :: first <= a < b <= SweepEnd(first, highest) ==> SlotOf(a) != SlotOf(b)
  {
    forall a: nat, b: nat | first <= a < b <= SweepEnd(first, highest) ensures SlotOf(a) != SlotOf(b) {
      assert 0 < b - a < SLOTS;
    }
  }

  /** A number and its low 16 bits fall into the same slot, because 2048 divides 65536. */
  lemma SlotOfWrapped(u: nat)
    ensures SlotOf(Wrap16(u)) == SlotOf(u)
  {
    assert u == 65536 * (u / 65536) + Wrap16(u);
    assert u == SLOTS * (32 * (u / 65536)) + Wrap16(u);
  }

  lemma DistanceOfSlots(a: int, b: int, a': int, b': int)
    requires a % SLOTS == a' % SLOTS && b % SLOTS == b' % SLOTS
    ensures (a - b) % SLOTS == (a' - b') % SLOTS
  {
    assert (a - b) - (a' - b') == SLOTS * ((a / SLOTS - b / SLOTS) - (a' / SLOTS - b' / SLOTS));
  }

  lemma StepEnd(previous: nat, d: nat)
    requires 1 <= d <= SLOTS
    ensures SweepEnd(Wrap16(previous) + 1, Wrap16(previous + d)) == Wrap16(previous) + d
  {
    FirstSlot(previous);
    SlotOfWrapped(previous + d);
    DistanceOfSlots(Wrap16(previous + d), Wrap16(previous) + 1, previous + d, previous + 1);
  }

  lemma FirstSlot(previous: nat)
    ensures (Wrap16(previous) + 1) % SLOTS == (previous + 1) % SLOTS
  {
    SlotOfWrapped(previous);
  }

  /** The sweep after `previous` up to d ahead looks at the slot of every number in between, and
      at the slot of number u only if some number in between shares it. */
  lemma StepVisits(previous: nat, d: nat, n: nat, u: nat)
    requires n < SLOTS && SlotOf(u) == n
    ensures Visited(Wrap16(previous) + 1, Wrap16(previous) + d, n) <==> (u - previous - 1) % SLOTS < d
  {
    FirstSlot(previous);
    DistanceOfSlots(n, Wrap16(previous) + 1, u, previous + 1);
  }

  /** When the highest number moves from `previous` d ahead, 1 <= d <= 2048, the sweep looks at exactly
      the slots of those d numbers, across the wrap from 65535 to 0 as well. */
  lemma SweepCoversTheStep(previous: nat, d: nat, n: nat)
    requires 1 <= d <= SLOTS && n < SLOTS
    ensures var first := Wrap16(previous) + 1;
            && SweepEnd(first, Wrap16(previous + d)) == first + d - 1
            && (Visited(first, first + d - 1, n)
                <==> exists u: nat :: previous < u <= previous + d && SlotOf(Wrap16(u)) == n)
  {
    StepEnd(previous, d);
    var nearest := previous + 1 + (n - previous - 1) % SLOTS;
    NearestShares(previous, n);
    StepVisits(previous, d, n, nearest);
    SlotOfWrapped(nearest);
    if u: nat :| previous < u <= previous + d && SlotOf(Wrap16(u)) == n {
      SlotOfWrapped(u);
      StepVisits(previous, d, n, u);
      SmallRemainder(u - previous - 1);
    }
  }

  lemma SmallRemainder(r: nat)
    requires r < SLOTS
    ensures r % SLOTS == r
  {
  }

  lemma NearestShares(previous: nat, n: nat)
    requires n < SLOTS
    ensures var nearest := previous + 1 + (n - previous - 1) % SLOTS;
            SlotOf(nearest) == n && (nearest - previous - 1) % SLOTS == nearest - previous - 1
  {
  }

  /** A feedback that repeats the previous highest number makes the sender look at every slot. */
  lemma RepeatSweepsEverything(highest: u16, n: nat)
    requires n < SLOTS
    ensures Visited(highest + 1, SweepEnd(highest + 1, highest), n)
  {
  }
}
