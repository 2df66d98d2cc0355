/** The base one-way delay of the sender (ScreamTx::estimateOwd, getBaseOwd and the reset in
    updateCwnd): a running minimum for the open ten-second bucket, and a ring with the minima of
    the last fifty closed buckets. */
module BaseDelay {
  import opened Words

  const NO_SAMPLE: u32 := 0xFFFF_FFFF
  const BUCKETS := 50
  const BUCKET_TIME := 10_000_000

  /** uint64_t subtraction. */
  function Sub64(a: nat, b: nat): nat {
    (a - b) % 0x1_0000_0000_0000_0000
  }

  type Ring50 = r: seq<u32> | |r| == BUCKETS witness seq(BUCKETS, _ => NO_SAMPLE)

  datatype Delay = Delay(ackedOwd: u32, baseOwd: u32, hist: Ring50, ptr: nat, histMin: u32,
                         lastAdd: nat, lastRefresh: nat)

  function Min(a: u32, b: u32): u32 {
    if a < b then a else b
  }

  /** The smallest sample; NO_SAMPLE when there is none. */
  function MinOf(samples: seq<u32>): u32 {
    if samples == [] then NO_SAMPLE else Min(samples[0], MinOf(samples[1..]))
  }

  function EmptyRing(): Ring50 {
    seq(BUCKETS, _ => NO_SAMPLE)
  }

  /** A new one-way delay sample. */
  function Estimate(s: Delay, time: nat, owd: u32): Delay
    requires s.ptr < BUCKETS
  {
    var base := Min(s.baseOwd, owd);
    if Sub64(time, s.lastAdd) >= BUCKET_TIME then
      var hist := s.hist[s.ptr := base];
      Delay(owd, NO_SAMPLE, hist, (s.ptr + 1) % BUCKETS, MinOf(hist), time,
            if Sub64(time, s.lastRefresh) > BUCKET_TIME * (BUCKETS - 1) then time else s.lastRefresh)
    else
      s.(ackedOwd := owd, baseOwd := base)
  }

  /** The time of the last refresh, after which frames are dropped until the queue is drained, moves when a bucket is
      closed and more than 490 seconds have passed since. Buckets take ten seconds at least. */
  lemma RefreshesIff(s: Delay, time: nat, owd: u32)
    requires s.ptr < BUCKETS
    ensures var s' := Estimate(s, time, owd);
            var closes := (time - s.lastAdd) % 0x1_0000_0000_0000_0000 >= 10_000_000;
            && s'.lastAdd == (if closes then time else s.lastAdd)
            && s'.lastRefresh == (if closes && (time - s.lastRefresh) % 0x1_0000_0000_0000_0000 > 490_000_000 then time
                                  else s.lastRefresh)
  {
  }

  function Reset(s: Delay): Delay {
    s.(baseOwd := NO_SAMPLE, hist := EmptyRing(), histMin := NO_SAMPLE)
  }

  function Base(s: Delay): u32 {
    Min(s.baseOwd, s.histMin)
  }

  // ---- minima ----

  lemma {:induction false} MinOfBounds(samples: seq<u32>)
    ensures forall i :: 0 <= i < |samples| ==> MinOf(samples) <= samples[i]
    ensures MinOf(samples) == NO_SAMPLE || MinOf(samples) in samples
  {
    if samples != [] {
      MinOfBounds(samples[1..]);
      forall i | 0 <= i < |samples| ensures MinOf(samples) <= samples[i] {
        assert i > 0 ==> samples[i] == samples[1..][i - 1];
      }
    }
  }

  lemma {:induction false} MinOfConcat(a: seq<u32>, b: seq<u32>)
    ensures MinOf(a + b) == Min(MinOf(a), MinOf(b))
  {
    if a == [] {
      assert a + b == b;
    } else {
      MinOfConcat(a[1..], b);
      assert (a + b)[1..] == a[1..] + b;
    }
  }

  // ---- the samples behind the state ----

  /** The samples of the last k closed buckets. */
  function Recent(closed: seq<seq<u32>>, k: nat): seq<u32> {
    if k == 0 || closed == [] then []
    else Recent(closed[..|closed| - 1], k - 1) + closed[|closed| - 1]
  }

  /** The slot of the ring that was filled j + 1 buckets ago. */
  function Back(ptr: nat, j: nat): (n: nat)
    ensures n < BUCKETS
  {
    (ptr - 1 - j) % BUCKETS
  }

  /** The minimum of the bucket closed j buckets before the last one. */
  function BucketMin(closed: seq<seq<u32>>, j: nat): u32 {
    if j < |closed| then MinOf(closed[|closed| - 1 - j]) else NO_SAMPLE
  }

  /** `s` is the state after, since the last reset, the buckets `closed` were filled and the
      samples `open` arrived in the bucket that is still open. */
  ghost predicate Summarizes(s: Delay, closed: seq<seq<u32>>, open: seq<u32>) {
    && s.ptr < BUCKETS
    && s.baseOwd == MinOf(open)
    && (forall j :: 0 <= j < BUCKETS ==> s.hist[Back(s.ptr, j)] == BucketMin(closed, j))
    && s.histMin == MinOf(s.hist)
  }

  /** The minimum over the ring slots filled during the last k buckets. */
  function MinBack(hist: Ring50, ptr: nat, k: nat): u32 {
    if k == 0 then NO_SAMPLE else Min(MinBack(hist, ptr, k - 1), hist[Back(ptr, k - 1)])
  }

  lemma {:induction false} MinBackBounds(hist: Ring50, ptr: nat, k: nat)
    ensures forall j: nat :: j < k ==> MinBack(hist, ptr, k) <= hist[Back(ptr, j)]
    ensures MinBack(hist, ptr, k) == NO_SAMPLE || MinBack(hist, ptr, k) in hist
  {
    if k > 0 {
      MinBackBounds(hist, ptr, k - 1);
    }
  }

  lemma MinBackIsMin(hist: Ring50, ptr: nat)
    requires ptr < BUCKETS
    ensures MinBack(hist, ptr, BUCKETS) == MinOf(hist)
  {
    MinBackBounds(hist, ptr, BUCKETS);
    MinOfBounds(hist);
    forall n: nat | n < BUCKETS ensures MinBack(hist, ptr, BUCKETS) <= hist[n] {
      var j := (ptr - 1 - n) % BUCKETS;
      assert Back(ptr, j) == n;
    }
  }

  lemma {:induction false} MinBackIsRecent(hist: Ring50, ptr: nat, closed: seq<seq<u32>>, k: nat)
    requires k <= BUCKETS
    requires forall j :: 0 <= j < k ==> hist[Back(ptr, j)] == BucketMin(closed, j)
    ensures MinBack(hist, ptr, k) == MinOf(Recent(closed, k))
  {
    if k > 0 {
      MinBackIsRecent(hist, ptr, closed, k - 1);
      RecentGrows(closed, k - 1);
    }
  }

  lemma {:induction false} RecentGrows(closed: seq<seq<u32>>, k: nat)
    ensures MinOf(Recent(closed, k + 1)) == Min(MinOf(Recent(closed, k)), BucketMin(closed, k))
  {
    if closed != [] {
      var before, last := closed[..|closed| - 1], closed[|closed| - 1];
      MinOfConcat(Recent(before, k), last);
      if k > 0 {
        RecentGrows(before, k - 1);
        MinOfConcat(Recent(before, k - 1), last);
        assert k < |closed| ==> closed[|closed| - 1 - k] == before[|before| - 1 - (k - 1)];
      }
    }
  }

  /** The base delay is the smallest sample of the open bucket and of the last fifty closed ones. */
  lemma BaseIsWindowMinimum(s: Delay, closed: seq<seq<u32>>, open: seq<u32>)
    requires Summarizes(s, closed, open)
    ensures Base(s) == MinOf(Recent(closed, BUCKETS) + open)
  {
    MinBackIsMin(s.hist, s.ptr);
    MinBackIsRecent(s.hist, s.ptr, closed, BUCKETS);
    MinOfConcat(Recent(closed, BUCKETS), open);
  }

  lemma {:induction false} MinOfEmptyRing(samples: seq<u32>)
    requires forall i :: 0 <= i < |samples| ==> samples[i] == NO_SAMPLE
    ensures MinOf(samples) == NO_SAMPLE
  {
    MinOfBounds(samples);
  }

  /** A reset forgets all samples, wherever the ring pointer stands. */
  lemma ResetForgets(s: Delay)
    requires s.ptr < BUCKETS
    ensures Summarizes(Reset(s), [], [])
  {
    MinOfEmptyRing(EmptyRing());
  }

  /** A sample goes into the open bucket; when ten seconds have passed it closes that bucket. Either
      way the base delay stays the window minimum, and it is not above the sample: the unsigned
      subtraction that gives the queue delay does not wrap. */
  lemma EstimateSummarizes(s: Delay, closed: seq<seq<u32>>, open: seq<u32>, time: nat, owd: u32)
    requires Summarizes(s, closed, open)
    ensures var s' := Estimate(s, time, owd);
            && (if Sub64(time, s.lastAdd) >= BUCKET_TIME
                then Summarizes(s', closed + [open + [owd]], [])
                else Summarizes(s', closed, open + [owd]))
            && Base(s') <= s'.ackedOwd == owd
  {
    var s' := Estimate(s, time, owd);
    MinOfConcat(open, [owd]);
    assert MinOf([owd]) == owd;
    assert MinOf(open + [owd]) == Min(s.baseOwd, owd);
    if Sub64(time, s.lastAdd) >= BUCKET_TIME {
      var closed' := closed + [open + [owd]];
      forall j | 0 <= j < BUCKETS ensures s'.hist[Back(s'.ptr, j)] == BucketMin(closed', j) {
        RingStep(s.ptr, j);
        if j > 0 {
          assert j < |closed'| ==> closed'[|closed'| - 1 - j] == closed[|closed| - 1 - (j - 1)];
        }
      }
      MinOfBounds(s'.hist);
      assert s'.histMin <= s'.hist[s.ptr];
    }
  }

  lemma RingStep(ptr: nat, j: nat)
    requires ptr < BUCKETS && j < BUCKETS
    ensures j == 0 ==> Back((ptr + 1) % BUCKETS, j) == ptr
    ensures j > 0 ==> Back((ptr + 1) % BUCKETS, j) == Back(ptr, j - 1) != ptr
  {
  }

  // ---- runs ----

  datatype DelayEvent = Sample(time: nat, owd: u32) | ResetNow

  datatype History = History(closed: seq<seq<u32>>, open: seq<u32>)

  function After(s: Delay, events: seq<DelayEvent>): (s': Delay)
    requires s.ptr < BUCKETS
    ensures s'.ptr < BUCKETS
  {
    if events == [] then s
    else
      var s1 := After(s, events[..|events| - 1]);
      match events[|events| - 1]
      case Sample(time, owd) => Estimate(s1, time, owd)
      case ResetNow => Reset(s1)
  }

  /** The samples since the last reset, by bucket: a bucket closes with the sample that arrives
      ten seconds or more after the bucket before it closed. */
  function Sampled(s: Delay, events: seq<DelayEvent>): History
    requires s.ptr < BUCKETS
  {
    if events == [] then History([], [])
    else
      var before := events[..|events| - 1];
      var h := Sampled(s, before);
      match events[|events| - 1]
      case Sample(time, owd) =>
        if Sub64(time, After(s, before).lastAdd) >= BUCKET_TIME
        then History(h.closed + [h.open + [owd]], [])
        else History(h.closed, h.open + [owd])
      case ResetNow => History([], [])
  }

  /** Over every run from the initial state, the base delay is the window minimum. */
  lemma {:induction false} BaseOverRuns(s: Delay, events: seq<DelayEvent>)
    requires Summarizes(s, [], [])
    ensures Summarizes(After(s, events), Sampled(s, events).closed, Sampled(s, events).open)
    ensures Base(After(s, events)) == MinOf(Recent(Sampled(s, events).closed, BUCKETS) + Sampled(s, events).open)
  {
    if events != [] {
      var before := events[..|events| - 1];
      BaseOverRuns(s, before);
      var s1, h := After(s, before), Sampled(s, before);
      match events[|events| - 1] {
        case Sample(time, owd) => EstimateSummarizes(s1, h.closed, h.open, time, owd);
        case ResetNow => ResetForgets(s1);
      }
    }
    BaseIsWindowMinimum(After(s, events), Sampled(s, events).closed, Sampled(s, events).open);
  }

  // ---- the code ----

  /** The fields of ScreamTx that the base delay uses. */
  class BaseDelay {
    var ackedOwd: u32
    var baseOwd: u32
    const baseOwdHist: array<u32>
    var baseOwdHistPtr: nat
    var baseOwdHistMin: u32
    var lastBaseOwdAdd: nat
    var lastBaseDelayRefresh: nat
    /** The samples since the last reset: those of the closed buckets, and those of the open one. */
    ghost var closed: seq<seq<u32>>
    ghost var open: seq<u32>

    /** The fields summarize the samples. */
    ghost predicate Valid()
      reads this, baseOwdHist
    {
      Shape() && Summarizes(State(), closed, open)
    }

    predicate Shape()
      reads this
    {
      baseOwdHist.Length == BUCKETS && baseOwdHistPtr < BUCKETS
    }

    function State(): Delay
      requires Shape()
      reads this, baseOwdHist
    {
      Delay(ackedOwd, baseOwd, baseOwdHist[..], baseOwdHistPtr, baseOwdHistMin, lastBaseOwdAdd, lastBaseDelayRefresh)
    }

    constructor ()
      ensures Valid() && fresh(baseOwdHist)
      ensures closed == [] && open == [] && Summarizes(State(), [], [])
    {
      closed, open := [], [];
      ackedOwd, baseOwd, baseOwdHistPtr, baseOwdHistMin := 0, NO_SAMPLE, 0, NO_SAMPLE;
      baseOwdHist := new u32[BUCKETS](_ => NO_SAMPLE);
      lastBaseOwdAdd, lastBaseDelayRefresh := 0, 0;
      new;
      MinOfEmptyRing(baseOwdHist[..]);
    }

    /** The loop over the ring at the end of a bucket. */
    method FindHistMin()
      requires Shape()
      modifies `baseOwdHistMin
      ensures baseOwdHistMin == MinOf(baseOwdHist[..])
    {
      baseOwdHistMin := NO_SAMPLE;
      for n := 0 to BUCKETS
        invariant baseOwdHistMin == MinOf(baseOwdHist[..n])
      {
        baseOwdHistMin := Min(baseOwdHistMin, baseOwdHist[n]);
        assert baseOwdHist[..n + 1] == baseOwdHist[..n] + [baseOwdHist[n]];
        MinOfConcat(baseOwdHist[..n], [baseOwdHist[n]]);
        assert MinOf([baseOwdHist[n]]) == baseOwdHist[n];
      }
      assert baseOwdHist[..BUCKETS] == baseOwdHist[..];
    }

    method EstimateOwd(time: nat, owd: u32) returns (acked: u32)
      requires Valid()
      modifies this, baseOwdHist
      ensures Valid()
      ensures State() == Estimate(old(State()), time, owd)
      ensures acked == owd && Base(State()) <= owd
      ensures if Sub64(time, old(lastBaseOwdAdd)) >= BUCKET_TIME
              then closed == old(closed) + [old(open) + [owd]] && open == []
              else closed == old(closed) && open == old(open) + [owd]
    {
      ackedOwd := owd;
      open := open + [owd];
      baseOwd := Min(baseOwd, ackedOwd);
      if Sub64(time, lastBaseOwdAdd) >= BUCKET_TIME {
        baseOwdHist[baseOwdHistPtr] := baseOwd;
        assert baseOwdHist[..] == old(baseOwdHist[..])[old(baseOwdHistPtr) := baseOwd];
        baseOwdHistPtr := (baseOwdHistPtr + 1) % BUCKETS;
        lastBaseOwdAdd := time;
        baseOwd := NO_SAMPLE;
        closed, open := closed + [open], [];
        FindHistMin();
        if Sub64(time, lastBaseDelayRefresh) > BUCKET_TIME * (BUCKETS - 1) {
          lastBaseDelayRefresh := time;
        }
      }
      assert State() == Estimate(old(State()), time, owd);
      EstimateSummarizes(old(State()), old(closed), old(open), time, owd);
      return ackedOwd;
    }

    /** The smallest sample of the open bucket and of the last fifty closed ones. */
    method GetBaseOwd() returns (base: u32)
      requires Valid()
      ensures base == Base(State()) == MinOf(Recent(closed, BUCKETS) + open)
    {
      BaseIsWindowMinimum(State(), closed, open);
      base := Min(baseOwd, baseOwdHistMin);
    }

    method ResetHistory()
      requires Valid()
      modifies this, baseOwdHist
      ensures Valid()
      ensures State() == Reset(old(State()))
      ensures closed == [] && open == []
    {
      ResetForgets(State());
      for n := 0 to BUCKETS
        invariant forall i :: 0 <= i < n ==> baseOwdHist[i] == NO_SAMPLE
        modifies baseOwdHist
      {
        baseOwdHist[n] := NO_SAMPLE;
      }
      assert baseOwdHist[..] == EmptyRing();
      baseOwd := NO_SAMPLE;
      baseOwdHistMin := NO_SAMPLE;
      closed, open := [], [];
    }
  }
}
