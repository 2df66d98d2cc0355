/** Proportional apportionment of a bitrate by cumulative rounding (StreamGenerator::SetBitrateBps). */
module StreamGenerator {
  import opened Arithmetic

  const INT_MAX := 0x7FFF_FFFF

  function Sum(b: seq<int>): int {
    if b == [] then 0 else Sum(b[..|b| - 1]) + b[|b| - 1]
  }

  predicate NonNegative(b: seq<int>) {
    forall i :: 0 <= i < |b| ==> b[i] >= 0
  }

  /** What the first streams together get when they had `before` of `total`: the rounded share. */
  function Cumulative(before: int, target: int, total: int): int
    requires total > 0
  {
    (before * target + total / 2) / total
  }

  /** `rate` is less than 1 away from the real share own * target / total. */
  predicate NearShare(rate: int, own: int, target: int, total: int) {
    var error := total * rate - own * target;
    -total < error < total
  }

  // ---- rounding ----

  lemma DivUnique(n: int, d: int, q: int)
    requires d > 0 && d * q <= n < d * q + d
    ensures n / d == q
  {
    DivBounds(n, d);
    var p := n / d;
    if p < q {
      Grow(d, p + 1, q);
    } else if p > q {
      Grow(d, q + 1, p);
    }
  }

  /** Rounding keeps the order. */
  lemma CumulativeMonotone(before: int, more: int, target: int, total: int)
    requires total > 0 && target >= 0 && before <= more
    ensures Cumulative(before, target, total) <= Cumulative(more, target, total)
  {
    Grow(target, before, more);
    var n, m := before * target + total / 2, more * target + total / 2;
    assert n <= m;
    DivBounds(n, total);
    DivBounds(m, total);
    if m / total < n / total {
      Grow(total, m / total + 1, n / total);
    }
  }

  /** A stream that had `own` of `total`, after streams that had `before`, gets a non-negative bitrate
      less than 1 away from its real share. */
  lemma ShareIsNear(before: int, own: int, target: int, total: int)
    requires total > 0 && target >= 0 && own >= 0
    ensures var rate := Cumulative(before + own, target, total) - Cumulative(before, target, total);
            rate >= 0 && NearShare(rate, own, target, total)
  {
    CumulativeMonotone(before, before + own, target, total);
    var n, m := before * target + total / 2, (before + own) * target + total / 2;
    DivBounds(n, total);
    DivBounds(m, total);
    Distribute(before, own, target);
    Distribute(n / total, m / total - n / total, total);
  }

  lemma Distribute(a: int, b: int, c: int)
    ensures (a + b) * c == a * c + b * c
  {
  }

  /** The streams before the first one get nothing, all streams together get exactly the target. */
  lemma CumulativeEnds(target: int, total: int)
    requires total > 0
    ensures Cumulative(0, target, total) == 0
    ensures Cumulative(total, target, total) == target
  {
    DivUnique(total * target + total / 2, total, target);
    DivUnique(total / 2, total, 0);
    assert 0 * target == 0;
  }

  // ---- the new bitrates ----

  lemma SumPrefix(b: seq<int>, i: nat)
    requires i < |b|
    ensures Sum(b[..i + 1]) == Sum(b[..i]) + b[i]
  {
    assert b[..i + 1][..i] == b[..i];
  }

  function NewRates(b: seq<int>, target: int): (r: seq<int>)
    requires Sum(b) > 0
    ensures |r| == |b|
  {
    seq(|b|, i requires 0 <= i < |b| =>
      Cumulative(Sum(b[..i + 1]), target, Sum(b)) - Cumulative(Sum(b[..i]), target, Sum(b)))
  }

  lemma RateAt(b: seq<int>, target: int, i: nat)
    requires Sum(b) > 0 && i < |b|
    ensures Sum(b[..i + 1]) == Sum(b[..i]) + b[i]
    ensures NewRates(b, target)[i]
            == Cumulative(Sum(b[..i + 1]), target, Sum(b)) - Cumulative(Sum(b[..i]), target, Sum(b))
  {
    SumPrefix(b, i);
  }

  lemma {:induction false} PrefixIsCumulative(b: seq<int>, target: int, i: nat)
    requires Sum(b) > 0 && i <= |b|
    ensures Sum(NewRates(b, target)[..i]) == Cumulative(Sum(b[..i]), target, Sum(b))
  {
    if i == 0 {
      CumulativeEnds(target, Sum(b));
    } else {
      PrefixIsCumulative(b, target, i - 1);
      SumPrefix(NewRates(b, target), i - 1);
    }
  }

  lemma RateIsNear(b: seq<int>, target: int, i: nat)
    requires i < |b| && b[i] >= 0 && Sum(b) > 0 && target >= 0
    ensures NewRates(b, target)[i] >= 0 && NearShare(NewRates(b, target)[i], b[i], target, Sum(b))
  {
    SumPrefix(b, i);
    ShareIsNear(Sum(b[..i]), b[i], target, Sum(b));
  }

  lemma RatesAddUp(b: seq<int>, target: int)
    requires Sum(b) > 0
    ensures Sum(NewRates(b, target)) == target
  {
    PrefixIsCumulative(b, target, |b|);
    assert b[..|b|] == b && NewRates(b, target)[..|b|] == NewRates(b, target);
    CumulativeEnds(target, Sum(b));
  }

  /** Exact apportionment: the new bitrates are not negative, add up to the target, and each is less
      than 1 away from its real proportional share. */
  lemma ExactApportionment(b: seq<int>, target: int)
    requires NonNegative(b) && Sum(b) > 0 && target >= 0
    ensures NonNegative(NewRates(b, target))
    ensures Sum(NewRates(b, target)) == target
    ensures forall i :: 0 <= i < |b| ==> NearShare(NewRates(b, target)[i], b[i], target, Sum(b))
  {
    RatesAddUp(b, target);
    forall i | 0 <= i < |b|
      ensures NewRates(b, target)[i] >= 0 && NearShare(NewRates(b, target)[i], b[i], target, Sum(b))
    {
      RateIsNear(b, target, i);
    }
  }

  /** got is due / total, rounded to the nearest integer, halves up. */
  predicate Nearest(got: int, due: int, total: int) {
    2 * (total * got - due) <= total && 2 * (due - total * got) < total
  }

  lemma NearestApart(x: int, y: int, due: int, total: int)
    requires 2 * (y - due) <= total && 2 * (due - x) < total
    ensures y - x < total
  {
  }

  lemma NearestIsUnique(a: int, b: int, due: int, total: int)
    requires total > 0 && Nearest(a, due, total) && Nearest(b, due, total)
    ensures a == b
  {
    var x, y := total * a, total * b;
    NearestApart(x, y, due, total);
    NearestApart(y, x, due, total);
    OneMultiple(a, b, total);
  }

  lemma OneMultiple(a: int, b: int, d: int)
    requires d > 0 && -d < d * a - d * b < d
    ensures a == b
  {
    if a < b {
      Grow(d, a + 1, b);
    } else if b < a {
      Grow(d, b + 1, a);
    }
  }

  lemma CumulativeIsNearest(before: int, target: int, total: int)
    requires total > 0
    ensures Nearest(Cumulative(before, target, total), before * target, total)
  {
    DivBounds(before * target + total / 2, total);
  }

  /** The first i streams together get their real share, rounded to the nearest integer: no error accumulates. */
  lemma PrefixesAreNearest(b: seq<int>, target: int, i: nat)
    requires Sum(b) > 0 && i <= |b|
    ensures Nearest(Sum(NewRates(b, target)[..i]), Sum(b[..i]) * target, Sum(b))
  {
    PrefixIsCumulative(b, target, i);
    CumulativeIsNearest(Sum(b[..i]), target, Sum(b));
  }

  // ---- the code ----

  class RtpStream {
    var bitrate: int

    constructor (bitrate: int)
      requires bitrate >= 0
      ensures this.bitrate == bitrate
    {
      this.bitrate := bitrate;
    }
  }

  class StreamGenerator {
    var streams: seq<RtpStream>

    constructor ()
      ensures Valid() && streams == []
    {
      streams := [];
    }

    ghost predicate Valid()
      reads this
    {
      forall i, j :: 0 <= i < j < |streams| ==> streams[i] != streams[j]
    }

    method AddStream(stream: RtpStream)
      requires Valid() && stream !in streams
      modifies this
      ensures Valid() && streams == old(streams) + [stream]
    {
      streams := streams + [stream];
    }

    ghost function Rates(): (b: seq<int>)
      reads this, streams
      ensures |b| == |streams|
      ensures forall i :: 0 <= i < |streams| ==> b[i] == streams[i].bitrate
    {
      seq(|streams|, i requires 0 <= i < |streams| reads this, streams => streams[i].bitrate)
    }

    method TotalBitrate() returns (total: int)
      ensures total == Sum(Rates())
    {
      total := 0;
      for i := 0 to |streams|
        invariant total == Sum(Rates()[..i])
      {
        SumPrefix(Rates(), i);
        total := total + streams[i].bitrate;
      }
      assert Rates()[..|streams|] == Rates();
    }

    /** The source divides by the old total, which it takes to be positive; rates fit in an int. */
    method SetBitrateBps(target: int)
      requires Valid() && NonNegative(Rates()) && 0 < Sum(Rates()) <= INT_MAX && 0 <= target <= INT_MAX
      modifies streams
      ensures Rates() == NewRates(old(Rates()), target)
      ensures NonNegative(Rates()) && Sum(Rates()) == target
      ensures forall i :: 0 <= i <= |streams| ==>
                Nearest(Sum(Rates()[..i]), Sum(old(Rates())[..i]) * target, Sum(old(Rates())))
    {
      var total := TotalBitrate();
      Reassign(target, total);
      forall i | 0 <= i <= |streams| ensures Nearest(Sum(Rates()[..i]), Sum(old(Rates())[..i]) * target, Sum(old(Rates()))) {
        PrefixesAreNearest(old(Rates()), target, i);
      }
      ExactApportionment(old(Rates()), target);
    }

    /** The second loop of SetBitrateBps. */
    method Reassign(target: int, total: int)
      requires Valid() && total == Sum(Rates()) > 0
      modifies streams
      ensures Rates() == NewRates(old(Rates()), target)
    {
      ghost var b := Rates();
      ghost var r := NewRates(b, target);
      var before, after := 0, 0;
      CumulativeEnds(target, total);
      for i := 0 to |streams|
        invariant before == Sum(b[..i])
        invariant after == Cumulative(before, target, total)
        invariant forall j :: 0 <= j < |streams| ==> streams[j].bitrate == if j < i then r[j] else b[j]
      {
        RateAt(b, target, i);
        before, after := AssignShare(streams[i], before, after, target, total);
      }
      assert Rates() == r;
    }
  }

  /** The body of that loop, with the running totals of the old and the new bitrates. */
  method AssignShare(stream: RtpStream, before0: int, after0: int, target: int, total: int)
    returns (before: int, after: int)
    requires total > 0
    modifies stream
    ensures before == before0 + old(stream.bitrate)
    ensures after == Cumulative(before, target, total)
    ensures stream.bitrate == after - after0
  {
    before := before0 + stream.bitrate;
    var bitrateAfter := Cumulative(before, target, total);
    stream.bitrate := bitrateAfter - after0;
    after := after0 + stream.bitrate;
  }

  /** The intermediate product of every prefix fits in an int64_t. */
  lemma FitsInt64(before: int, target: int, total: int)
    requires 0 <= before <= total <= INT_MAX && 0 <= target <= INT_MAX
    ensures 0 <= before * target + total / 2 <= 0x7FFF_FFFF_FFFF_FFFF
  {
    Grow(before, target, INT_MAX);
    Grow(before, 0, target);
  }
}
