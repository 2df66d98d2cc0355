/** The frame splitter (VideoEnc::encode), which feeds the packet queue. */
module VideoEncoder {
  import opened Arithmetic
  import opened Words
  import opened RtpQueue

  const MAX_RTP_SIZE := 1200
  const RTP_OVERHEAD := 12
  /** Milliseconds between frames. */
  const FRAME_INTERVAL: real := 40.0

  /** The smallest integer that is not below r. */
  function Ceil(r: real): int {
    -((-r).Floor)
  }

  /** The packets of a frame of n bytes, numbered from seqNr on. */
  function Fragments(n: int, seqNr: nat, ts: real): seq<Packet>
    decreases n
  {
    if n <= 0 then []
    else
      var payload := MinInt(MAX_RTP_SIZE, n);
      [Packet(payload + RTP_OVERHEAD, Wrap16(seqNr), ts)] + Fragments(n - payload, seqNr + 1, ts)
  }

  /** ceil(n / 1200), and none for an empty frame. */
  function Count(n: int): nat {
    if n <= 0 then 0 else (n + MAX_RTP_SIZE - 1) / MAX_RTP_SIZE
  }

  lemma CountStep(n: int)
    requires n > 0
    ensures Count(n) == 1 + Count(n - MinInt(MAX_RTP_SIZE, n))
  {
  }

  /** The i-th packet of a frame of n bytes. */
  function Fragment(n: int, seqNr: nat, ts: real, i: nat): Packet {
    Packet(RTP_OVERHEAD + MinInt(MAX_RTP_SIZE, n - MAX_RTP_SIZE * i), Wrap16(seqNr + i), ts)
  }

  /** A frame of n bytes becomes ceil(n / 1200) packets with consecutive numbers mod 65536; all but the
      last are full; the payloads add up to n. */
  lemma {:induction false} FragmentsAre(n: int, seqNr: nat, ts: real)
    ensures |Fragments(n, seqNr, ts)| == Count(n)
    ensures Bytes(Fragments(n, seqNr, ts)) == MaxInt(n, 0) + RTP_OVERHEAD * Count(n)
    ensures forall i: nat :: i < Count(n) ==> Fragments(n, seqNr, ts)[i] == Fragment(n, seqNr, ts, i)
    decreases n
  {
    if n > 0 {
      var payload := MinInt(MAX_RTP_SIZE, n);
      var head := Packet(payload + RTP_OVERHEAD, Wrap16(seqNr), ts);
      var rest := Fragments(n - payload, seqNr + 1, ts);
      CountStep(n);
      FragmentsAre(n - payload, seqNr + 1, ts);
      BytesConcat([head], rest);
      assert [head][..0] == [];
      forall i: nat | i < Count(n) ensures ([head] + rest)[i] == Fragment(n, seqNr, ts, i) {
        if i > 0 {
          FragmentShift(n, seqNr, ts, i);
        }
      }
    }
  }

  lemma FragmentShift(n: int, seqNr: nat, ts: real, i: nat)
    requires n > MAX_RTP_SIZE && i > 0
    ensures Fragment(n - MAX_RTP_SIZE, seqNr + 1, ts, i - 1) == Fragment(n, seqNr, ts, i)
  {
  }

  lemma FragmentsTotal(n: int, seqNr: nat, ts: real)
    ensures |Fragments(n, seqNr, ts)| == Count(n)
    ensures Bytes(Fragments(n, seqNr, ts)) == MaxInt(n, 0) + RTP_OVERHEAD * Count(n)
  {
    FragmentsAre(n, seqNr, ts);
  }

  class VideoEncoder {
    const rtpQueue: RtpQueue
    var targetBitrate: real
    /** unsigned int; the queue takes its lower 16 bits. */
    var seqNr: nat

    constructor (rtpQueue: RtpQueue, targetBitrate: real)
      ensures this.rtpQueue == rtpQueue && this.targetBitrate == targetBitrate && seqNr == 0
    {
      this.rtpQueue, this.targetBitrate, this.seqNr := rtpQueue, targetBitrate, 0;
    }

    /** The bytes of a frame: 40 ms at the target bitrate, rounded up. */
    function FrameSize(): (n: int)
      reads this
      ensures (n - 1) as real < 0.005 * targetBitrate <= n as real
    {
      Ceil(0.001 * FRAME_INTERVAL * targetBitrate / 8.0)
    }

    /** Splits one frame of the size that the target bitrate gives. */
    method Encode(time: real) returns (rtpBytes: int)
      requires rtpQueue.Shape() && seqNr < 0x1_0000_0000
      modifies this`seqNr, rtpQueue, rtpQueue.items
      ensures Splits(FrameSize(), old(seqNr), old(rtpQueue.Valid()), old(rtpQueue.contents), time, rtpBytes)
    {
      rtpBytes := Split(FrameSize(), time);
    }

    /** What splitting a frame leads to. When the queue has room, exactly the frame's packets are appended
        and, by Valid, the byte count grows by exactly what is returned. */
    ghost predicate Splits(size: int, seqNr0: nat, valid0: bool, contents0: seq<Packet>, time: real, rtpBytes: int)
      reads this, rtpQueue, rtpQueue.items
    {
      && rtpQueue.Shape()
      && seqNr == (seqNr0 + Count(size)) % 0x1_0000_0000
      && rtpBytes == Bytes(Fragments(size, seqNr0, time)) == rtpQueue.sizeOfLastFrame
      && rtpBytes == MaxInt(size, 0) + RTP_OVERHEAD * Count(size)
      && rtpQueue.contents == contents0 + Fragments(size, seqNr0, time)
      && (valid0 && |contents0| + Count(size) <= RTP_QUEUE_SIZE ==>
            rtpQueue.Valid() && rtpQueue.bytesInQueue == Bytes(contents0) + rtpBytes)
    }

    method Split(size: int, time: real) returns (rtpBytes: int)
      requires rtpQueue.Shape() && seqNr < 0x1_0000_0000
      modifies this`seqNr, rtpQueue, rtpQueue.items
      ensures Splits(size, old(seqNr), old(rtpQueue.Valid()), old(rtpQueue.contents), time, rtpBytes)
    {
      rtpBytes := PushAll(size, time);
      FragmentsTotal(size, old(seqNr), time);
      BytesConcat(old(rtpQueue.contents), Fragments(size, old(seqNr), time));
      rtpQueue.SetSizeOfLastFrame(rtpBytes);
    }

    /** One packet is pushed; n is the unbounded packet number. */
    method PushOne(payload: int, time: real, ghost n: nat)
      requires rtpQueue.Shape() && seqNr == n % 0x1_0000_0000
      modifies this`seqNr, rtpQueue, rtpQueue.items
      ensures rtpQueue.Shape()
      ensures seqNr == (n + 1) % 0x1_0000_0000
      ensures rtpQueue.contents == old(rtpQueue.contents) + [Packet(payload + RTP_OVERHEAD, Wrap16(n), time)]
      ensures old(rtpQueue.Valid()) && |rtpQueue.contents| <= RTP_QUEUE_SIZE ==> rtpQueue.Valid()
    {
      LowBits(n);
      rtpQueue.Push(payload + RTP_OVERHEAD, Wrap16(seqNr), time);
      seqNr := (seqNr + 1) % 0x1_0000_0000;
    }

    /** The loop of `encode`. */
    method PushAll(size: int, time: real) returns (rtpBytes: int)
      requires rtpQueue.Shape() && seqNr < 0x1_0000_0000
      modifies this`seqNr, rtpQueue, rtpQueue.items
      ensures rtpQueue.Shape()
      ensures seqNr == (old(seqNr) + |Fragments(size, old(seqNr), time)|) % 0x1_0000_0000
      ensures rtpBytes == Bytes(Fragments(size, old(seqNr), time))
      ensures rtpQueue.contents == old(rtpQueue.contents) + Fragments(size, old(seqNr), time)
      ensures old(rtpQueue.Valid()) && |rtpQueue.contents| <= RTP_QUEUE_SIZE ==> rtpQueue.Valid()
    {
      var bytes := size;
      rtpBytes := 0;
      ghost var all, done, n := Fragments(size, seqNr, time), [], seqNr;
      SmallNumber(seqNr);
      while bytes > 0
        invariant rtpQueue.Shape()
        invariant seqNr == n % 0x1_0000_0000
        invariant n == old(seqNr) + |done|
        invariant all == done + Fragments(bytes, n, time)
        invariant rtpBytes == Bytes(done)
        invariant rtpQueue.contents == old(rtpQueue.contents) + done
        invariant old(rtpQueue.Valid()) && |rtpQueue.contents| <= RTP_QUEUE_SIZE ==> rtpQueue.Valid()
      {
        var payload := MinInt(MAX_RTP_SIZE, bytes);
        PushOne(payload, time, n);
        FragmentStep(all, done, bytes, n, time);
        done := done + [Packet(payload + RTP_OVERHEAD, Wrap16(n), time)];
        n := n + 1;
        bytes := bytes - payload;
        rtpBytes := rtpBytes + payload + RTP_OVERHEAD;
      }
      NoFragments(all, done, bytes, n, time);
    }
  }

  lemma SmallNumber(n: nat)
    requires n < 0x1_0000_0000
    ensures n % 0x1_0000_0000 == n
  {
  }

  /** One more packet is split off. */
  lemma FragmentStep(all: seq<Packet>, done: seq<Packet>, bytes: int, n: nat, ts: real)
    requires bytes > 0 && all == done + Fragments(bytes, n, ts)
    ensures var payload := MinInt(MAX_RTP_SIZE, bytes);
            var done' := done + [Packet(payload + RTP_OVERHEAD, Wrap16(n), ts)];
            && all == done' + Fragments(bytes - payload, n + 1, ts)
            && Bytes(done') == Bytes(done) + payload + RTP_OVERHEAD
  {
    var payload := MinInt(MAX_RTP_SIZE, bytes);
    var next := Packet(payload + RTP_OVERHEAD, Wrap16(n), ts);
    assert (done + [next])[..|done|] == done;
    assert done + [next] + Fragments(bytes - payload, n + 1, ts) == done + ([next] + Fragments(bytes - payload, n + 1, ts));
  }

  lemma NoFragments(all: seq<Packet>, done: seq<Packet>, bytes: int, n: nat, ts: real)
    requires bytes <= 0 && all == done + Fragments(bytes, n, ts)
    ensures all == done
  {
    assert done + [] == done;
  }

  /** The lower 16 bits of an unsigned int. */
  lemma LowBits(n: nat)
    ensures Wrap16(n % 0x1_0000_0000) == Wrap16(n)
    ensures (n % 0x1_0000_0000 + 1) % 0x1_0000_0000 == (n + 1) % 0x1_0000_0000
  {
    assert n == 65536 * (65536 * (n / 0x1_0000_0000)) + n % 0x1_0000_0000;
  }
}
