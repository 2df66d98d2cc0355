/** The sender's packet queue (class RtpQueue): a ring of 20000 items with cached byte count, item
    count and next packet size. It is a FIFO queue as long as fewer than 20000 items are in it. */
module RtpQueue {
  import opened Words

  const RTP_QUEUE_SIZE := 20000

  datatype RtpQueueItem = RtpQueueItem(size: int, seqNr: u16, ts: real, used: bool)

  /** A queued packet. */
  datatype Packet = Packet(size: int, seqNr: u16, ts: real)

  function Bytes(ps: seq<Packet>): int {
    if ps == [] then 0 else Bytes(ps[..|ps| - 1]) + ps[|ps| - 1].size
  }

  lemma {:induction false} BytesConcat(a: seq<Packet>, b: seq<Packet>)
    ensures Bytes(a + b) == Bytes(a) + Bytes(b)
  {
    if b == [] {
      assert a + b == a;
    } else {
      BytesConcat(a, b[..|b| - 1]);
      assert (a + b)[..|a + b| - 1] == a + b[..|b| - 1];
    }
  }

  lemma BytesHead(ps: seq<Packet>)
    requires ps != []
    ensures Bytes(ps) == ps[0].size + Bytes(ps[1..])
  {
    BytesConcat(ps[..1], ps[1..]);
    assert ps == ps[..1] + ps[1..];
    assert ps[..1][..0] == [];
  }

  /** The ring index i places after tail. */
  function Index(tail: nat, i: nat): (n: nat)
    requires tail < RTP_QUEUE_SIZE && i <= RTP_QUEUE_SIZE
    ensures n < RTP_QUEUE_SIZE
  {
    if tail + i < RTP_QUEUE_SIZE then tail + i else tail + i - RTP_QUEUE_SIZE
  }

  /** How many places after tail a ring index is. */
  function Place(tail: nat, n: nat): (i: nat)
    requires tail < RTP_QUEUE_SIZE && n < RTP_QUEUE_SIZE
    ensures i < RTP_QUEUE_SIZE && Index(tail, i) == n
  {
    if n >= tail then n - tail else n + RTP_QUEUE_SIZE - tail
  }

  /** The index after n. */
  function After(n: int): int {
    if n + 1 == RTP_QUEUE_SIZE then 0 else n + 1
  }

  class RtpQueue {
    const items: array<RtpQueueItem>
    var head: int
    var tail: nat
    var sizeOfLastFrame: int
    var bytesInQueue: int
    var sizeOfQueue: int
    var sizeOfNextRtp: int
    /** The packets in the queue, the oldest first. */
    ghost var contents: seq<Packet>

    /** What every operation keeps, even on a queue that was overfilled. */
    ghost predicate Shape()
      reads this`head, this`tail
    {
      items.Length == RTP_QUEUE_SIZE && tail < RTP_QUEUE_SIZE && -1 <= head < RTP_QUEUE_SIZE
    }

    /** The ring holds `contents` from tail on, and nothing else. */
    ghost predicate Represents()
      reads this`head, this`tail, this`contents, items
    {
      && Shape()
      && |contents| <= RTP_QUEUE_SIZE
      && After(head) == Index(tail, |contents|)
      && (forall i :: 0 <= i < |contents| ==>
            items[Index(tail, i)] == RtpQueueItem(contents[i].size, contents[i].seqNr, contents[i].ts, true))
      && (forall n :: 0 <= n < RTP_QUEUE_SIZE && Place(tail, n) >= |contents| ==> !items[n].used)
    }

    ghost predicate Valid()
      reads this, items
    {
      && Represents()
      && bytesInQueue == Bytes(contents)
      && sizeOfQueue == |contents|
      && sizeOfNextRtp == if contents == [] then -1 else contents[0].size
    }

    constructor ()
      ensures Valid() && fresh(items)
      ensures contents == [] && sizeOfLastFrame == 0
    {
      items := new RtpQueueItem[RTP_QUEUE_SIZE](_ => RtpQueueItem(0, 0, 0.0, false));
      head, tail, sizeOfLastFrame, bytesInQueue, sizeOfQueue, sizeOfNextRtp := -1, 0, 0, 0, 0, -1;
      contents := [];
    }

    /** There is no check for a full queue. Below 20000 items the packet is appended; at 20000 the oldest
        item is overwritten while the counts go on growing. */
    method Push(size: int, seqNr: u16, ts: real)
      requires Shape()
      modifies this`head, this`bytesInQueue, this`sizeOfQueue, this`sizeOfNextRtp, this`contents, items
      ensures Shape()
      ensures contents == old(contents) + [Packet(size, seqNr, ts)]
      ensures old(Valid()) && |old(contents)| < RTP_QUEUE_SIZE ==> Valid()
      ensures old(Valid()) && |old(contents)| == RTP_QUEUE_SIZE ==>
        && items[..] == old(items[..])[tail := RtpQueueItem(size, seqNr, ts, true)]
        && sizeOfQueue == RTP_QUEUE_SIZE + 1
        && bytesInQueue == Bytes(old(contents)) + size
        && !Valid()
    {
      Store(size, seqNr, ts);
      bytesInQueue := bytesInQueue + size;
      sizeOfQueue := sizeOfQueue + 1;
      ComputeSizeOfNextRtp();
      assert Index(tail, 0) == tail;
    }

    /** Moves head on and fills the slot there. */
    method Store(size: int, seqNr: u16, ts: real)
      requires Shape()
      modifies this`head, this`contents, items
      ensures Shape()
      ensures head == After(old(head))
      ensures items[..] == old(items[..])[head := RtpQueueItem(size, seqNr, ts, true)]
      ensures contents == old(contents) + [Packet(size, seqNr, ts)]
      ensures old(Represents()) && |old(contents)| < RTP_QUEUE_SIZE ==> Represents()
      ensures old(Represents()) && |old(contents)| == RTP_QUEUE_SIZE ==> head == tail
    {
      head := head + 1;
      if head == RTP_QUEUE_SIZE {
        head := 0;
      }
      items[head] := RtpQueueItem(size, seqNr, ts, true);
      contents := contents + [Packet(size, seqNr, ts)];
    }

    method ComputeSizeOfNextRtp()
      requires items.Length == RTP_QUEUE_SIZE && tail < RTP_QUEUE_SIZE
      modifies this`sizeOfNextRtp
      ensures sizeOfNextRtp == if items[tail].used then items[tail].size else -1
    {
      if !items[tail].used {
        sizeOfNextRtp := -1;
      } else {
        sizeOfNextRtp := items[tail].size;
      }
    }

    /** The oldest packet leaves the queue. */
    method Pop() returns (ok: bool, size: int, seqNr: u16)
      requires Valid()
      modifies this`tail, this`bytesInQueue, this`sizeOfQueue, this`sizeOfNextRtp, this`contents, items
      ensures Valid()
      ensures ok <==> old(contents) != []
      ensures ok ==> size == old(contents)[0].size && seqNr == old(contents)[0].seqNr && contents == old(contents)[1..]
      ensures !ok ==> contents == []
    {
      assert Index(tail, 0) == tail;
      if !items[tail].used {
        assert Place(tail, tail) == 0;
        sizeOfNextRtp := -1;
        return false, 0, 0;
      }
      assert Place(tail, tail) == 0;
      ok, size, seqNr := true, items[tail].size, items[tail].seqNr;
      BytesHead(contents);
      Release();
      bytesInQueue := bytesInQueue - size;
      sizeOfQueue := sizeOfQueue - 1;
      ComputeSizeOfNextRtp();
      assert contents != [] ==> Index(tail, 0) == tail;
      assert contents == [] ==> Place(tail, tail) == 0;
    }

    /** Frees the slot at tail and moves tail on. */
    method Release()
      requires Represents() && contents != []
      modifies this`tail, this`contents, items
      ensures Represents() && contents == old(contents)[1..]
    {
      assert Index(tail, 0) == tail;
      ghost var before := tail;
      items[tail] := items[tail].(used := false);
      tail := tail + 1;
      if tail == RTP_QUEUE_SIZE {
        tail := 0;
      }
      contents := contents[1..];
      TailMoved(before, tail);
    }

    method SendPacket() returns (ok: bool, size: int, seqNr: u16)
      requires Valid()
      modifies this`tail, this`bytesInQueue, this`sizeOfQueue, this`sizeOfNextRtp, this`contents, items
      ensures Valid()
      ensures ok <==> old(contents) != []
      ensures ok ==> size == old(contents)[0].size && seqNr == old(contents)[0].seqNr && contents == old(contents)[1..]
      ensures !ok ==> contents == []
    {
      ok, size, seqNr := false, 0, 0;
      if sizeOfQueue > 0 {
        ok, size, seqNr := Pop();
      }
    }

    method SeqNrOfNextRtp() returns (seqNr: int)
      requires Valid()
      ensures seqNr == if contents == [] then -1 else contents[0].seqNr
    {
      assert Index(tail, 0) == tail && Place(tail, tail) == 0;
      seqNr := if !items[tail].used then -1 else items[tail].seqNr;
    }

    method GetDelay(currTs: real) returns (delay: real)
      requires Valid()
      ensures delay == if contents == [] then 0.0 else currTs - contents[0].ts
    {
      assert Index(tail, 0) == tail && Place(tail, tail) == 0;
      delay := if !items[tail].used then 0.0 else currTs - items[tail].ts;
    }

    method SetSizeOfLastFrame(size: int)
      modifies this`sizeOfLastFrame
      ensures sizeOfLastFrame == size
      ensures old(Valid()) ==> Valid()
    {
      sizeOfLastFrame := size;
    }

    method Clear()
      requires Valid()
      modifies this`head, this`tail, this`bytesInQueue, this`sizeOfQueue, this`sizeOfNextRtp, this`contents, items
      ensures Valid() && contents == []
    {
      for n := 0 to RTP_QUEUE_SIZE
        invariant forall i :: 0 <= i < n ==> !items[i].used
      {
        items[n] := items[n].(used := false);
      }
      head, tail, bytesInQueue, sizeOfQueue, sizeOfNextRtp := -1, 0, 0, 0, -1;
      contents := [];
    }
  }

  /** Moving tail by one moves every place by one. */
  lemma TailMoved(tail: nat, tail': nat)
    requires tail < RTP_QUEUE_SIZE && tail' == After(tail)
    ensures forall i: nat :: i < RTP_QUEUE_SIZE ==> Index(tail', i) == Index(tail, i + 1)
    ensures forall n: nat :: n < RTP_QUEUE_SIZE ==>
              Place(tail', n) == if n == tail then RTP_QUEUE_SIZE - 1 else Place(tail, n) - 1
  {
  }
}
