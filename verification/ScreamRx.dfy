/** The receiver endpoint (class ScreamRx): one entry per source, and the feedback packets. */
module ScreamRx {
  import opened Words
  import opened Receiver
  import opened FeedbackPacket
  import FS = FeedbackScheduling

  function EntryOf(stream: RxStream): FS.Entry
    reads stream
  {
    FS.Entry(stream.lastFeedbackTime, stream.rtpSinceLastRtcp)
  }

  /** What a feedback says about a source. */
  function ReportOf(stream: RxStream): Feedback
    reads stream
  {
    Feedback(stream.ssrc, stream.receiveTimestamp, stream.highestSeqNr, stream.ackVector, stream.ecnCeMarkedBytes)
  }

  /** The count of CE-marked bytes after a packet. */
  function MarkedBytes(before: u16, size: nat, isEcnCe: bool): u16 {
    if isEcnCe then Wrap16(before + size) else before
  }

  class ScreamRx {
    const ssrc: u32
    var streams: seq<RxStream>
    var lastFeedbackTime: nat

    constructor (ssrc: u32)
      ensures Valid() && streams == [] && this.ssrc == ssrc
    {
      this.ssrc := ssrc;
      streams := [];
      lastFeedbackTime := 0;
    }

    /** One entry per source. */
    ghost predicate Valid()
      reads this, streams
    {
      && (forall i, j :: 0 <= i < j < |streams| ==> streams[i] != streams[j])
      && (forall i, j :: 0 <= i < j < |streams| ==> streams[i].ssrc != streams[j].ssrc)
    }

    /** The sources as the feedback selection sees them. */
    ghost function Entries(): (es: seq<FS.Entry>)
      reads this, streams
      ensures |es| == |streams|
      ensures forall i :: 0 <= i < |streams| ==> es[i] == EntryOf(streams[i])
    {
      seq(|streams|, i requires 0 <= i < |streams| reads this, streams => EntryOf(streams[i]))
    }

    /** The entry of a source. */
    method FindStream(source: u32) returns (k: Option<nat>)
      ensures match k
              case Some(i) => i < |streams| && streams[i].ssrc == source
              case None => forall i :: 0 <= i < |streams| ==> streams[i].ssrc != source
    {
      for n := 0 to |streams|
        invariant forall i :: 0 <= i < n ==> streams[i].ssrc != source
      {
        if streams[n].ssrc == source {
          return Some(n);
        }
      }
      return None;
    }

    /** A packet of source `source`: its entry is made on its first packet; no other entry changes. */
    method Receive(time: nat, source: u32, size: nat, seqNr: u16, isEcnCe: bool)
      requires Valid()
      modifies this, streams
      ensures Valid()
      ensures old(streams) <= streams
      ensures forall i :: 0 <= i < |old(streams)| && streams[i].ssrc != source ==> unchanged(streams[i])
      ensures forall i :: 0 <= i < |old(streams)| && streams[i].ssrc == source ==>
        && streams == old(streams)
        && Entries() == FS.Next(old(Entries()), FS.Packet(i))
        && streams[i].Kept() == Arrive(old(streams[i].Kept()), seqNr)
        && streams[i].receiveTimestamp == Wrap32(time / 1000)
        && streams[i].ecnCeMarkedBytes == MarkedBytes(old(streams[i].ecnCeMarkedBytes), size, isEcnCe)
      ensures (forall i :: 0 <= i < |old(streams)| ==> old(streams)[i].ssrc != source) ==>
        && |streams| == |old(streams)| + 1
        && streams[|old(streams)|].ssrc == source
        && streams[|old(streams)|].Kept() == Arrive(NOTHING_RECEIVED, seqNr)
        && streams[|old(streams)|].receiveTimestamp == Wrap32(time / 1000)
        && streams[|old(streams)|].ecnCeMarkedBytes == MarkedBytes(0, size, isEcnCe)
        && Entries() == old(Entries()) + [FS.Entry(0, 1)]
    {
      var k := FindStream(source);
      match k {
        case Some(i) =>
          streams[i].Receive(time, size, seqNr, isEcnCe);
          assert Entries() == FS.Next(old(Entries()), FS.Packet(i));
        case None =>
          AddStream(time, source, size, seqNr, isEcnCe);
      }
    }

    /** The first packet of a source. */
    method AddStream(time: nat, source: u32, size: nat, seqNr: u16, isEcnCe: bool)
      requires Valid() && forall i :: 0 <= i < |streams| ==> streams[i].ssrc != source
      modifies this`streams
      ensures Valid()
      ensures |streams| == |old(streams)| + 1 && old(streams) <= streams
      ensures streams[|old(streams)|].ssrc == source
      ensures streams[|old(streams)|].Kept() == Arrive(NOTHING_RECEIVED, seqNr)
      ensures streams[|old(streams)|].receiveTimestamp == Wrap32(time / 1000)
      ensures streams[|old(streams)|].ecnCeMarkedBytes == MarkedBytes(0, size, isEcnCe)
      ensures Entries() == old(Entries()) + [FS.Entry(0, 1)]
    {
      var stream := new RxStream(source);
      stream.Receive(time, size, seqNr, isEcnCe);
      streams := streams + [stream];
      assert Entries() == old(Entries()) + [FS.Entry(0, 1)];
    }

    method IsFeedback() returns (pending: bool)
      ensures pending <==> exists i :: 0 <= i < |streams| && streams[i].rtpSinceLastRtcp > 0
    {
      for n := 0 to |streams|
        invariant forall i :: 0 <= i < n ==> streams[i].rtpSinceLastRtcp == 0
      {
        if streams[n].rtpSinceLastRtcp >= 1 {
          return true;
        }
      }
      return false;
    }

    /** Selects the source to report. */
    method PickStream() returns (k: Option<nat>)
      requires Valid()
      ensures match k
              case Some(i) => FS.Picks(Entries(), i)
              case None => forall i :: 0 <= i < |streams| ==> !FS.Eligible(Entries()[i])
    {
      k := None;
      var minTime := FS.NEVER;
      for n := 0 to |streams|
        invariant minTime <= FS.NEVER
        invariant k.None? ==> minTime == FS.NEVER
        invariant k.None? ==> forall i :: 0 <= i < n ==> !FS.Eligible(Entries()[i])
        invariant k.Some? ==>
          && k.value < n
          && FS.Eligible(Entries()[k.value])
          && minTime == Entries()[k.value].last
          && forall j :: 0 <= j < n && j != k.value && FS.Eligible(Entries()[j]) ==> FS.Before(Entries(), k.value, j)
      {
        if streams[n].rtpSinceLastRtcp > 0 && streams[n].lastFeedbackTime < minTime {
          k := Some(n);
          minTime := streams[n].lastFeedbackTime;
        }
      }
    }

    /** The next feedback: what the picked source keeps, with its pending packets settled. */
    method GetFeedback(time: nat) returns (feedback: Option<Feedback>, ghost k: nat)
      requires Valid()
      modifies this`lastFeedbackTime, streams
      ensures Valid() && streams == old(streams)
      ensures forall i :: 0 <= i < |streams| ==>
        streams[i].Kept() == old(streams[i].Kept()) && ReportOf(streams[i]) == old(ReportOf(streams[i]))
      ensures feedback.None? <==> forall i :: 0 <= i < |streams| ==> !FS.Eligible(old(Entries())[i])
      ensures feedback.None? ==> Entries() == old(Entries()) && lastFeedbackTime == old(lastFeedbackTime)
      ensures feedback.Some? ==>
        && FS.Picks(old(Entries()), k)
        && Entries() == FS.Next(old(Entries()), FS.Report(k, time))
        && feedback.value == ReportOf(streams[k])
        && streams[k].highestSeqNrTx == streams[k].highestSeqNr
        && lastFeedbackTime == time
    {
      var pick := PickStream();
      k := 0;
      assert Entries() == old(Entries());
      if pick.None? {
        return None, 0;
      }
      k := pick.value;
      var stream := streams[pick.value];
      stream.highestSeqNrTx := stream.highestSeqNr;
      feedback := Some(Feedback(stream.ssrc, stream.receiveTimestamp, stream.highestSeqNr,
                                stream.ackVector, stream.ecnCeMarkedBytes));
      stream.lastFeedbackTime := time;
      stream.rtpSinceLastRtcp := 0;
      lastFeedbackTime := time;
    }

    /** Fills the first 32 bytes of `buf` with the next feedback, if any source has packets pending. */
    method CreateFeedback(time: nat, buf: array<byte>) returns (feedback: Option<Feedback>, ghost k: nat)
      requires Valid() && buf.Length >= PACKET_SIZE
      modifies this`lastFeedbackTime, streams, buf
      ensures Valid() && streams == old(streams)
      ensures feedback.Some? ==>
        && FS.Picks(old(Entries()), k)
        && Entries() == FS.Next(old(Entries()), FS.Report(k, time))
        && feedback.value == ReportOf(streams[k])
      ensures feedback.None? <==> forall i :: 0 <= i < |streams| ==> !FS.Eligible(old(Entries())[i])
      ensures feedback.Some? ==> buf[..PACKET_SIZE] == Encode(ssrc, feedback.value)
      ensures feedback.None? ==> Entries() == old(Entries()) && buf[..] == old(buf[..])
      ensures forall i :: PACKET_SIZE <= i < buf.Length ==> buf[i] == old(buf[i])
    {
      k := 0;
      var pending := IsFeedback();
      if !pending {
        return None, 0;
      }
      feedback, k := GetFeedback(time);
      assert buf[..] == old(buf[..]);
      ghost var es := Entries();
      if feedback.Some? {
        FillPacket(buf, ssrc, feedback.value);
        assert Entries() == es;
      }
    }
  }

  /** Writes the packet field by field. */
  method FillPacket(buf: array<byte>, session: u32, f: Feedback)
    requires buf.Length >= PACKET_SIZE
    modifies buf
    ensures buf[..PACKET_SIZE] == Encode(session, f)
    ensures forall i :: PACKET_SIZE <= i < buf.Length ==> buf[i] == old(buf[i])
  {
    buf[0], buf[1] := 0x80, 207;
    Put(buf, 2, Bytes16(6));
    Put(buf, 4, Bytes32(session));
    ghost var head := [0x80, 207] + Bytes16(6) + Bytes32(session);
    assert buf[..8] == head;
    buf[8], buf[9] := 0xFF, 0;
    assert buf[..8] == head;
    assert buf[..10] == head + [0xFF, 0];
    Put(buf, 10, Bytes16(4));
    Put(buf, 12, Bytes32(f.ssrc));
    Put(buf, 16, Bytes16(f.highest));
    Put(buf, 18, Bytes16(f.ecnCeBytes));
    Put(buf, 20, Bytes32(Upper32(f.ack)));
    Put(buf, 24, Bytes32(Lower32(f.ack)));
    Put(buf, 28, Bytes32(f.timestamp));
  }

  /** `memcpy(buf + at, bytes, |bytes|)`. */
  method Put(buf: array<byte>, at: nat, bytes: seq<byte>)
    requires at + |bytes| <= buf.Length
    modifies buf
    ensures buf[..at + |bytes|] == old(buf[..at]) + bytes
    ensures forall i :: at + |bytes| <= i < buf.Length ==> buf[i] == old(buf[i])
  {
    for i := 0 to |bytes|
      invariant buf[..at + i] == old(buf[..at]) + bytes[..i]
      invariant forall j :: at + i <= j < buf.Length ==> buf[j] == old(buf[j])
    {
      buf[at + i] := bytes[i];
    }
  }
}
