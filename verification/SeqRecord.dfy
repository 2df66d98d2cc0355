/** Loss reports from the sequence numbers that arrive (class WebrtcSeqRecord), in uint32_t arithmetic. */
module SeqRecord {
  import opened Arithmetic
  import opened Words

  const UNSET: u32 := 0xFFFF_FFFF

  datatype Record = Record(last: u32, high: u32, received: int)

  const FRESH := Record(UNSET, UNSET, 0)

  function Arrive(s: Record, seqNr: u32): Record {
    if s.high == UNSET || seqNr > s.high then Record(s.last, seqNr, s.received + 1) else s
  }

  /** The report window starts again behind the highest number. */
  function Reset(s: Record): Record {
    Record(s.high, s.high, 0)
  }

  function TotalNumber(s: Record): u32 {
    if s.high == UNSET then 0
    else if s.last != UNSET then Wrap32(s.high - s.last)
    else s.high
  }

  function PacketLost(s: Record): u32 {
    Wrap32(TotalNumber(s) - s.received)
  }

  function FractionLoss(s: Record): nat {
    if TotalNumber(s) == 0 then 0 else Wrap32(PacketLost(s) * 255) / TotalNumber(s) % 256
  }

  // ---- runs ----

  datatype Event = Number(seqNr: u32) | NewWindow

  /** Packets are numbered from 1; the largest 32-bit number marks "nothing yet" and is not used. */
  ghost predicate Numbered(es: seq<Event>) {
    forall i :: 0 <= i < |es| && es[i].Number? ==> 1 <= es[i].seqNr < UNSET
  }

  function After(es: seq<Event>): Record {
    if es == [] then FRESH
    else
      match es[|es| - 1]
      case Number(seqNr) => Arrive(After(es[..|es| - 1]), seqNr)
      case NewWindow => Reset(After(es[..|es| - 1]))
  }

  /** The largest number that arrived, 0 for none. */
  function Highest(es: seq<Event>): nat {
    if es == [] then 0
    else
      var before := Highest(es[..|es| - 1]);
      match es[|es| - 1]
      case Number(seqNr) => if seqNr > before then seqNr else before
      case NewWindow => before
  }

  /** The largest number at the start of the current window. */
  function WindowStart(es: seq<Event>): nat {
    if es == [] then 0
    else if es[|es| - 1].NewWindow? then Highest(es)
    else WindowStart(es[..|es| - 1])
  }

  /** The numbers that set a new maximum in the current window. */
  ghost function NewMaxima(es: seq<Event>): set<nat> {
    if es == [] || es[|es| - 1].NewWindow? then {}
    else
      var before, seqNr := es[..|es| - 1], es[|es| - 1].seqNr;
      NewMaxima(before) + (if seqNr > Highest(before) then {seqNr as nat} else {})
  }

  /** The numbers lo+1..hi. */
  ghost function Interval(lo: nat, hi: nat): set<nat> {
    if hi <= lo then {} else Interval(lo, hi - 1) + {hi}
  }

  lemma {:induction false} IntervalIs(lo: nat, hi: nat)
    ensures forall n :: n in Interval(lo, hi) <==> lo < n <= hi
    ensures |Interval(lo, hi)| == if hi <= lo then 0 else hi - lo
  {
    if lo < hi {
      IntervalIs(lo, hi - 1);
    }
  }

  lemma ComplementSize(part: set<nat>, whole: set<nat>)
    requires part <= whole
    ensures |whole - part| == |whole| - |part|
  {
    assert whole == (whole - part) + part;
  }

  /** What the record stands for. */
  ghost predicate Stands(s: Record, es: seq<Event>) {
    && (s.high == if Highest(es) == 0 then UNSET else Highest(es))
    && (s.last == if WindowStart(es) == 0 then UNSET else WindowStart(es))
    && WindowStart(es) <= Highest(es) < UNSET
    && (forall n :: n in NewMaxima(es) ==> WindowStart(es) < n <= Highest(es))
    && s.received == |NewMaxima(es)|
  }

  lemma {:induction false} RecordStands(es: seq<Event>)
    requires Numbered(es)
    ensures Stands(After(es), es)
  {
    if es != [] {
      var before := es[..|es| - 1];
      assert forall i :: 0 <= i < |before| ==> before[i] == es[i];
      RecordStands(before);
    }
  }

  lemma TotalIs(s: Record, es: seq<Event>)
    requires Stands(s, es)
    ensures TotalNumber(s) == Highest(es) - WindowStart(es)
  {
  }

  lemma LostIs(s: Record)
    requires 0 <= s.received <= TotalNumber(s)
    ensures PacketLost(s) == TotalNumber(s) - s.received
  {
    WrapSmall(TotalNumber(s) - s.received);
  }

  lemma WrapSmall(n: int)
    requires 0 <= n < 0x1_0000_0000
    ensures Wrap32(n) == n
  {
  }

  /** A report: the received count never exceeds the window, so the unsigned difference does not wrap;
      the loss is the number of packets of the window that did not set a new maximum. */
  lemma ReportIsExact(es: seq<Event>)
    requires Numbered(es)
    ensures var s := After(es);
            var window := Interval(WindowStart(es), Highest(es));
            && TotalNumber(s) == |window| == Highest(es) - WindowStart(es)
            && 0 <= s.received <= TotalNumber(s)
            && PacketLost(s) == TotalNumber(s) - s.received == |window - NewMaxima(es)|
  {
    RecordStands(es);
    IntervalIs(WindowStart(es), Highest(es));
    ComplementSize(NewMaxima(es), Interval(WindowStart(es), Highest(es)));
    TotalIs(After(es), es);
    LostIs(After(es));
  }

  /** What all closed windows reported: lost plus received. */
  function Reported(es: seq<Event>): int {
    if es == [] then 0
    else
      var before := es[..|es| - 1];
      Reported(before) + if es[|es| - 1].NewWindow? then PacketLost(After(before)) + After(before).received else 0
  }

  /** Over all windows, lost plus received adds up to the highest number seen. */
  lemma {:induction false} ReportsTelescope(es: seq<Event>)
    requires Numbered(es)
    ensures Reported(es) == WindowStart(es)
    ensures Reported(es) + PacketLost(After(es)) + After(es).received == Highest(es)
  {
    ReportIsExact(es);
    if es != [] {
      var before := es[..|es| - 1];
      assert forall i :: 0 <= i < |before| ==> before[i] == es[i];
      ReportsTelescope(before);
      ReportIsExact(before);
    }
  }

  /** The loss fraction is the exact quotient in units of 1/255, for windows below 2^24. */
  lemma FractionIsExact(es: seq<Event>)
    requires Numbered(es) && 0 < TotalNumber(After(es)) < 0x100_0000
    ensures var s := After(es);
            && FractionLoss(s) == PacketLost(s) * 255 / TotalNumber(s) <= 255
            && (FractionLoss(s) == 255 <==> s.received == 0)
  {
    ReportIsExact(es);
    FractionOf(After(es));
  }

  lemma FractionOf(s: Record)
    requires 0 < TotalNumber(s) < 0x100_0000 && 0 <= s.received <= TotalNumber(s)
    requires PacketLost(s) == TotalNumber(s) - s.received
    ensures FractionLoss(s) == PacketLost(s) * 255 / TotalNumber(s) <= 255
    ensures FractionLoss(s) == 255 <==> s.received == 0
  {
    FractionNumbers(PacketLost(s), TotalNumber(s));
  }

  lemma FractionNumbers(lost: nat, total: nat)
    requires lost <= total && 0 < total < 0x100_0000
    ensures Wrap32(lost * 255) / total % 256 == lost * 255 / total <= 255
    ensures lost * 255 / total == 255 <==> lost == total
  {
    WrapSmall(lost * 255);
    Share(lost, total);
  }

  lemma Share(lost: nat, total: nat)
    requires lost <= total && total > 0
    ensures 0 <= lost * 255 / total <= 255
    ensures lost * 255 / total == 255 <==> lost == total
  {
    var q := lost * 255 / total;
    DivBounds(lost * 255, total);
    if q >= 256 {
      Grow(total, 256, q);
    } else if q <= 254 {
      Grow(total, q, 254);
    }
  }

  class WebrtcSeqRecord {
    var lastSeq: u32
    var highSeq: u32
    var recvCount: int
    /** All arrivals and window starts so far. */
    ghost var history: seq<Event>

    ghost predicate Valid()
      reads this
    {
      State() == After(history)
    }

    function State(): Record
      reads this
    {
      Record(lastSeq, highSeq, recvCount)
    }

    constructor ()
      ensures Valid() && history == []
    {
      lastSeq, highSeq, recvCount := UNSET, UNSET, 0;
      history := [];
    }

    predicate IsInitialized()
      reads this
    {
      highSeq != UNSET
    }

    method OnNewSeq(seqNr: u32)
      requires Valid()
      modifies this
      ensures Valid() && history == old(history) + [Number(seqNr)]
    {
      if !IsInitialized() {
        highSeq := seqNr;
        recvCount := recvCount + 1;
      } else if seqNr > highSeq {
        highSeq := seqNr;
        recvCount := recvCount + 1;
      }
      history := history + [Number(seqNr)];
      assert history[..|history| - 1] == old(history);
    }

    method StartWindow()
      requires Valid()
      modifies this
      ensures Valid() && history == old(history) + [NewWindow]
    {
      lastSeq := highSeq;
      recvCount := 0;
      history := history + [NewWindow];
      assert history[..|history| - 1] == old(history);
    }

    /** The length of the current window. */
    method CountTotal() returns (total: u32)
      requires Valid()
      ensures total == TotalNumber(State())
      ensures Numbered(history) ==> total == Highest(history) - WindowStart(history)
    {
      if Numbered(history) {
        ReportIsExact(history);
      }
      total := 0;
      if IsInitialized() {
        if lastSeq != UNSET {
          total := Wrap32(highSeq - lastSeq);
        } else {
          total := highSeq;
        }
      }
    }

    /** The numbers in the window that did not set a new maximum. */
    method CountLost() returns (lost: u32)
      requires Valid()
      ensures lost == PacketLost(State())
      ensures Numbered(history) ==> lost == |Interval(WindowStart(history), Highest(history)) - NewMaxima(history)|
    {
      if Numbered(history) {
        ReportIsExact(history);
      }
      var total := CountTotal();
      lost := Wrap32(total - recvCount);
    }

    /** Their share of the window, in units of 1/255. */
    method LossFraction() returns (fraction: nat)
      requires Valid()
      ensures fraction == FractionLoss(State())
      ensures Numbered(history) && 0 < Highest(history) - WindowStart(history) < 0x100_0000 ==>
        fraction == |Interval(WindowStart(history), Highest(history)) - NewMaxima(history)| * 255
                    / (Highest(history) - WindowStart(history)) <= 255
    {
      var total := CountTotal();
      var lost := CountLost();
      fraction := 0;
      if total != 0 {
        fraction := Wrap32(lost as int * 255) / total % 256;
      }
      assert fraction == FractionLoss(State());
      if Numbered(history) && 0 < total < 0x100_0000 {
        FractionIsExact(history);
      }
    }

    method ShouldGenerateReport(thresh: u32) returns (yes: bool)
      requires Valid() && Numbered(history)
      ensures yes <==> Highest(history) - WindowStart(history) >= thresh
    {
      var total := CountTotal();
      yes := total >= thresh;
    }
  }
}
