/** Which source the receiver reports next (ScreamRx::getFeedback): among the sources with packets
    pending, the one reported longest ago; the first in the list when several are tied. */
module FeedbackScheduling {

  /** When a source was last reported, and how many of its packets arrived since. */
  datatype Entry = Entry(last: nat, pending: nat)

  /** ULLONG_MAX, where the search for the smallest time starts. */
  const NEVER: nat := 0xFFFF_FFFF_FFFF_FFFF

  predicate Eligible(e: Entry) {
    e.pending > 0 && e.last < NEVER
  }

  /** Source j comes before source k in reporting order. */
  predicate Before(es: seq<Entry>, j: nat, k: nat)
    requires j < |es| && k < |es|
  {
    es[j].last < es[k].last || (es[j].last == es[k].last && j < k)
  }

  /** Source k is the one to report. */
  ghost predicate Picks(es: seq<Entry>, k: nat) {
    && k < |es|
    && Eligible(es[k])
    && (forall j :: 0 <= j < |es| && j != k && Eligible(es[j]) ==> Before(es, k, j))
  }

  lemma PickIsUnique(es: seq<Entry>, j: nat, k: nat)
    requires Picks(es, j) && Picks(es, k)
    ensures j == k
  {
  }

  /** A packet of source k arrives, or source k is reported at some time. */
  datatype Event = Packet(k: nat) | Report(k: nat, time: nat)

  ghost predicate Enabled(es: seq<Entry>, e: Event) {
    match e
    case Packet(k) => k < |es|
    case Report(k, time) => Picks(es, k) && time < NEVER && forall j :: 0 <= j < |es| ==> es[j].last < time
  }

  function Next(es: seq<Entry>, e: Event): seq<Entry>
    requires e.k < |es|
  {
    match e
    case Packet(k) => es[k := Entry(es[k].last, es[k].pending + 1)]
    case Report(k, time) => es[k := Entry(time, 0)]
  }

  /** `run` can happen from `es`: every report picks as the code does, at a time after all
      earlier reports. */
  ghost predicate Run(es: seq<Entry>, run: seq<Event>)
    decreases |run|
  {
    run == [] || (Enabled(es, run[0]) && Run(Next(es, run[0]), run[1..]))
  }

  function Reports(run: seq<Event>): nat {
    if run == [] then 0 else (if run[0].Report? then 1 else 0) + Reports(run[1..])
  }

  /** The sources that are ordered before source i. */
  ghost function Ahead(es: seq<Entry>, i: nat): set<nat>
    requires i < |es|
  {
    set j: nat | j < |es| && j != i && Before(es, j, i)
  }

  lemma {:induction false} AheadIsFew(es: seq<Entry>, i: nat)
    requires i < |es|
    ensures |Ahead(es, i)| < |es|
  {
    IndicesAre(|es|);
    assert Ahead(es, i) <= Indices(|es|) - {i};
    SubsetIsSmaller(Ahead(es, i), Indices(|es|) - {i});
  }

  ghost function Indices(n: nat): set<nat> {
    if n == 0 then {} else Indices(n - 1) + {n - 1}
  }

  lemma {:induction false} IndicesAre(n: nat)
    ensures |Indices(n)| == n
    ensures forall j: nat :: j in Indices(n) <==> j < n
  {
    if n > 0 {
      IndicesAre(n - 1);
    }
  }

  lemma {:induction false} SubsetIsSmaller(a: set<nat>, b: set<nat>)
    requires a <= b
    ensures |a| <= |b|
  {
    assert b == a + (b - a);
  }

  /** Fairness: while source i has packets pending and is not reported, every report goes to a
      source ordered before i and moves it behind i. So it is passed over at most as often as
      there are sources ordered before it, however arrivals interleave. */
  lemma {:induction false} PassedOver(es: seq<Entry>, run: seq<Event>, i: nat)
    requires Run(es, run)
    requires i < |es| && Eligible(es[i])
    requires forall n :: 0 <= n < |run| ==> !(run[n].Report? && run[n].k == i)
    ensures Reports(run) <= |Ahead(es, i)|
    decreases |run|
  {
    if run != [] {
      var e, es' := run[0], Next(es, run[0]);
      assert forall n :: 0 <= n < |run[1..]| ==> run[1..][n] == run[n + 1];
      PassedOver(es', run[1..], i);
      if e.Report? {
        assert Before(es, e.k, i);
        assert Ahead(es', i) == Ahead(es, i) - {e.k};
      } else {
        assert Ahead(es', i) == Ahead(es, i);
      }
    }
  }

  /** A source with packets pending is reported within as many reports as there are sources. */
  lemma ReportedInTime(es: seq<Entry>, run: seq<Event>, i: nat)
    requires Run(es, run)
    requires i < |es| && Eligible(es[i])
    requires Reports(run) >= |es|
    ensures exists n :: 0 <= n < |run| && run[n].Report? && run[n].k == i
  {
    if forall n :: 0 <= n < |run| ==> !(run[n].Report? && run[n].k == i) {
      PassedOver(es, run, i);
      AheadIsFew(es, i);
    }
  }
}
