/** The choice between streams (ScreamTx::getPrioritizedStream, addCredit, subtractCredit): a stream
    that has to wait earns credit, the stream with the most credit transmits. */
module CreditScheduler {
  import opened Arithmetic

  /** What the scheduler sees of a stream: its credit, its priority, and its RTP queue. */
  datatype Share = Share(credit: int, creditLost: int, priority: real, priorityInv: real,
                         sizeOfQueue: nat, sizeOfNextRtp: int)

  /** The stream has a packet and credit for it. */
  predicate Eligible(s: Share) {
    s.sizeOfQueue > 0 && s.credit >= MaxInt(1, s.sizeOfNextRtp)
  }

  predicate Waiting(s: Share) {
    s.sizeOfQueue > 0 && s.priority > 0.0
  }

  /** k is the eligible stream with the most credit, the last one of those. */
  ghost predicate BestCredit(ss: seq<Share>, k: nat) {
    && k < |ss| && Eligible(ss[k])
    && (forall j :: 0 <= j < |ss| && Eligible(ss[j]) ==> ss[j].credit <= ss[k].credit)
    && (forall j :: k < j < |ss| && Eligible(ss[j]) ==> ss[j].credit < ss[k].credit)
  }

  /** k is the stream with a packet that has the highest priority, the first one of those. */
  ghost predicate BestPriority(ss: seq<Share>, k: nat) {
    && k < |ss| && Waiting(ss[k])
    && (forall j :: 0 <= j < |ss| && Waiting(ss[j]) ==> ss[j].priority <= ss[k].priority)
    && (forall j :: 0 <= j < k && Waiting(ss[j]) ==> ss[j].priority < ss[k].priority)
  }

  ghost predicate NoneEligible(ss: seq<Share>) {
    forall j :: 0 <= j < |ss| ==> !Eligible(ss[j])
  }

  ghost predicate NoneWaiting(ss: seq<Share>) {
    forall j :: 0 <= j < |ss| ==> !Waiting(ss[j])
  }

  /** The stream that transmits next (-1: none). A single stream is chosen unconditionally. */
  ghost predicate Picks(ss: seq<Share>, k: int) {
    if |ss| == 1 then k == 0
    else if k >= 0 then BestCredit(ss, k) || (NoneEligible(ss) && BestPriority(ss, k))
    else k == -1 && NoneEligible(ss) && NoneWaiting(ss)
  }

  lemma PickIsUnique(ss: seq<Share>, j: int, k: int)
    requires Picks(ss, j) && Picks(ss, k)
    ensures j == k
  {
  }

  // ---- credit ----

  /** The credit that stream s earns when stream `served` transmits. */
  function Gain(s: Share, served: Share, bytes: nat): int {
    Trunc(bytes as real * s.priority * served.priorityInv)
  }

  /** Credit is capped while the queue is empty. */
  function Credited(s: Share, served: Share, bytes: nat, mss: int): Share {
    var credit := s.credit + Gain(s, served, bytes);
    if s.sizeOfQueue > 0 || credit <= 10 * mss then s.(credit := credit)
    else s.(credit := 10 * mss, creditLost := s.creditLost + credit - 10 * mss)
  }

  function Charged(s: Share, bytes: nat): Share {
    s.(credit := MaxInt(0, s.credit - bytes))
  }

  /** All streams but k after stream k transmitted: they earn. */
  function Earned(ss: seq<Share>, k: nat, bytes: nat, mss: int): (r: seq<Share>)
    requires k < |ss|
    ensures |r| == |ss|
  {
    if |ss| == 1 then ss
    else seq(|ss|, i requires 0 <= i < |ss| => if i == k then ss[i] else Credited(ss[i], ss[k], bytes, mss))
  }

  /** Stream k after it transmitted: it pays. */
  function Paid(ss: seq<Share>, k: nat, bytes: nat): (r: seq<Share>)
    requires k < |ss|
    ensures |r| == |ss|
  {
    if |ss| == 1 then ss else ss[k := Charged(ss[k], bytes)]
  }

  /** All streams after stream k transmitted. */
  function Served(ss: seq<Share>, k: nat, bytes: nat, mss: int): (r: seq<Share>)
    requires k < |ss|
    ensures |r| == |ss|
  {
    Paid(Earned(ss, k, bytes, mss), k, bytes)
  }

  ghost predicate Positive(ss: seq<Share>) {
    forall i :: 0 <= i < |ss| ==> ss[i].credit >= 0 && ss[i].creditLost >= 0 && ss[i].priority > 0.0 && ss[i].priorityInv > 0.0
  }

  lemma GainNonNegative(s: Share, served: Share, bytes: nat)
    requires s.priority > 0.0 && served.priorityInv > 0.0
    ensures Gain(s, served, bytes) >= 0
  {
    var earned := bytes as real * s.priority;
    ProductNonNegative(bytes as real, s.priority);
    ProductNonNegative(earned, served.priorityInv);
  }

  /** Credits never become negative, for any number of streams. */
  lemma ServedPositive(ss: seq<Share>, k: nat, bytes: nat, mss: nat)
    requires Positive(ss) && k < |ss|
    ensures Positive(Served(ss, k, bytes, mss))
  {
    forall i | 0 <= i < |ss| && i != k
      ensures Credited(ss[i], ss[k], bytes, mss).credit >= 0 && Credited(ss[i], ss[k], bytes, mss).creditLost >= 0
    {
      GainNonNegative(ss[i], ss[k], bytes);
    }
  }

  // ---- what a transmission costs and earns ----

  /** The stream pays for the bytes with all credit that it takes, and with no more than it has. */
  predicate Pays(s: Share, s': Share, bytes: nat) {
    var paid := s.credit - s'.credit;
    paid <= bytes && paid <= s.credit && (paid == bytes || paid == s.credit) && s' == s.(credit := s'.credit)
  }

  /** The stream earns the whole part of what is due. Only with an empty queue is its credit cut to ten segments, and
      what is cut counts as lost. */
  predicate Earns(s: Share, s': Share, due: real, mss: int) {
    var earned := s'.credit + s'.creditLost - s.credit - s.creditLost;
    var cut := s.sizeOfQueue == 0 && s.credit + earned > 10 * mss;
    && earned as real <= due < earned as real + 1.0
    && (cut ==> s'.credit == 10 * mss)
    && (!cut ==> s'.creditLost == s.creditLost)
    && s' == s.(credit := s'.credit, creditLost := s'.creditLost)
  }

  /** How a transmission by stream k leaves the credits of two or more streams. */
  ghost predicate Settles(ss: seq<Share>, ss': seq<Share>, k: nat, bytes: nat, mss: int) {
    && |ss'| == |ss| && k < |ss|
    && Pays(ss[k], ss'[k], bytes)
    && (forall i :: 0 <= i < |ss| && i != k ==> Earns(ss[i], ss'[i], bytes as real * ss[i].priority * ss[k].priorityInv, mss))
  }

  lemma CreditedEarns(s: Share, served: Share, bytes: nat, mss: int)
    requires s.priority > 0.0 && served.priorityInv > 0.0
    ensures Earns(s, Credited(s, served, bytes, mss), bytes as real * s.priority * served.priorityInv, mss)
  {
    GainNonNegative(s, served, bytes);
    var due := bytes as real * s.priority * served.priorityInv;
    assert due >= 0.0 by {
      ProductNonNegative(bytes as real, s.priority);
      ProductNonNegative(bytes as real * s.priority, served.priorityInv);
    }
    assert Gain(s, served, bytes) == due.Floor;
  }

  /** The stream that transmitted pays, all others earn; a single stream does neither. */
  lemma ServedSettles(ss: seq<Share>, k: nat, bytes: nat, mss: int)
    requires Positive(ss) && k < |ss|
    ensures if |ss| == 1 then Served(ss, k, bytes, mss) == ss else Settles(ss, Served(ss, k, bytes, mss), k, bytes, mss)
  {
    forall i | 0 <= i < |ss| && i != k
      ensures Earns(ss[i], Credited(ss[i], ss[k], bytes, mss), bytes as real * ss[i].priority * ss[k].priorityInv, mss)
    {
      CreditedEarns(ss[i], ss[k], bytes, mss);
    }
  }

  lemma EarnsOne(s: Share, a: Share, b: Share, due: real, mss: int)
    requires Earns(s, a, due, mss) && Earns(s, b, due, mss)
    ensures a == b
  {
  }

  /** Paying and earning leave no choice. */
  lemma SettlesIsUnique(ss: seq<Share>, a: seq<Share>, b: seq<Share>, k: nat, bytes: nat, mss: int)
    requires Settles(ss, a, k, bytes, mss) && Settles(ss, b, k, bytes, mss)
    ensures a == b
  {
    forall i | 0 <= i < |ss| ensures a[i] == b[i] {
      if i != k {
        EarnsOne(ss[i], a[i], b[i], bytes as real * ss[i].priority * ss[k].priorityInv, mss);
      }
    }
  }

  // ---- a stream that alone is eligible ----

  /** The same credits and priorities, whatever the queues hold. */
  predicate SameCredits(ss: seq<Share>, ss': seq<Share>) {
    |ss'| == |ss| && forall i :: 0 <= i < |ss| ==>
      ss'[i].(sizeOfQueue := ss[i].sizeOfQueue, sizeOfNextRtp := ss[i].sizeOfNextRtp) == ss[i]
  }

  ghost predicate OthersIneligible(ss: seq<Share>, k: nat) {
    forall j :: 0 <= j < |ss| && j != k ==> !Eligible(ss[j])
  }

  /** A run in which stream k transmits its next packet time and again; in between the queues may change, but stream k
      has a next packet and no other stream becomes eligible. */
  ghost predicate Alone(states: seq<seq<Share>>, k: nat, mss: nat) {
    && (forall i :: 0 <= i < |states| ==>
          && |states[i]| >= 2 && k < |states[i]| && Positive(states[i]) && OthersIneligible(states[i], k)
          && states[i][k].sizeOfQueue > 0 && states[i][k].sizeOfNextRtp >= 1)
    && (forall i :: 0 <= i < |states| - 1 ==>
          SameCredits(Served(states[i], k, states[i][k].sizeOfNextRtp, mss), states[i + 1]))
  }

  /** The bytes of the next packets of stream k in these states. */
  function NextBytes(states: seq<seq<Share>>, k: nat): int
    requires forall i :: 0 <= i < |states| ==> k < |states[i]|
  {
    if states == [] then 0 else states[0][k].sizeOfNextRtp + NextBytes(states[1..], k)
  }

  lemma NextBytesPositive(states: seq<seq<Share>>, k: nat)
    requires forall i :: 0 <= i < |states| ==> k < |states[i]| && states[i][k].sizeOfNextRtp >= 1
    ensures NextBytes(states, k) >= |states|
  {
  }

  /** As long as its credit covers its packets, and no longer, the stream is picked for its credit: the last packet of the
      run is, if and only if the credit at the start covers all of them. What it has not spent is left. */
  lemma {:induction false} CreditCovers(states: seq<seq<Share>>, k: nat, mss: nat)
    requires states != [] && Alone(states, k, mss)
    requires NextBytes(states[..|states| - 1], k) <= states[0][k].credit
    ensures var last := states[|states| - 1];
            && last[k].credit == states[0][k].credit - NextBytes(states[..|states| - 1], k)
            && (BestCredit(last, k) <==> NextBytes(states, k) <= states[0][k].credit)
            && (NextBytes(states, k) <= states[0][k].credit ==> Picks(last, k))
    decreases |states|
  {
    var rest := states[1..];
    if rest == [] {
      assert states[..0] == [] && NextBytes(rest, k) == 0;
    } else {
      assert states[..|states| - 1][1..] == rest[..|rest| - 1];
      NextBytesPositive(rest[..|rest| - 1], k);
      ServedSettles(states[0], k, states[0][k].sizeOfNextRtp, mss);
      AloneTail(states, k, mss);
      CreditCovers(rest, k, mss);
    }
  }

  lemma AloneTail(states: seq<seq<Share>>, k: nat, mss: nat)
    requires |states| > 1 && Alone(states, k, mss)
    ensures Alone(states[1..], k, mss)
    ensures SameCredits(Served(states[0], k, states[0][k].sizeOfNextRtp, mss), states[1])
  {
    forall i | 0 <= i < |states[1..]| - 1
      ensures SameCredits(Served(states[1..][i], k, states[1..][i][k].sizeOfNextRtp, mss), states[1..][i + 1])
    {
      assert states[1..][i] == states[i + 1] && states[1..][i + 1] == states[i + 2];
      assert SameCredits(Served(states[i + 1], k, states[i + 1][k].sizeOfNextRtp, mss), states[i + 2]);
    }
    assert SameCredits(Served(states[0], k, states[0][k].sizeOfNextRtp, mss), states[0 + 1]);
  }

  // ---- bounded wait ----

  function Other(a: nat): (b: nat)
    requires a < 2
    ensures b < 2 && b != a
  {
    1 - a
  }

  /** Two streams with packets waiting. */
  ghost predicate Backlogged(ss: seq<Share>) {
    && |ss| == 2 && Positive(ss)
    && forall i :: 0 <= i < 2 ==> ss[i].sizeOfQueue > 0 && ss[i].sizeOfNextRtp >= 1
  }

  /** Both streams after the other one transmitted its next packet and still has one, of size `next`. */
  function AfterOther(ss: seq<Share>, a: nat, next: nat, mss: nat): seq<Share>
    requires |ss| == 2 && a < 2 && ss[Other(a)].sizeOfNextRtp >= 0
  {
    var b := Other(a);
    var served := Served(ss, b, ss[b].sizeOfNextRtp, mss);
    served[b := served[b].(sizeOfNextRtp := next)]
  }

  /** In this run stream a is passed over each time: the other stream transmits, then has a packet of
      the size listed; each transmission is worth at least one unit of credit to a, unless a has credit for
      its packet already. */
  ghost predicate PassedOver(ss: seq<Share>, a: nat, sizes: seq<nat>, mss: nat)
    requires |ss| == 2 && a < 2
    decreases |sizes|
  {
    sizes == [] ||
    (&& Backlogged(ss) && Picks(ss, Other(a)) && sizes[0] >= 1
     && (Eligible(ss[a]) || Gain(ss[a], ss[Other(a)], ss[Other(a)].sizeOfNextRtp) >= 1)
     && PassedOver(AfterOther(ss, a, sizes[0], mss), a, sizes[1..], mss))
  }

  lemma {:induction false} WaitShrinks(ss: seq<Share>, a: nat, sizes: seq<nat>, mss: nat)
    requires a < 2 && Backlogged(ss) && PassedOver(ss, a, sizes, mss)
    ensures |sizes| <= MaxInt(ss[Other(a)].credit, MaxInt(0, ss[a].sizeOfNextRtp - ss[a].credit))
    decreases |sizes|
  {
    if sizes != [] {
      var b := Other(a);
      var ss' := AfterOther(ss, a, sizes[0], mss);
      ServedPositive(ss, b, ss[b].sizeOfNextRtp, mss);
      GainNonNegative(ss[a], ss[b], ss[b].sizeOfNextRtp);
      assert ss'[a] == Credited(ss[a], ss[b], ss[b].sizeOfNextRtp, mss);
      assert Eligible(ss[b]) || !Eligible(ss[a]);
      WaitShrinks(ss', a, sizes[1..], mss);
    }
  }

  /** Bounded wait: a stream with a packet waiting transmits after at most as many transmissions of the
      other stream as the larger of that stream's credit and the size of its own next packet. */
  lemma BoundedWait(ss: seq<Share>, a: nat, sizes: seq<nat>, mss: nat)
    requires a < 2 && Backlogged(ss) && PassedOver(ss, a, sizes, mss)
    ensures |sizes| <= MaxInt(ss[Other(a)].credit, ss[a].sizeOfNextRtp)
  {
    WaitShrinks(ss, a, sizes, mss);
  }

  /** When the cast makes the gain zero, stream a has no credit for its packet and the other stream has the
      higher priority, the other one is picked every time, for any number of packets. */
  lemma {:induction false} StarvesWithoutGain(ss: seq<Share>, a: nat, n: nat, mss: nat)
    requires a < 2 && Backlogged(ss)
    requires var b := Other(a);
             && ss[a].credit < ss[a].sizeOfNextRtp && ss[a].priority < ss[b].priority
             && Gain(ss[a], ss[b], ss[b].sizeOfNextRtp) == 0
    ensures Picks(AfterMany(ss, a, n, mss), Other(a))
    decreases n
  {
    var b := Other(a);
    if n == 0 {
      if Eligible(ss[b]) {
        assert BestCredit(ss, b);
      } else {
        assert NoneEligible(ss) && BestPriority(ss, b);
      }
    } else {
      var ss' := AfterOther(ss, a, ss[b].sizeOfNextRtp, mss);
      ServedPositive(ss, b, ss[b].sizeOfNextRtp, mss);
      assert ss'[a] == ss[a];
      StarvesWithoutGain(ss', a, n - 1, mss);
    }
  }

  /** Both streams after n packets of one size of the other stream. */
  function AfterMany(ss: seq<Share>, a: nat, n: nat, mss: nat): (r: seq<Share>)
    requires |ss| == 2 && a < 2 && ss[Other(a)].sizeOfNextRtp >= 0
    ensures |r| == 2
    decreases n
  {
    if n == 0 then ss
    else AfterMany(AfterOther(ss, a, ss[Other(a)].sizeOfNextRtp, mss), a, n - 1, mss)
  }

  /** The other stream, with packets of one size, is picked n times in a row. */
  ghost predicate Waits(ss: seq<Share>, a: nat, n: nat, mss: nat)
    requires |ss| == 2 && a < 2 && ss[Other(a)].sizeOfNextRtp >= 0
  {
    forall i: nat :: i < n ==> Picks(AfterMany(ss, a, i, mss), Other(a))
  }

  /** Stream a has credit for its packet, or earns some when the other one transmits. */
  predicate HasHope(ss: seq<Share>, a: nat)
    requires |ss| == 2 && a < 2 && ss[Other(a)].sizeOfNextRtp >= 0
  {
    Eligible(ss[a]) || Gain(ss[a], ss[Other(a)], ss[Other(a)].sizeOfNextRtp) >= 1
  }

  lemma HopeStays(ss: seq<Share>, a: nat, mss: nat)
    requires a < 2 && Backlogged(ss) && HasHope(ss, a)
    ensures var ss' := AfterOther(ss, a, ss[Other(a)].sizeOfNextRtp, mss);
            Backlogged(ss') && HasHope(ss', a) && ss'[Other(a)].sizeOfNextRtp == ss[Other(a)].sizeOfNextRtp
  {
    var b := Other(a);
    ServedPositive(ss, b, ss[b].sizeOfNextRtp, mss);
    GainNonNegative(ss[a], ss[b], ss[b].sizeOfNextRtp);
  }

  lemma WaitsOneLess(ss: seq<Share>, a: nat, n: nat, mss: nat)
    requires |ss| == 2 && a < 2 && ss[Other(a)].sizeOfNextRtp >= 0 && n > 0 && Waits(ss, a, n, mss)
    ensures Picks(ss, Other(a))
    ensures Waits(AfterOther(ss, a, ss[Other(a)].sizeOfNextRtp, mss), a, n - 1, mss)
  {
    var ss' := AfterOther(ss, a, ss[Other(a)].sizeOfNextRtp, mss);
    assert AfterMany(ss, a, 0, mss) == ss;
    forall i: nat | i < n - 1 ensures Picks(AfterMany(ss', a, i, mss), Other(a)) {
      assert AfterMany(ss', a, i, mss) == AfterMany(ss, a, i + 1, mss);
    }
  }

  lemma {:induction false} WaitsIsPassedOver(ss: seq<Share>, a: nat, n: nat, mss: nat)
    requires a < 2 && Backlogged(ss) && HasHope(ss, a) && Waits(ss, a, n, mss)
    ensures PassedOver(ss, a, seq(n, _ => ss[Other(a)].sizeOfNextRtp as nat), mss)
    decreases n
  {
    if n > 0 {
      var size: nat := ss[Other(a)].sizeOfNextRtp;
      HopeStays(ss, a, mss);
      WaitsOneLess(ss, a, n, mss);
      WaitsIsPassedOver(AfterOther(ss, a, size, mss), a, n - 1, mss);
      assert seq(n, _ => size)[1..] == seq(n - 1, _ => size);
    }
  }

  /** A stream of at least the other's priority earns a unit for every packet. */
  lemma GainOfHigher(s: Share, served: Share, bytes: nat)
    requires s.priority >= served.priority > 0.0 && served.priorityInv > 0.0
    requires served.priority * served.priorityInv == 1.0 && bytes >= 1
    ensures Gain(s, served, bytes) >= 1
  {
    ScaleUp(served.priorityInv, served.priority, s.priority);
    var share := s.priority * served.priorityInv;
    assert share >= 1.0;
    ScaleUp(share, 1.0, bytes as real);
    assert bytes as real * s.priority * served.priorityInv == share * bytes as real;
  }

  /** Against packets of one size the wait is bounded if and only if stream a has credit for its packet or
      earns at least one unit per packet; otherwise it waits for ever. */
  lemma WaitBoundedIff(ss: seq<Share>, a: nat, mss: nat)
    requires a < 2 && Backlogged(ss) && ss[Other(a)].priority * ss[Other(a)].priorityInv == 1.0
    ensures HasHope(ss, a)
            <==> forall n: nat :: Waits(ss, a, n, mss) ==> n <= MaxInt(ss[Other(a)].credit, ss[a].sizeOfNextRtp)
    ensures !HasHope(ss, a) ==> forall n: nat :: Waits(ss, a, n, mss)
  {
    var b := Other(a);
    if HasHope(ss, a) {
      forall n: nat | Waits(ss, a, n, mss) ensures n <= MaxInt(ss[b].credit, ss[a].sizeOfNextRtp) {
        WaitsIsPassedOver(ss, a, n, mss);
        BoundedWait(ss, a, seq(n, _ => ss[b].sizeOfNextRtp as nat), mss);
      }
    } else {
      GainNonNegative(ss[a], ss[b], ss[b].sizeOfNextRtp);
      if ss[a].priority >= ss[b].priority {
        GainOfHigher(ss[a], ss[b], ss[b].sizeOfNextRtp);
      }
      forall n: nat ensures Waits(ss, a, n, mss) {
        forall i: nat | i < n ensures Picks(AfterMany(ss, a, i, mss), b) {
          StarvesWithoutGain(ss, a, i, mss);
        }
      }
      assert Waits(ss, a, MaxInt(ss[b].credit, ss[a].sizeOfNextRtp) + 1, mss);
    }
  }

  /** Such a stream: priority 0.05 and a packet of 112 bytes, against priority 1 and packets of 13 bytes. */
  lemma StarvationExample(mss: nat, n: nat)
    ensures Waits([Share(0, 0, 0.05, 20.0, 5, 112), Share(0, 0, 1.0, 1.0, 5, 13)], 0, n, mss)
  {
    var ss := [Share(0, 0, 0.05, 20.0, 5, 112), Share(0, 0, 1.0, 1.0, 5, 13)];
    assert Backlogged(ss);
    assert 13 as real * 0.05 * 1.0 == 0.65;
    assert Gain(ss[0], ss[1], 13) == 0;
    WaitBoundedIff(ss, 0, mss);
  }

  // ---- the code ----

  /** The members of ScreamTx::Stream that the scheduler uses. */
  class CreditStream {
    var credit: int
    var creditLost: int
    const targetPriority: real
    const targetPriorityInv: real
    var sizeOfQueue: nat
    var sizeOfNextRtp: int

    constructor (priority: real)
      requires priority > 0.0
      ensures View() == Share(0, 0, priority, 1.0 / priority, 0, -1)
    {
      credit, creditLost := 0, 0;
      targetPriority, targetPriorityInv := priority, 1.0 / priority;
      sizeOfQueue, sizeOfNextRtp := 0, -1;
    }

    function View(): Share
      reads this
    {
      Share(credit, creditLost, targetPriority, targetPriorityInv, sizeOfQueue, sizeOfNextRtp)
    }
  }

  class CreditScheduler {
    const streams: seq<CreditStream>
    var mss: int

    constructor (streams: seq<CreditStream>)
      requires forall i, j :: 0 <= i < j < |streams| ==> streams[i] != streams[j]
      ensures Valid() && this.streams == streams
    {
      this.streams := streams;
      mss := 100;
    }

    ghost predicate Valid() {
      forall i, j :: 0 <= i < j < |streams| ==> streams[i] != streams[j]
    }

    ghost function Views(): (ss: seq<Share>)
      reads streams
      ensures |ss| == |streams|
      ensures forall i :: 0 <= i < |streams| ==> ss[i] == streams[i].View()
    {
      seq(|streams|, i requires 0 <= i < |streams| reads streams => streams[i].View())
    }

    method GetPrioritizedStream() returns (k: int)
      requires Valid()
      ensures Picks(Views(), k)
    {
      if |streams| == 1 {
        return 0;
      }
      var maxCredit := 1;
      k := -1;
      for n := 0 to |streams|
        invariant k == -1 || 0 <= k < n
        invariant k == -1 ==> maxCredit == 1 && forall j :: 0 <= j < n ==> !Eligible(streams[j].View())
        invariant k >= 0 ==>
          && maxCredit == streams[k].credit >= 1
          && Eligible(streams[k].View())
          && (forall j :: 0 <= j < n && Eligible(streams[j].View()) ==> streams[j].credit <= maxCredit)
          && (forall j :: k < j < n && Eligible(streams[j].View()) ==> streams[j].credit < maxCredit)
      {
        if streams[n].sizeOfQueue != 0 && streams[n].credit >= MaxInt(maxCredit, streams[n].sizeOfNextRtp) {
          k := n;
          maxCredit := streams[n].credit;
        }
      }
      if k >= 0 {
        assert BestCredit(Views(), k);
        return;
      }
      var maxPrio := 0.0;
      for n := 0 to |streams|
        invariant k == -1 || 0 <= k < n
        invariant k == -1 ==> maxPrio == 0.0 && forall j :: 0 <= j < n ==> !Waiting(streams[j].View())
        invariant k >= 0 ==>
          && maxPrio == streams[k].targetPriority > 0.0
          && Waiting(streams[k].View())
          && (forall j :: 0 <= j < n && Waiting(streams[j].View()) ==> streams[j].targetPriority <= maxPrio)
          && (forall j :: 0 <= j < k && Waiting(streams[j].View()) ==> streams[j].targetPriority < maxPrio)
      {
        if streams[n].sizeOfQueue > 0 && streams[n].targetPriority > maxPrio {
          maxPrio := streams[n].targetPriority;
          k := n;
        }
      }
    }

    /** addCredit: the streams that did not transmit earn credit. */
    method AddCredit(k: nat, bytes: nat)
      requires Valid() && k < |streams|
      modifies streams
      ensures Views() == Earned(old(Views()), k, bytes, mss)
    {
      if |streams| == 1 {
        return;
      }
      ghost var before := Views();
      for n := 0 to |streams|
        invariant forall i :: 0 <= i < |streams| ==>
          streams[i].View() == if i < n && i != k then Credited(before[i], before[k], bytes, mss) else before[i]
      {
        if n != k {
          AddCreditTo(streams[n], streams[k], bytes, mss);
        }
      }
    }

    /** subtractCredit: the stream that transmitted pays. */
    method SubtractCredit(k: nat, bytes: nat)
      requires Valid() && k < |streams|
      modifies streams[k]
      ensures Views() == Paid(old(Views()), k, bytes)
      ensures |streams| >= 2 && old(Views())[k].credit >= 0 ==> Pays(old(Views())[k], Views()[k], bytes)
    {
      if |streams| != 1 {
        streams[k].credit := MaxInt(0, streams[k].credit - bytes);
      }
    }

    /** What addTransmitted does to the credits. */
    method Transmitted(k: nat, bytes: nat)
      requires Valid() && k < |streams|
      modifies streams
      ensures Views() == Served(old(Views()), k, bytes, mss)
      ensures |streams| >= 2 && Positive(old(Views())) ==> Settles(old(Views()), Views(), k, bytes, mss)
    {
      if Positive(Views()) {
        ServedSettles(Views(), k, bytes, mss);
      }
      AddCredit(k, bytes);
      SubtractCredit(k, bytes);
    }
  }

  /** The body of the loop in addCredit. */
  method AddCreditTo(stream: CreditStream, served: CreditStream, bytes: nat, mss: int)
    requires stream != served
    modifies stream
    ensures stream.View() == Credited(old(stream.View()), served.View(), bytes, mss)
    ensures stream.targetPriority > 0.0 && served.targetPriorityInv > 0.0 ==>
              Earns(old(stream.View()), stream.View(), bytes as real * stream.targetPriority * served.targetPriorityInv, mss)
  {
    if stream.targetPriority > 0.0 && served.targetPriorityInv > 0.0 {
      CreditedEarns(stream.View(), served.View(), bytes, mss);
    }
    var maxCredit := 10 * mss;
    var credit := Gain(stream.View(), served.View(), bytes);
    stream.credit := stream.credit + credit;
    if stream.sizeOfQueue == 0 && stream.credit > maxCredit {
      stream.creditLost := stream.creditLost + stream.credit - maxCredit;
      stream.credit := maxCredit;
    }
  }
}
