# SCReAM endpoints, modelled and proved

This project models the congestion-control endpoints of SCReAM (RFC 8298) in `scream/model`, and four
small cores of the surrounding programs, and proves what they keep over all their runs.

The receiver compresses which packets it got into a 16-bit highest sequence number and a 64-bit ACK vector,
and sends both in a 32-byte RTCP XR packet (RFC 3611). The sender keeps every transmitted packet in a ring of
2048 slots, marks and removes packets as that feedback arrives, and derives from it the bytes in flight, the newly
acknowledged and the lost bytes, the base delay and the congestion window. Between them stand a packet queue, a
frame splitter and a credit scheduler.

How the parts fit together:

- Code that changes an object step by step is a class whose methods do the same steps (`Receiver`, `ScreamRx`,
  `ScreamTx`, `BaseDelay`, `DelayTrend`, `CreditScheduler`, `RtpQueue`, `VideoEncoder`, `StreamGenerator`,
  `BitrateAllocation`, `RttSmoother`, `SeqRecord`). Each method is proved to do what a function of the old state says.
- The theorems are about those functions. `SenderModel` gathers the sender's in one state machine; `SenderRuns` proves
  its invariants for any number of streams, `InFlight`, `InFlightRuns` and `Leakage` when the bytes in flight are exact and
  what they exceed the open bytes by, `EndToEnd` joins any number of streams with their receiver and a network that loses, duplicates and reorders.
- `Arithmetic`, `Words`, `Sweep` and `TxRing` hold what they share: rounding and casts, 16-bit numbers beside unwrapped
  integers, ring indices, and byte accounts.
- `WindowReactions`, `LossEvents`, `QueueDelay` and `Transmission` say what the sender's operations do in terms of their inputs
  alone: by how much the window moves and why, when a loss event is raised and what it leads to, what is measured, and when a
  packet may be sent. `WindowUpdate` is the code of the window update.

Modelling choices:

- Sequence numbers and timestamps are integers modulo 2^16 and 2^32, and subtraction of times is modulo 2^64, as in
  the code; casts to `int` truncate toward zero.
- `float` is `real`. The square root in the target adaptation is an input whose square is the variance.
- The media rates, the limit on bytes in flight, the pacing interval, the shared-bottleneck statistics and the L4S
  factor enter an update as arbitrary inputs, so what is proved holds whatever they are.
- The byte counters that the rate update clears are kept as totals in ghost fields.
- An index check that aborts the program is a precondition.
- A packet is *open* while its slot is in use and it has not passed the received edge.

Where the code differs from what one would claim of it, the exact condition is proved:

- The ACK vector names the predecessor of the first packet received (`Receiver.FirstArrival`,
  `EndToEnd.PredecessorIsReported`), and a packet 65536 numbers older with it (`EndToEnd.OldPacketIsMarked`); the comment at `scream/model/screamRx.cc:64-67` says otherwise.
- The upper half of the vector is sent first (`FeedbackPacket.AckBit`); the diagram at `scream/model/screamRx.cc:255-273` shows the lower half first.
- Bit 63 of the vector is sound but not complete (`Receiver.LastBitExactIff`).
- `markAcked` compares with 64 although only bits 0 to 63 exist. Shifting by 64 is undefined in C++; the model
  compares with less than 64, and `EndToEnd.MaskedShiftReports` says what a shift modulo 64 would change.
- The sweep over "forever lost" packets does nothing when the 16-bit number wrapped (`TxRing.ForgetReachesIff`).
- Bytes that loss detection gives up before they pass the edge stay in flight (`InFlight.DetectLeaks` says which,
  `Leakage.EveryRunLeaks` how many over a run and when there are none, `InFlight.LateStartLeaks` and
  `Leakage.FarFeedbackLeaks` that there can be).
- A timeout or slot collision clears the global count of bytes in flight but only one stream's slots: the count
  covers all open bytes if and only if no other stream has any at that time (`SenderRuns.EveryRun`,
  `SenderRuns.CollisionUncovers`).
- The packet queue has no check for being full (`RtpQueue.RtpQueue.Push`).
- A gain of zero units of credit starves a stream that has none for its packet (`CreditScheduler.WaitBoundedIff`,
  `CreditScheduler.StarvationExample`).

`dafny verify dfyconfig.toml` checks the project.

## Model

| member | source | states |
|---|---|---|
| `EndToEnd.AcksAreSound` | scream/model/screamTx.cc:569-770 | Over every run of a sender with any number of streams and the receiver of their sources, joined by a network that loses, duplicates and reorders packets and feedback, with numbers skipped at will and feedback up to 65471 packets old: every packet the sender marks acknowledged was sent and received, or shares its 16 bits with the predecessor of the first packet received of its source; it is that predecessor when no packet in use was 65536 numbers old at a delivery. Composes reception, the 32-byte encoding and decoding, routing by source number, and ACK marking |
| `EndToEnd.StepIsSound` | scream/model/screamTx.cc:603-628 | Every step of that system (send, arrival, report, delivery of a possibly old or repeated report to the stream of the source it names, poll, rate update, media frame, registration, initialization) keeps the invariant behind it |
| `EndToEnd.DeliverIsSound` | scream/model/screamTx.cc:613-632 | In particular a delivered report reaches the stream of the source it is about, marks nothing false there and leaves the other streams alone |
| `EndToEnd.Find` | scream/model/screamTx.cc:1572-1583 | The first source with that number, or none |
| `EndToEnd.MarksAreAcks` | scream/model/screamTx.cc:715-738 | In every state that meets the invariant, what counts as marked is what `markAcked` sets: after it a used slot of the stream is acked if and only if its number is among the marks |
| `EndToEnd.FlagsAreSound` | scream/model/screamTx.cc:715-738 | So the flag itself is sound: a delivered feedback makes `markAcked` set it only for packets the receiver got, or that share 16 bits with the first predecessor; only for that one itself when no packet in use is 65536 numbers old |
| `EndToEnd.MarksAreTrue` | scream/model/screamTx.cc:717-738 | A truthful feedback up to 65471 packets old marks only such numbers, whatever wrapped or was skipped in between |
| `EndToEnd.OldPacketIsMarked` | scream/model/screamTx.cc:717-738 | The exception is real: with 4 and 65541 sent and only 65541 received, its feedback marks packet 4 |
| `EndToEnd.MarksAreExact` | scream/model/screamTx.cc:717-738 | In every state that meets the invariant, so in every state a run reaches: of the packets in use that the sweep looks at, at most 63 below the highest number, a feedback marks exactly those the receiver had when it built the feedback |
| `EndToEnd.ReportsNear` | scream/model/screamTx.cc:723-738 | The 16-bit test of `markAcked` is true exactly for the highest number and for those set in the ACK vector at distances 1 to 64, for all unwrapped numbers within 60000 |
| `EndToEnd.ReportIsTruthful` | scream/model/screamRx.cc:275-312 | A packet built from a compressed history decodes to a report that names only packets in that history, and all of those at most 63 below the highest |
| `EndToEnd.PredecessorIsReported` | scream/model/screamRx.cc:44-48 | The exception in the soundness theorem is real: after the first arrival the predecessor is reported although it was not received (the comment in lines 64-67 promises an empty vector) |
| `EndToEnd.MaskedShiftReports` | scream/model/screamTx.cc:726-727 | The code also shifts by 64. On a processor that takes the shift count modulo 64, it then reports exactly one packet more: the one 65 below the highest number, if and only if bit 0 is set |
| `EndToEnd.MaskedShiftIsUnsound` | scream/model/screamTx.cc:726-727 | So that reading is unsound: after the single arrival of packet 70, packet 5 is reported |
| `Receiver.RunRefines` | scream/model/screamRx.cc:34-103 | ACK vector refinement over every run of arrivals within 16384 of the highest: the highest number is the true maximum mod 65536, bits 0 to 62 are set exactly for the received packets (and the first one's predecessor) at distances 1 to 63, bit 63 set implies received |
| `Receiver.ArrivalRefines` | scream/model/screamRx.cc:50-98 | One arrival, in or out of order, new or repeated, keeps that compression |
| `Receiver.FirstArrival` | scream/model/screamRx.cc:44-48 | The first arrival establishes it, with the predecessor named |
| `Receiver.DisplacementWithinReach` | scream/model/screamRx.cc:50-59 | The wrap-around correction yields the true distance within a reach of 16384 |
| `Receiver.ReachIsExact` | scream/model/screamRx.cc:50-59 | 16384 is exact: a displacement is read correctly for every highest number if and only if it is at most 16384 in size |
| `Receiver.LastBitExactIff` | scream/model/screamRx.cc:78-97 | Bit 63 stays exact if and only if the arrival is neither exactly 64 ahead nor exactly 64 behind and not named yet |
| `Receiver.Extend` | scream/model/screamRx.cc:50-59 | The two extended numbers differ by the displacement |
| `Receiver.RxStream.Record` | scream/model/screamRx.cc:44-98 | The in-place update of the highest number and the vector is the arrival function that the refinement is about |
| `Receiver.RxStream.Receive` | scream/model/screamRx.cc:34-103 | All fields after an arrival, with the 32-bit timestamp and the 16-bit count of CE-marked bytes |
| `FeedbackPacket.DecodeEncode` | scream/model/screamRx.cc:284-312 | Every feedback is read back exactly as it was built, for every session number |
| `FeedbackPacket.NetworkOrder` | scream/model/screamRx.cc:284-312 | The header is that of an extended report of 6 words with one block of type 255 and 4 words, and every field stands at its offset with the most significant byte first |
| `FeedbackPacket.AckBit` | scream/model/screamRx.cc:302-307 | Bit k of the vector is bit k mod 8 of byte 27 - k / 8 |
| `FeedbackPacket.EncodeDecode` | scream/model/screamTx.cc:569-599 | Decoding loses nothing but header and session: bytes 12 to 31 of any accepted buffer are those of the packet built from what was decoded |
| `FeedbackPacket.JoinHalves` | scream/model/screamTx.cc:592-596 | Splitting the 64-bit vector in two words and joining them again is the identity |
| `FeedbackPacket.HalvesOfJoin` | scream/model/screamTx.cc:592-596 | And the other way around, for all pairs of 32-bit words |
| `ScreamRx.FillPacket` | scream/model/screamRx.cc:286-311 | The buffer written field by field is the encoding; bytes from 32 on are untouched |
| `ScreamRx.ScreamRx.CreateFeedback` | scream/model/screamRx.cc:275-315 | The buffer holds the encoding of all that the picked source keeps; without an eligible source there is no packet and nothing changes |
| `ScreamRx.ScreamRx.GetFeedback` | scream/model/screamRx.cc:217-247 | Fails exactly when no source is eligible; otherwise reports all that the picked source keeps and settles its pending packets; nothing else of any source changes |
| `ScreamRx.ScreamRx.PickStream` | scream/model/screamRx.cc:224-235 | The scan finds the eligible source reported longest ago, the first one among ties |
| `ScreamRx.ScreamRx.IsFeedback` | scream/model/screamRx.cc:194-204 | True if and only if some source has packets pending |
| `ScreamRx.ScreamRx.Receive` | scream/model/screamRx.cc:167-186 | A packet goes to the entry of its source, which is made on its first packet: vector, timestamp, marked bytes and pending count; no other entry changes and there never are two entries for a source |
| `FeedbackScheduling.ReportedInTime` | scream/model/screamRx.cc:217-247 | Fairness: a source with packets pending is reported within as many reports as there are sources, however arrivals interleave |
| `FeedbackScheduling.PassedOver` | scream/model/screamRx.cc:224-245 | A waiting source is passed over at most as often as there are sources ordered before it by (last report, list position) |
| `FeedbackScheduling.PickIsUnique` | scream/model/screamRx.cc:224-232 | At most one source meets the selection rule |
| `Sweep.FindSweepEnd` | scream/model/screamTx.cc:704-708 | The index loop ends at the smallest index not below the start that falls into the slot of the highest number |
| `Sweep.SweepIsShort` | scream/model/screamTx.cc:704-710 | For every pair of start and highest number a sweep looks at 1 to 2048 slots, all different, and ends in the slot of the highest number |
| `Sweep.SweepCoversTheStep` | scream/model/screamTx.cc:704-710 | When the highest number moves d ahead, 1 <= d <= 2048, the sweep looks at exactly the slots of those d numbers, across the wrap from 65535 to 0 too |
| `Sweep.StepVisits` | scream/model/screamTx.cc:780-812 | It looks at the slot of any number u exactly when u shares it with one of those d numbers |
| `Sweep.RepeatSweepsEverything` | scream/model/screamTx.cc:780-812 | A repeated highest number sweeps the whole ring |
| `Sweep.SlotOfWrapped` | scream/model/screamTx.cc:482 | A number and its low 16 bits have the same slot, because 2048 divides 65536 |
| `Sweep.VisitedMeans` | scream/model/screamTx.cc:709-710 | The closed form of 'slot n is looked at' means that some index of the loop falls into slot n |
| `TxRing.DetectAccounts` | scream/model/screamTx.cc:775-862 | Loss detection, whatever the feedback says: acknowledged plus open bytes and lost plus used bytes do not grow; if the bytes in flight cover the open bytes they still do, and they fall by exactly the acknowledged bytes, so the clamp at zero changes nothing |
| `TxRing.SettleAllCounts` | scream/model/screamTx.cc:811-860 | One sweep acknowledges exactly the bytes of the packets that pass the received edge, and loses exactly those of the late, unacknowledged ones, each once |
| `TxRing.ForgetCounts` | scream/model/screamTx.cc:790-804 | The sweep over packets out of reach loses exactly the bytes in the used slots it looks at, each once however often it goes around; acknowledged bytes and bytes in flight stay |
| `TxRing.SettleAllAt` | scream/model/screamTx.cc:811-860 | Each slot after the sweep, visited or not |
| `TxRing.ForgetAt` | scream/model/screamTx.cc:793-804 | Each slot after the sweep over packets out of reach |
| `TxRing.ForgetReachesIff` | scream/model/screamTx.cc:790-793 | The 'forever lost' sweep reaches exactly the packets between two feedbacks if and only if the 16-bit number did not wrap between them; after a wrap it reaches none, because 2048 is added only once |
| `BaseDelay.EstimateSummarizes` | scream/model/screamTx.cc:1249-1268 | A sample joins the open bucket, or closes it after ten seconds; the ring and its cached minimum stay the minima of the last 50 closed buckets; the base is never above the sample, so the unsigned queue delay does not wrap |
| `BaseDelay.BaseIsWindowMinimum` | scream/model/screamTx.cc:1274-1276 | The base delay is the minimum of all samples in the open and the last 50 closed buckets |
| `BaseDelay.BaseOverRuns` | scream/model/screamTx.cc:1249-1276 | The same over every run of samples and resets |
| `BaseDelay.ResetForgets` | scream/model/screamTx.cc:992-997 | A reset forgets all samples, wherever the ring pointer stands |
| `BaseDelay.RefreshesIff` | scream/model/screamTx.cc:1251-1266 | The refresh time moves exactly when a bucket is closed and more than 490 seconds have passed since |
| `BaseDelay.BaseDelay.EstimateOwd` | scream/model/screamTx.cc:1249-1269 | The in-place update is that step, keeps the fields a summary of all samples since the last reset, and leaves the base at or below the sample |
| `BaseDelay.BaseDelay.FindHistMin` | scream/model/screamTx.cc:1256-1258 | The loop finds the minimum of the ring |
| `BaseDelay.BaseDelay.GetBaseOwd` | scream/model/screamTx.cc:1274-1276 | Returns the smallest of all samples in the open and the last 50 closed buckets since the last reset |
| `BaseDelay.BaseDelay.ResetHistory` | scream/model/screamTx.cc:994-997 | The loop resets ring, open bucket and cached minimum |
| `DelayTrend.AutocorrelationBound` | scream/model/screamTx.cc:1300-1312 | For every list of deviations the lag-1 sum is at most the sum of squares in size, and strictly less when that is positive: the ratio is strictly between -1 and 1 |
| `DelayTrend.TrendBound` | scream/model/screamTx.cc:1288-1313 | For every ring content and start pointer the trend is in [0, 1] and below the averaged delay fraction when that is positive |
| `DelayTrend.TrendIs` | scream/model/screamTx.cc:1288-1313 | It is the lag-1 ratio of deviations that add up to zero, times the averaged fraction, where that is in [0, 1], and cut to it otherwise |
| `DelayTrend.InsertedAt` | scream/model/screamTx.cc:1042-1046 | After any number of insertions exactly the slots from the pointer on hold the fraction, around the ring, and the pointer is behind them |
| `DelayTrend.DelayTrend.Average` | scream/model/screamTx.cc:1293-1297 | The first loop is the mean of the ring, once around from the pointer |
| `DelayTrend.DelayTrend.Lags` | scream/model/screamTx.cc:1299-1309 | The second loop yields the lag-0 and lag-1 sums of the deviations |
| `DelayTrend.DelayTrend.ComputeQueueDelayTrend` | scream/model/screamTx.cc:1288-1313 | Both loops together yield the trend that the bounds are about |
| `DelayTrend.DelayTrend.Insert` | scream/model/screamTx.cc:1042-1046 | The repeated insertion into the ring, any number of times |
| `CongestionWindow.UpdateKeeps` | scream/model/screamTx.cc:962-1243 | A whole `updateCwnd` keeps cwnd >= cwndMin >= 2 mss and the delay target in its range, for all inputs from parts not modelled; it does not touch bytes in flight or mss |
| `CongestionWindow.UpdateGrowth` | scream/model/screamTx.cc:962-1243 | With gains that are not negative, gainUp and the back-off factors at most 1, it raises the window by at most the limited newly acknowledged bytes plus rounding; beyond that only validation on short round trips raises it, up to the media rate or 1.5 times the in-flight limit |
| `CongestionWindow.SteerBounds` | scream/model/screamTx.cc:1106-1212 | Before validation: loss and CE marks never raise the window nor take it below its minimum; a delay back-off takes at most a quarter; fast start adds at most the limited bytes; otherwise growth is at most gainUp times half of them plus 0.5 |
| `CongestionWindow.NextTargetStaysInRange` | scream/model/screamTx.cc:1083-1097 | The adapted delay target stays in [0.75 min, 0.3], in every branch |
| `CongestionWindow.RefreshKeeps` | scream/model/screamTx.cc:982-1100 | The averages and the less frequent part keep the invariant and leave window, segment size and events alone |
| `CongestionWindow.ValidateBounds` | scream/model/screamTx.cc:1213-1226 | Validation never leaves the window below its minimum and raises it only when round trips are short and the trend is low |
| `CongestionWindow.LimitedNonNegative` | scream/model/screamTx.cc:963-980 | The limit on growth is never negative, nor above the newly acknowledged bytes when a media rate is known |
| `CongestionWindow.IncrementBounds` | scream/model/screamTx.cc:1174-1175 | The increment outside fast start is at most half of gainUp times the limited bytes |
| `CongestionWindow.DecrementBounds` | scream/model/screamTx.cc:1186-1188 | The back-off is between nothing and a quarter of the window |
| `WindowUpdate.AdaptTarget` | scream/model/screamTx.cc:1083-1097 | The branches of the target adaptation keep the target in [0.75 min, 0.3] |
| `WindowUpdate.SteerWindow` | scream/model/screamTx.cc:1106-1212 | The reaction is the one due: after a loss or mark the factor's share of the window, rounded down but at least its minimum; in fast start all limited bytes; below the target gainUp times the room left times those, to the nearest integer; otherwise a back-off in proportion to the excess, at most a quarter; in a window not used enough, no growth |
| `WindowUpdate.FollowDelay` | scream/model/screamTx.cc:1166-1211 | Below the target the window grows by at most half of gainUp times the limited bytes plus 0.5, otherwise it falls by at most a quarter |
| `WindowUpdate.ValidateWindow` | scream/model/screamTx.cc:1213-1226 | The validated window is cut to the in-flight limit above 5000, never below its minimum, and above what it was only on short round trips, up to the media rate or 1.5 times the in-flight limit |
| `WindowUpdate.RaiseWindow` | scream/model/screamTx.cc:1221-1225 | The part of it that raises the window |
| `WindowReactions.SteerReacts` | scream/model/screamTx.cc:1106-1212 | Two-sided, for every state: what a loss, a mark, fast start, room below the target and a delay above it each do to the window, with guards and amounts written out |
| `WindowReactions.LossBacksOff` | scream/model/screamTx.cc:1106-1116 | After a loss the window is lossBeta times what it was, rounded down, or its minimum; strictly less when lossBeta < 1 and it was above its minimum; the event is settled, fast start is over |
| `WindowReactions.MarkBacksOff` | scream/model/screamTx.cc:1117-1132 | The same for a CE mark, with ecnCeBeta, or 1 - l4sAlpha / 2 for L4S |
| `WindowReactions.FastStartGrows` | scream/model/screamTx.cc:1144-1165 | In fast start a window used to two thirds grows by exactly the limited bytes; fast start ends exactly with a trend of 0.2 |
| `WindowReactions.RoomGrows` | scream/model/screamTx.cc:1167-1177 | Below the target a window used to five sixths grows by what is due, to the nearest integer, any other by nothing |
| `WindowReactions.DelayBacksOff` | scream/model/screamTx.cc:1178-1210 | At or above the target it falls by what is due, rounded down, or by a quarter when that is less |
| `WindowReactions.RoundedDownIsUnique` | scream/model/screamTx.cc:1110 | Rounding down with a minimum, as these results state it, leaves one value |
| `WindowReactions.UpdateAfterLoss` | scream/model/screamTx.cc:962-1243 | A whole update after a loss: the window is at most lossBeta times what it was, or its minimum, or was raised on short round trips; event settled, fast start over and not resumed |
| `WindowReactions.UpdateAfterMark` | scream/model/screamTx.cc:962-1243 | The same after a mark |
| `WindowReactions.UpdateStages` | scream/model/screamTx.cc:962-1243 | A whole update averages, refreshes, reacts with the limit that held before it, validates and uses up the acknowledged bytes; the later stages leave the averages alone |
| `WindowReactions.ValidateIsExact` | scream/model/screamTx.cc:1217-1226 | The window stays unless it is above an in-flight limit over 5000, which it is cut to, or round trips are short, when it is at least 1.5 times that limit and 10 ms of the media rate |
| `WindowReactions.ResumesIff` | scream/model/screamTx.cc:1231-1241 | Fast start is resumed exactly after more than five seconds without congestion and with a trend of at most 0.2 |
| `WindowReactions.LimitedIs` | scream/model/screamTx.cc:963-980 | The limit on growth is the smaller of the acknowledged bytes and 1.25 times what the media rate carries since the last update, or two segments without a rate above 100 kbps |
| `WindowReactions.AverageIs` | scream/model/screamTx.cc:982-1005 | The averaged fraction moves a tenth of the way; the histories are reset exactly when the smallest delay stayed above a quarter of the target for twenty seconds |
| `WindowReactions.RefreshIs` | scream/model/screamTx.cc:1014-1099 | The average of the smallest delays falls at once and rises by a thousandth of the difference; nothing happens within 50 ms |
| `WindowReactions.RefreshStores` | scream/model/screamTx.cc:1042-1053 | The ring takes one copy of delay over target for every 50 ms, the other slots stay; from two seconds on the trend is the lag-1 ratio of its deviations, which add up to zero, times the averaged fraction, cut to [0, 1] |
| `WindowReactions.TargetFollows` | scream/model/screamTx.cc:1083-1097 | The adapted target is the delay of competing flows within its limits, half more with losses, and otherwise falls by at most a hundredth or a thousandth |
| `WindowReactions.AgedIs` | scream/model/screamTx.cc:1135-1142 | The loss event rate moves a hundredth of the way to 1 or 0 once per round trip |
| `LossEvents.LossEventIff` | scream/model/screamTx.cc:790-860 | Loss detection raises a loss event exactly when a packet is given up more than a smoothed round trip after the last event and lossBeta < 1; repair is asked for exactly when one is given up. Given up means used and out of reach, or looked at, unacknowledged and sent more than 20 ms before the acknowledged edge |
| `LossEvents.DetectGivesUpIff` | scream/model/screamTx.cc:790-860 | Both sweeps give up a packet exactly when some slot is like that before them, although they change the ring as they go |
| `LossEvents.LossShrinksWindow` | scream/model/screamTx.cc:603-695 | From feedback to window: a feedback for which a packet is given up, more than a round trip after the last event, makes the window fall to lossBeta times what it was or its minimum, apart from the rise on short round trips, when an update is due |
| `LossEvents.NoteIs` | scream/model/screamTx.cc:639-681 | A mark is pending exactly when it was or the count of marked bytes changed more than a round trip after the last event; the time of the last event is moved exactly when a loss or mark is pending |
| `LossEvents.ReactsIff` | scream/model/screamTx.cc:683-690 | The window is updated exactly when more than 10 ms have passed since the last update |
| `LossEvents.LateExample` | scream/model/screamTx.cc:842-853 | Packets sent 30 ms apart, the second acknowledged: the first is given up and the loss event raised |
| `QueueDelay.MarkAckedMeasures` | scream/model/screamTx.cc:738-750 | The queue delay in ms is the sample minus the smallest one in the open and the last 50 closed buckets, itself included; without the packet in its slot it stays |
| `QueueDelay.DelayedIs` | scream/model/screamTx.cc:740-750 | The same for one sample, and the unsigned difference does not wrap |
| `QueueDelay.ZeroIff` | scream/model/screamTx.cc:740-750 | The queue delay is zero exactly when no sample in the window is smaller |
| `QueueDelay.QueuedOverRuns` | scream/model/screamTx.cc:740-750 | The same over every run of samples and resets |
| `QueueDelay.OffsetInvariant` | scream/model/screamTx.cc:740-750 | A constant offset between the clocks of sender and receiver, added to all samples of a run, does not change the queue delay |
| `QueueDelay.MarkAckedFollows` | scream/model/screamTx.cc:752-766 | A round trip below a second moves the short average an eighth of the way, rounded down, and the long one follows at most once in a short average; the edge time is that of the packet |
| `QueueDelay.EighthBetween` | scream/model/screamTx.cc:759-761 | Such an average stays between its old value and the sample |
| `Transmission.AllowedIff` | scream/model/screamTx.cc:426-466 | A transmission is allowed exactly when there is a packet and more than half a second has passed since the last one, or it fits into the window (plus one segment while the delay is below its target), with segment size and window as reset once a second; the wait ends exactly when pacing says so |
| `Transmission.NoDeadlock` | scream/model/screamTx.cc:450-457 | Over every run without a transmission since time t, however full the window is: more than half a second after t the next packet may be sent at once |
| `Transmission.PacedApart` | scream/model/screamTx.cc:442-445 | Within half a second of a transmission no other one is allowed before the pacing interval is over |
| `Transmission.AskingChanges` | scream/model/screamTx.cc:420-457 | Only an overdue transmission changes streams: it gives up the packets of one and sets the bytes in flight to zero |
| `Transmission.SegmentReset` | scream/model/screamTx.cc:396-424 | Once a second, and only then, the segment size is 100 and the smallest window 300 |
| `Transmission.SentIs` | scream/model/screamTx.cc:484-538 | Segment size, windows, bytes in flight and the two transmission times after a packet was sent |
| `Transmission.StoredIs` | scream/model/screamTx.cc:482-516 | The slot, all other slots, and all other streams after it |
| `Transmission.MediaFrameIs` | scream/model/screamTx.cc:297-334 | A frame is dropped within two round trips of a refresh; otherwise segment size and window fit the next packet and nothing else changes |
| `Transmission.StaleIff` | scream/model/screamTx.cc:618-624 | Feedback is ignored exactly when its highest number is 1 to 535 behind the acknowledged edge, for all unwrapped numbers less than 65000 apart, once something was acknowledged |
| `Transmission.FirstCall` | scream/model/screamTx.cc:942-957 | After the first call no clock shows more than the time since then, and frames are dropped exactly from one second on for two round trips |
| `SenderRuns.EveryRun` | scream/model/screamTx.cc:339-862 | Over every run from the initial state, with any number of streams and any feedback: cwnd >= cwndMin >= 2 mss, the delay target in range; per stream acknowledged plus open bytes and lost plus used bytes never exceed the transmitted bytes; the bytes in flight cover the open bytes of all streams after every step if and only if no timeout or slot collision hits a stream while another one has open bytes; with one stream always |
| `SenderRuns.StepCoversIff` | scream/model/screamTx.cc:297-862 | One step, of any kind, keeps the bytes in flight above the open bytes of all streams under exactly that condition |
| `SenderRuns.FeedbackCovers` | scream/model/screamTx.cc:603-695 | Any feedback on any stream keeps them above |
| `SenderRuns.TransmitCoversIff` | scream/model/screamTx.cc:484-513 | A transmission does if and only if its slot is free or no other stream has open bytes |
| `SenderRuns.AskCoversIff` | scream/model/screamTx.cc:450-457 | The test before it does if and only if there is no timeout or no other stream has open bytes |
| `SenderRuns.CollisionUncovers` | scream/model/screamTx.cc:484-496 | A run of three transmissions on two streams in which a collision leaves twice as many bytes open as are counted in flight |
| `SenderRuns.StepKeeps` | scream/model/screamTx.cc:297-695 | Every operation keeps the invariant behind it |
| `SenderRuns.StepKeepsWindow` | scream/model/screamTx.cc:297-695 | Every operation keeps the window limits |
| `SenderRuns.WindowSafety` | scream/model/screamTx.cc:426-530 | When the test allows the head packet and it is then registered, at any later time, bytes in flight are at most cwnd + mss, and at most cwnd when the delay is not below the target; after a retransmission timeout or slot collision as well |
| `SenderRuns.FeedbackKeeps` | scream/model/screamTx.cc:603-695 | Any feedback, in order or not, true or false, keeps the accounts |
| `SenderRuns.TransmitKeeps` | scream/model/screamTx.cc:472-530 | A transmission, with or without slot collision, keeps them |
| `SenderRuns.AskKeeps` | scream/model/screamTx.cc:411-457 | So does the test before it, timeout included |
| `SenderRuns.InitialIsGood` | scream/model/screamTx.cc:63-186 | The initial state meets the invariant |
| `InFlightRuns.InFlightIsExact` | scream/model/screamTx.cc:482-516 | Over every run of one stream, whatever its first number and whatever numbers are skipped, with feedback in order and at most 2048 numbers used or skipped since the feedback before last (counted from 0 until the second feedback): bytes in flight equal the bytes in used slots not past the received edge, however often the 16-bit number wraps |
| `InFlightRuns.SkipsAreInOrder` | scream/model/screamTx.cc:310-319 | Such runs include skips, as after the queue was cleared: any number up to 2048 beyond the feedback before last may be sent next and acknowledged |
| `Leakage.EveryRunLeaks` | scream/model/screamTx.cc:339-862 | Over every run, with any number of streams and any feedback: the bytes in flight equal the open bytes of all streams after every step if and only if no timeout or collision hits a stream while another one has open bytes, and no feedback gives up a packet with bytes before it passes the edge; without such a timeout or collision they exceed the open bytes by exactly what was given up like that since the last one |
| `Leakage.StepLeaks` | scream/model/screamTx.cc:297-862 | One step, of any kind, adds exactly what it leaks |
| `Leakage.FeedbackLeaks` | scream/model/screamTx.cc:603-695 | A feedback on any stream adds exactly the bytes of the packets it gives up before they pass the edge, and nothing when it is stale |
| `Leakage.FarFeedbackLeaks` | scream/model/screamTx.cc:829-860 | A run in which the second kind of leak occurs: 1 and 30000 are sent, and the feedback for 30000 drops packet 1 as late without subtracting it |
| `InFlightRuns.StepKeepsExact` | scream/model/screamTx.cc:339-862 | Every operation keeps that, with the unwrapped numbers behind slots and edge |
| `InFlightRuns.HearKeepsExact` | scream/model/screamTx.cc:603-632 | A feedback in order is never taken for stale and keeps it |
| `InFlight.DetectExact` | scream/model/screamTx.cc:775-862 | Both sweeps of loss detection keep it |
| `InFlight.DetectLeaks` | scream/model/screamTx.cc:790-862 | For any ring, feedback and history: loss detection makes the bytes in flight exceed the open bytes by exactly the packets it gives up before they pass the edge, because they are out of reach, or because they are late or acked while their number does not compare as at or before the highest |
| `InFlight.DetectExactIff` | scream/model/screamTx.cc:790-862 | So exact bytes in flight stay exact if and only if no packet with bytes is given up like that |
| `InFlight.SettleAllLeaks` | scream/model/screamTx.cc:811-860 | What the second sweep leaks |
| `InFlight.ForgetLeaks` | scream/model/screamTx.cc:790-804 | That sweep leaks exactly those bytes, from any excess |
| `InFlight.LateStartLeaks` | scream/model/screamTx.cc:704-708 | The limit of 2048 is sharp: with one number more before the second feedback, two feedbacks in order leak two of three packets, whatever the ACK vectors say |
| `InFlight.AtOrBeforeNear` | scream/model/screamTx.cc:824-838 | The safety net compares two 16-bit numbers correctly within 20000 |
| `ScreamTx.ScreamTx.constructor` | scream/model/screamTx.cc:63-186 | Establishes the initial state of the run theorems, for a default or given initial window, in fast start; the fixed window otherwise |
| `ScreamTx.ScreamTx.RegisterNewStream` | scream/model/screamTx.cc:250-276 | Adds a fresh stream in its initial state, changing nothing else |
| `ScreamTx.ScreamTx.Initialize` | scream/model/screamTx.cc:942-957 | The first call sets the clocks, later ones nothing |
| `ScreamTx.ScreamTx.NewMediaFrame` | scream/model/screamTx.cc:297-334 | Refines the media frame step, and reports when the queue is to be drained |
| `ScreamTx.ScreamTx.IsOkToTransmit` | scream/model/screamTx.cc:395-466 | Refines the test and its timeout; allowed exactly when something is to be sent and it is overdue by half a second or fits into the window, and then from the time that pacing gives (at once when overdue) |
| `ScreamTx.ScreamTx.GiveUpAll` | scream/model/screamTx.cc:450-454 | The timeout clears one stream's slots and the global count |
| `ScreamTx.ScreamTx.AddTransmitted` | scream/model/screamTx.cc:472-541 | Refines the transmission step, other streams untouched |
| `ScreamTx.ScreamTx.StorePacket` | scream/model/screamTx.cc:482-516 | The slot, the collision, the counters |
| `ScreamTx.ScreamTx.NoteSent` | scream/model/screamTx.cc:517-538 | Segment size, window and pacing after a transmission |
| `ScreamTx.ScreamTx.IncomingFeedback` | scream/model/screamTx.cc:603-695 | Refines the feedback step on the whole object: stale feedback ignored, marks, loss detection, ECN, window |
| `ScreamTx.ScreamTx.TakeFeedback` | scream/model/screamTx.cc:618-632 | The same once the clocks are set; stale feedback changes nothing |
| `ScreamTx.ScreamTx.FeedbackOf` | scream/model/screamTx.cc:603-616 | Feedback goes to the first stream of its source; an unknown source changes nothing but the initialization |
| `ScreamTx.ScreamTx.IncomingPacket` | scream/model/screamTx.cc:569-599 | A malformed packet changes nothing; any other is handled as what it decodes to |
| `ScreamTx.ScreamTx.GetStream` | scream/model/screamTx.cc:1572-1583 | The index of the first stream of the source, or their number |
| `ScreamTx.ScreamTx.MarkAcked` | scream/model/screamTx.cc:700-770 | The loop over slots is the marking function; when the packet with the highest number is in its slot, its delay is added to the samples once, 1000 times the queue delay is that delay minus the smallest one in the window, and the round trip averages move an eighth of the way; otherwise nothing is measured |
| `ScreamTx.ScreamTx.MarkOne` | scream/model/screamTx.cc:715-768 | One slot of it |
| `ScreamTx.ScreamTx.MeasureDelay` | scream/model/screamTx.cc:740-750 | The sample joins the window, and 1000 times the queue delay is the sample minus the smallest one in the window; the unsigned subtraction does not wrap |
| `ScreamTx.ScreamTx.MeasureAck` | scream/model/screamTx.cc:739-766 | The same for a packet, whose sample is the reported time minus its own on 32 bits; and its round trip time |
| `ScreamTx.ScreamTx.SmoothRtt` | scream/model/screamTx.cc:758-765 | Both smoothed round trip times move an eighth of the way, rounded down, the second at most once in the first; a round trip of a second or more changes nothing |
| `ScreamTx.ScreamTx.DetectLoss` | scream/model/screamTx.cc:775-862 | The loops are the loss detection function, with the edge moved; a loss event is pending afterwards exactly when it was, or a packet is given up more than a round trip after the last event and lossBeta < 1; repair is asked for exactly when a packet is given up |
| `ScreamTx.ScreamTx.ForgetLoop` | scream/model/screamTx.cc:790-804 | The first loop |
| `ScreamTx.ScreamTx.SettleOne` | scream/model/screamTx.cc:817-860 | The body of the second |
| `ScreamTx.HasPassed` | scream/model/screamTx.cc:824-838 | The extended comparison |
| `ScreamTx.ScreamTx.UpdateCwnd` | scream/model/screamTx.cc:962-1243 | The window update on object and histories is the function that the window theorems are about; with a loss or mark pending, the window falls to the factor's share of it or its minimum, apart from the rise on short round trips, the event is settled and fast start is over |
| `ScreamTx.ScreamTx.AverageDelay` | scream/model/screamTx.cc:982-1006 | Its averages and the reset |
| `ScreamTx.ScreamTx.RefreshTargets` | scream/model/screamTx.cc:1007-1100 | Its less frequent part |
| `ScreamTx.ScreamTx.React` | scream/model/screamTx.cc:680-690 | At most one update in 10 ms |
| `ScreamTx.ScreamTx.NoteMarks` | scream/model/screamTx.cc:639-678 | CE marks and the time of the last event |
| `ScreamTx.TxStream.Clear` | scream/model/screamTx.cc:451-453 | The loop frees every slot and changes nothing else |
| `ScreamTx.TxStream.UpdateRate` | scream/model/screamTx.cc:1554-1557 | The byte counters restart; the totals behind them do not change |
| `CreditScheduler.BoundedWait` | scream/model/screamTx.cc:1394-1437 | With two backlogged streams, a stream that has credit for its packet or earns at least one unit per transmission transmits after at most max(other's credit, own next packet size) transmissions of the other |
| `CreditScheduler.WaitBoundedIff` | scream/model/screamTx.cc:1394-1437 | Against packets of one size that wait is bounded by this if and only if the stream has credit for its packet or earns at least one unit per packet; otherwise it waits for ever |
| `CreditScheduler.StarvesWithoutGain` | scream/model/screamTx.cc:1409 | When the cast makes the gain of a stream without credit and with the lower priority zero, the other one is picked for ever |
| `CreditScheduler.StarvationExample` | scream/model/screamTx.cc:1409 | Such a stream: priority 0.05 and 112 bytes, against priority 1 and packets of 13 bytes |
| `CreditScheduler.ServedPositive` | scream/model/screamTx.cc:1394-1437 | Credits never become negative, for any number of streams |
| `CreditScheduler.ServedSettles` | scream/model/screamTx.cc:1394-1437 | With two or more streams the served one pays exactly min(credit, bytes) and nothing else of it changes; every other one earns the whole part of bytes times its priority times the served one's inverse priority, cut to ten segments only with an empty queue; a single stream neither pays nor earns |
| `CreditScheduler.SettlesIsUnique` | scream/model/screamTx.cc:1394-1437 | These amounts determine all credits |
| `CreditScheduler.CreditCovers` | scream/model/screamTx.cc:1394-1437 | Over every run in which a stream alone is eligible: it is picked for its credit if and only if that covers the packet, so for as long as the credit at the start covers all of them, and what it has not spent is left |
| `CreditScheduler.PickIsUnique` | scream/model/screamTx.cc:1903-1956 | The selection rule determines the stream |
| `CreditScheduler.CreditScheduler.GetPrioritizedStream` | scream/model/screamTx.cc:1903-1956 | The two scans pick the eligible stream with the most credit, the last of ties; failing that, the one with packets and the highest priority, the first of ties; none exactly when no stream has packets |
| `CreditScheduler.CreditScheduler.AddCredit` | scream/model/screamTx.cc:1394-1421 | All other streams earn, capped while their queue is empty; the served one and a single stream do not |
| `CreditScheduler.CreditScheduler.SubtractCredit` | scream/model/screamTx.cc:1426-1437 | The served stream pays the bytes, or all its credit when that is less; its other members stay |
| `CreditScheduler.CreditScheduler.Transmitted` | scream/model/screamTx.cc:520-526 | With two or more streams the served one pays min(credit, bytes), and every other one earns the whole part of bytes times its priority over the served one's; what is above ten segments is lost only with an empty queue |
| `RtpQueue.RtpQueue.Push` | scream/model/rtpqueue.cc:33-43 | Appends to the FIFO sequence below 20000 items, all caches right; at 20000 it overwrites the oldest item and breaks the caches, as there is no check |
| `RtpQueue.RtpQueue.Pop` | scream/model/rtpqueue.cc:45-60 | Fails exactly on the empty queue; otherwise yields and removes the oldest packet, across index wraps |
| `RtpQueue.RtpQueue.SendPacket` | scream/model/rtpqueue.cc:99-105 | The same through the cached count |
| `RtpQueue.RtpQueue.SeqNrOfNextRtp` | scream/model/rtpqueue.cc:74-80 | The number of the oldest packet, -1 for none |
| `RtpQueue.RtpQueue.GetDelay` | scream/model/rtpqueue.cc:90-97 | The age of the oldest packet, 0 for none |
| `RtpQueue.RtpQueue.ComputeSizeOfNextRtp` | scream/model/rtpqueue.cc:62-68 | The cached size follows the slot at tail |
| `RtpQueue.RtpQueue.Clear` | scream/model/rtpqueue.cc:107-117 | Empties the queue |
| `RtpQueue.RtpQueue.constructor` | scream/model/rtpqueue.cc:20-31 | Starts with the empty sequence |
| `VideoEncoder.FragmentsAre` | scream/model/videoenc.cc:64-71 | A frame of n bytes becomes ceil(n / 1200) packets with consecutive numbers mod 65536, all but the last full, with payloads that add up to n |
| `VideoEncoder.VideoEncoder.FrameSize` | scream/model/videoenc.cc:57-63 | 40 ms at the target bitrate in bytes, rounded up |
| `VideoEncoder.VideoEncoder.Encode` | scream/model/videoenc.cc:57-74 | Appends exactly those packets and returns exactly the bytes it adds; the queue stays valid if it has room |
| `VideoEncoder.VideoEncoder.PushAll` | scream/model/videoenc.cc:64-71 | The loop, across wraps of the packet number |
| `StreamGenerator.ExactApportionment` | webrtc-lib/webrtc/delay_bwe.cc:264-282 | For all non-negative bitrates with a positive total and every non-negative target: the new bitrates are non-negative, add up to the target, and each is less than 1 from its real share |
| `StreamGenerator.PrefixesAreNearest` | webrtc-lib/webrtc/delay_bwe.cc:270-279 | For every prefix of the streams: what it gets together is its real share rounded to the nearest integer, halves up, so no error accumulates |
| `StreamGenerator.NearestIsUnique` | webrtc-lib/webrtc/delay_bwe.cc:272-276 | Rounding to the nearest like that leaves one value |
| `StreamGenerator.ShareIsNear` | webrtc-lib/webrtc/delay_bwe.cc:272-279 | One stream's share, from the rounding of two running totals |
| `StreamGenerator.FitsInt64` | webrtc-lib/webrtc/delay_bwe.cc:274-276 | The intermediate product fits in 64 bits |
| `StreamGenerator.StreamGenerator.SetBitrateBps` | webrtc-lib/webrtc/delay_bwe.cc:264-282 | The two loops assign those bitrates; every prefix of streams gets its real share to the nearest integer |
| `StreamGenerator.StreamGenerator.Reassign` | webrtc-lib/webrtc/delay_bwe.cc:270-279 | The second loop |
| `StreamGenerator.AssignShare` | webrtc-lib/webrtc/delay_bwe.cc:273-278 | Its body: one stream gets the difference of two rounded running totals |
| `BitrateAllocation.BitrateAllocation.SetBitrate` | webrtc-lib/webrtc/common_types.cc:186-201 | The cached sum stays the sum of all 20 entries and fits in 32 bits; the call succeeds if and only if the new sum fits, and a rejected call changes nothing; the third check always holds |
| `BitrateAllocation.BitrateAllocation.GetBitrate` | webrtc-lib/webrtc/common_types.cc:203-208 | The entry of the matrix |
| `BitrateAllocation.BitrateAllocation.GetSpatialLayerSum` | webrtc-lib/webrtc/common_types.cc:211-217 | The layer's sum, which cannot overflow |
| `BitrateAllocation.BitrateAllocation.Show` | webrtc-lib/webrtc/common_types.cc:219-261 | The double loop with early exits: all its checks hold, what it shows are rows and entries from the start, and what it leaves out is zero |
| `BitrateAllocation.BitrateAllocation.ShowLayer` | webrtc-lib/webrtc/common_types.cc:242-254 | Its inner loop |
| `BitrateAllocation.ShownDetermines` | webrtc-lib/webrtc/common_types.cc:219-261 | So nothing is lost: two allocations that show the same are equal |
| `BitrateAllocation.BitrateAllocation.constructor` | webrtc-lib/webrtc/common_types.cc:184 | All zero |
| `RttSmoother.Converges` | razor-ns3/model/sim_endpoint.cc:362-371 | Under a constant sample r >= 10 the smoothed time reaches its exact end within 1 + |difference| samples: r from at or above r, r - 7 (at least 10) from below that, and where it was in between; then it stays, and the variance falls to exactly 10 and stays |
| `RttSmoother.NeverPasses` | razor-ns3/model/sim_endpoint.cc:369 | From below it never passes that end |
| `RttSmoother.BeyondTheLimit` | razor-ns3/model/sim_endpoint.cc:369 | The limit 2^29 - 1 on times and samples is exact: at 2^29 the sum wraps and the time drops to 10 |
| `RttSmoother.StepTowards` | razor-ns3/model/sim_endpoint.cc:362-371 | One sample never makes the time cross the sample; it comes strictly closer unless it has settled |
| `RttSmoother.SmoothWeights` | razor-ns3/model/sim_endpoint.cc:362-371 | The time moves an eighth of the way to the sample and the variance a quarter of the way to their distance, both rounded down but at least 10; a sample counts as 5 at least |
| `RttSmoother.Approach` | razor-ns3/model/sim_endpoint.cc:362-371 | The time after n samples, from both sides |
| `RttSmoother.VarianceFalls` | razor-ns3/model/sim_endpoint.cc:366-368 | The variance after n more samples |
| `RttSmoother.SevenShort` | razor-ns3/model/sim_endpoint.cc:369 | A time 7 short of the sample stays there, for every r >= 17 |
| `RttSmoother.SimEndpoint.CalculateRtt` | razor-ns3/model/sim_endpoint.cc:362-371 | The in-place update is that step |
| `RttSmoother.SimEndpoint.ProcessPong` | razor-ns3/model/sim_endpoint.cc:313-330 | The first answer sets the time, later ones are smoothed in; the sample is at least 5 |
| `SeqRecord.ReportIsExact` | webrtc-ns3/model/webrtcrecord.cc:34-49 | For every run of numbers from 1 and window starts: the total is the window length, received never exceeds it, and the loss is the count of numbers in the window that did not set a new maximum, without wrapping |
| `SeqRecord.ReportsTelescope` | webrtc-ns3/model/webrtcrecord.cc:9-49 | Over all windows lost plus received adds up to the highest number seen |
| `SeqRecord.FractionIsExact` | webrtc-ns3/model/webrtcrecord.cc:50-59 | For non-empty windows below 2^24 the fraction is the exact quotient in units of 1/255, at most 255, and 255 exactly when nothing was received |
| `SeqRecord.RecordStands` | webrtc-ns3/model/webrtcrecord.cc:5-26 | What the three fields stand for, over every run |
| `SeqRecord.WebrtcSeqRecord.OnNewSeq` | webrtc-ns3/model/webrtcrecord.cc:9-19 | The record follows the history of arrivals |
| `SeqRecord.WebrtcSeqRecord.StartWindow` | webrtc-ns3/model/webrtcrecord.cc:23-26 | And of window starts |
| `SeqRecord.WebrtcSeqRecord.CountTotal` | webrtc-ns3/model/webrtcrecord.cc:34-44 | The highest number seen minus the one at the start of the window |
| `SeqRecord.WebrtcSeqRecord.CountLost` | webrtc-ns3/model/webrtcrecord.cc:45-49 | The numbers in the window that did not set a new maximum |
| `SeqRecord.WebrtcSeqRecord.LossFraction` | webrtc-ns3/model/webrtcrecord.cc:50-59 | Their share in units of 1/255, exact and at most 255 for windows below 2^24 |
| `SeqRecord.WebrtcSeqRecord.ShouldGenerateReport` | webrtc-ns3/model/webrtcrecord.cc:27-33 | True exactly when the window is at least the threshold long |

## Left out

- InFlightRuns.InFlightIsExact: a sufficient condition for one stream with feedback in order; `Leakage.EveryRunLeaks` is the exact one for all runs.
- EndToEnd.AcksAreSound: arrivals are within 16384 of the highest number of their source, and feedback is less than 65472 packets of its source old.
- CreditScheduler.BoundedWait: for two streams and packets of at least one byte.
- CreditScheduler.WaitBoundedIff: for packets of one size of the other stream.
- Transmission.NoDeadlock: for a window that is not fixed (`openWindow` off), and times less than 2^64 us apart.
- WindowReactions.RefreshStores: for less than 2^31 us since the last time, where the cast to `int` does not change the count.
- RttSmoother.Converges: for times and samples below 2^29 ms, where no 32-bit operation wraps (`RttSmoother.BeyondTheLimit`).
- SeqRecord.FractionIsExact: for windows below 2^24, where the 32-bit product does not wrap.
- StreamGenerator.StreamGenerator.SetBitrateBps: the total and the target fit in an `int` and the total is positive, because the code divides by it.
- ScreamTx.ScreamTx.AddTransmitted: the credits it also changes are in `CreditScheduler`, and the target bitrate it lowers on a collision is not modelled.
- ScreamTx.ScreamTx.IsOkToTransmit: starts once a stream is selected; the rate update before that is `ScreamTx.TxStream.UpdateRate`, the selection is in `CreditScheduler`, and the bytes-in-flight history it feeds only enters as the input limit.
- ScreamTx.ScreamTx.NewMediaFrame: returns that the queue is to be cleared instead of clearing it; target bitrates are left out.
- ScreamTx.ScreamTx.RegisterNewStream: priority and bitrates of the stream are left out, and there is no limit of ten streams.
- ScreamTx.ScreamTx.StorePacket: the target bitrate lowered on a collision is left out.
- ScreamTx.ScreamTx.IncomingFeedback: the L4S factor, the event flags that only the target bitrates read, and the averages of the bytes in flight are left out.
- ScreamTx.ScreamTx.MarkAcked: the shift by 64, undefined in C++, marks nothing here.
- ScreamTx.ScreamTx.MarkOne: the shift by 64, undefined in C++, marks nothing here.
- ScreamTx.ScreamTx.NoteMarks: the L4S factor and the event flags that only the target bitrates read are left out.
- ScreamTx.ScreamTx.RefreshTargets: pacing interval, in-flight limit and shared-bottleneck statistics are inputs.
- ScreamTx.ScreamTx.UpdateCwnd: media rates, pacing interval and in-flight limit are inputs; the target bitrates it lowers with the window are left out.
- ScreamRx.ScreamRx.Receive: without the received rate and the feedback interval computed from it.
- Overflow of `int` byte counters and of the window: they are unbounded integers here.
- IEEE rounding of `float`.
- Target bitrates (`updateTargetBitrate`, `adjustPriorities`, `determineActiveStreams`): tuning without a crisp specification.
- The updates of the L4S scaling factor and of the shared-bottleneck statistics, which are inputs here.
- `checkIfFlushAck`, logs and statistics: presentation.
- The layouts of `RazorHeader`, `WebrtcHeader` and `ScreamHeader`: fixed field-by-field codecs.
- Reference counts of `MpSender`, whose class `Path` is not part of this model.
- Sockets, timers, tracing and topologies of ns-3: delivery and time are inputs to steps.
- The packet pointers in `RtpQueue` and the text that `ToString` formats; `BitrateAllocation.BitrateAllocation.Show` returns the numbers.
