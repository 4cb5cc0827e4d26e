# Verified models of isochronous

isochronous measures networks with equally spaced traffic. This project models, in Dafny, the
three programs whose logic is worth a proof and proves what they promise:

* **isoping** - two peers exchange packets at a fixed rate and work out the one-way latency in
  each direction without knowing the difference of their clocks. Modelled: the latency estimator
  and loss counter (`handle_ack_packet`), the ring of 64 redundant acks, the cookie handshake, and
  the send scheduler, on the 32- and 64-bit words the program uses.
* **isostream** - a server paces bytes against a goal line and a client tracks dropouts. Modelled:
  the pacing loop, the client's sampling and dropout counters, and the two together.
* **udpstress** - the classifier of arriving message numbers.

## How it is built

| file | holds |
|---|---|
| `Words.dfy` | wrapping, truncation, `DIFF`/`DIFF64`, congruence modulo 2^32 |
| `Wire.dfy` | the packet; its union of handshake fields and acks is 128 words, so the overlay is exact |
| `Engine.dfy` | the session engine as functions on the value of a session |
| `Session.dfy`, `Sessions.dfy` | the classes `Session` and `Sessions`, whose methods update fields, the ack buffer, the session map and the queue in place; each method is proved against a function of the old state |
| `Measure.dfy`, `TwoParty.dfy` | what the wrapped arithmetic measures; a client and a server over a network that loses, duplicates and reorders |
| `AckFilter.dfy`, `Steady.dfy` | ack redundancy; constant delays |
| `Origin.dfy`, `Loss.dfy`, `Deviation.dfy` | the drifting origin, loss accounting, statistics |
| `Unbounded.dfy`, `UnboundedPair.dfy` | the estimator over true integers, refined by the one on machine words; two of them exchanging packets |
| `Scheduler.dfy`, `Handshake.dfy`, `HandshakeRun.dfy` | what the scheduler owes a session; cookies; the handshake over every run |
| `Dispatch.dfy` | what the two programs do with a packet is what the two ends of `TwoParty.dfy` do |
| `ServerLoop.dfy` | the server's main loop: wall clock, sending, reading |
| `Isostream.dfy`, `Rates.dfy`, `ConstantLink.dfy`, `Dropouts.dfy` | isostream's server; how its rates fall on whole microseconds; its client behind a link of constant delay; the dropout counters |
| `Udpstress.dfy` | udpstress |

`dafny verify dfyconfig.toml` checks everything; the proofs need no more than the default solver.
Proofs hide the definitions they do not need (`hide`) and leave arithmetic modulo 2^32 to small lemmas
on plain integers.

## What holds only under a condition

Each of these is something a reader of the program might expect always to hold. One lemma gives the
exact condition, and another an input at which it fails.

* isostream's "subtle part" says that a client with no network problem is never behind its goal line. Both
  clocks count whole microseconds, so it can be: by 1 usec, and never more, at any rate, delay and clock phase
  (`ConstantLink.NeverTwoBehind`). A given client is behind at some instant **iff** an inequality holds for one of the
  server's sleeps (`ConstantLink.BehindIff`), and a given run of the server shows some client behind **iff** a
  similar one does (`ConstantLink.SomeClientBehindIff`). If the client's clock flips when the server's did, only 7
  megabits/sec is affected (`ConstantLink.NeverBehind`). Instances, the first with a counted dropout:
  `ConstantLink.BehindAtTwelve`, `Dropouts.FalseDropoutAtTwelve`, `ConstantLink.BehindAtSeven`.
* isostream's server, with exact sleeps, can wake after a tick at which `bytes_per_period` was due. It does so **iff** the
  bits of the next byte that it does not see outweigh, by what is left of the microsecond, the bits in excess at
  that tick (`Isostream.OversleepsIff`): never from a tick at which whole bytes are due, and only late in a microsecond
  (`Isostream.OversleepsRarely`). Instances: `Isostream.OversleepsATick` and, before the first write,
  `Isostream.OversleepsAtFirst`.
* The round trip of a constant-delay connection is the sum of the two delays **iff** the receiver's
  own schedule origin is not 0 modulo 2^32, or its peer's delay happens to be: 0 is the mark for "not
  yet known" in `start_rtxtime` (`Steady.SteadyState`; `Steady.SentinelHit` is a run of one packet each way).
* Sending gets past a session that is due with the packets it is owed **iff** its period is positive as a signed
  number (`Scheduler.CatchesUpIff`). With a negative one it takes at least 2^31 packets, until the 64-bit difference turns
  round, and with a period of 0 it never does (`Scheduler.PassedAfter`, `Scheduler.PassedIff`). The server opens a
  session with a positive period **iff** the rate on the wire is in 1..2^31-1 (`Handshake.OpenedSaneIff`;
  `Handshake.OverlongPeriod` is a client that gets another one).
* The server's queue keeps one entry per session **iff** the packet read does not restart a session it has: a new
  greeting erases the session but not its entry, a repeated cookie adds a second one (`SessionsObject.DispatchQueue`, from
  `SessionsObject.NewSessionQueue` and `SessionsObject.ErasedSessionQueue`). An ordinary client gets there soon: if no ack
  has come one period after its echo it repeats the cookie, and the server's first packet is due 10 msec after the echo
  arrives (`Handshake.CookieRepeated`), so this happens once the round trip exceeds the period less 10 msec, 90 msec at the
  default rate.
* The server looks at the wall clock **iff** its last look is more than a second old or was made when the clock no longer
  fitted 32 bits, which it does only for 71 minutes after boot: `last_secret_update_time` keeps the low half
  (`Handshake.ThrottledIff`, `Handshake.LooksTwiceInAMicrosecond`).
* A client that negotiates again reports, until an ack comes, the clock difference it knew before. With constant delays the
  round trip the server shows and averages for its first packet is the true one **iff** that difference is the client's
  delay over the new schedule (`Steady.OldReportIff`, from `Steady.ReportsTheOld`; `Steady.OldReportHit` is an instance).
* A client that echoes the cookie it was offered gets a session **iff** the offer was not made in epoch 0, the mark for "no
  cookie", and the server has rotated once since, or not at all and the two epochs in use differed
  (`Handshake.OfferOpensIff`, from `Handshake.CookieWindow` about the check alone; `Handshake.EpochZeroNeverOpens` is an
  instance). Both are so once there has been a rotation, unless the wall clock shows the first 64 seconds of its era
  (`Handshake.EpochsDiffer`).
* After a renegotiation ids start again from 1 but `next_rxack_id` does not: the acks counted from then on are the records
  above the largest id counted before, so an ack of a new packet up to that id is lost (`AckFilter.RenegotiatedFilter`,
  `AckFilter.RenegotiatedAckLost`).

Where comments and code differ the model follows the code: a slot of the ack ring is empty when its `id` is 0
(the comment in isoping.h names `txtime`), and isostream's server accepts 0 megabits/sec although its message says
the rate must be positive; it then writes empty chunks without ever sleeping.

## Model

| member | source | states |
|---|---|---|
| TwoParty.LatencyIdentity | isoping.cc:783-921 | in any run from any negotiation of a client with any past, for every packet delivered and every ack newly counted with it, the receive latency and the transmit latency shown add up to the true schedule-to-arrival latencies of the two packets, for any clock difference, jitter, origin corrections and wraps |
| TwoParty.TransmitTimeRebuilt | isoping.cc:894-895 | in every such run, the transmit time rebuilt for an id when its ack was counted is the one stamped in the packets sent under that id |
| TwoParty.RunKeeps | isoping.cc:410-438 | in every run both ends stay on the schedule line they stamp packets on, acks sent are the sender's last 64 real arrivals, and the learnt remote origin is the peer's |
| Dispatch.ServerDelivers | isoping.cc:580-596 | what the server's dispatch leaves of a session, for an ack packet or a handshake with a good cookie, is what the server's end of these runs is left with; no other session is touched |
| Dispatch.ClientDelivers | isoping.cc:598-645 | the same of the client and an ack packet |
| Dispatch.ClientBegins | isoping.cc:693-725 | and a client that takes a server's cookie stands where these runs begin, whatever it has been through |
| Dispatch.Transmits | isoping.cc:410-511 | what either end sends, and is left with, is what it sends in these runs |
| Dispatch.ServerCounts | isoping.cc:631-645 | an ack packet for a session: next_rxack_id follows the maximum of its acks, lat_tx_count grows by the records among them, and the session is heard from now |
| Dispatch.Begins | isoping.cc:126-153 | a new session has sent, received, counted and lost nothing, and its first packet says so |
| Dispatch.OpenedBy | isoping.cc:667-691 | the session a good cookie opens: the packet is on time, calibrates, loses and acks nothing, fills the first slot, and is answered 10 msec later |
| Dispatch.AdoptionLeaves | isoping.cc:704-723 | what adopting a cookie starts anew, and what goes on: ack filter, loss count, ring index, statistics, old origins |
| Dispatch.EstablishmentLeaves | isoping.cc:634-641 | a client's first ack clears the handshake's words, once, and changes nothing else |
| Dispatch.Recalibrates | isoping.cc:705-757 | the first ack packet after an adoption calibrates the client afresh: on time, with the remote origin it implies |
| Dispatch.RunAverages | isoping.cc:837-845 | in every such run the statistics of both ends have taken up exactly the latencies shown, those the latency identity is about |
| Measure.LatencySum | isoping.cc:830-899 | one reception: origin, clock offset and halved round trip cancel in the sum of the two latencies; every sample stems from a nonempty slot of the packet |
| Steady.SteadyState | isoping.cc:782-919 | constant one-way delays, any clock offset and loss: no delay is ever measured, the origin is the peer's delayed and never moves (short of an id wrap), the round trip is the sum of the delays exactly when the sentinel is not hit, and it is split into its two halves |
| Steady.ReportsTheOld | isoping.cc:414-416 | until it receives a packet a client reports the clock difference of the negotiation before, 0 if it is its first |
| Steady.OldReportIff | isoping.cc:828-846 | with constant delays the round trip shown for such a packet is the true one iff the old difference is the client's delay |
| Steady.OldReportHit | isoping.cc:828-846 | an instance: a client that knew another clock difference, and its first packet of a new negotiation |
| Steady.SentinelHit | isoping.cc:414-416 | an instance: a run with constant delays, one packet each way, whose round trip is not their sum |
| UnboundedPair.PairRefines | isoping.cc:410-438 | two ends on wrapping words, their clocks any distance apart, over a network that loses, duplicates and reorders, show and count what two ends exchanging unbounded numbers do, as long as true delays, round trips and gaps fit 31 bits and nothing sent hits the mark for unknown |
| UnboundedPair.UnknownMeasuresNothing | isoping.cc:827-838 | over every such run a packet from an end that has heard nothing acks nothing, so that no round trip need fit when it arrives |
| UnboundedPair.AnyClocks | isoping.cc:803-827 | for any two clocks and any two arrival times with a true round trip that fits, the first packet each way is such a run, and the machine shows the true round trip |
| Unbounded.RunRefines | isoping.cc:727-924 | one end, whatever it is sent: a run on wrapping words shows, packet by packet, the rxdiff and txdiff of the run over true integers, and the rtt wherever the peer has reported or acked anything, and ends with its loss count and statistics, as long as packets carry the truth and true delays, round trips and gaps fit 31 bits; the clocks may differ by any amount |
| Unbounded.ReceiveRefines | isoping.cc:727-924 | the same for one packet: same branches, same figures, and the rtt modulo 2^32 where it means nothing yet |
| Origin.OriginFilter | isoping.cc:742-757 | over any run the origin is the one some received packet implied, no measured delay is below -20, and a forward slide happens only after a cycle without backslide, makes its fastest packet exactly on time and none early; no such cycle ends with all its packets late; and cycles end every ten seconds from the calibrating packet on |
| Origin.SlideIsExact | isoping.cc:870-879 | the same for one packet received by any session whose minimum is that of its cycle |
| Loss.LossMeaning | isoping.cc:759-780 | for any arrival order with duplicates, on top of what was lost before: next_rx_id is one past the largest id; range = new maxima + losses; losses = ids that never came + ids that only came late; and this count is sent to the peer |
| AckFilter.CountedAreTheRecords | isoping.cc:886-921 | in every run the ids whose acks are counted are exactly the strict left-to-right maxima of the ack ids read, above the largest counted before the negotiation |
| AckFilter.NoAckIsMissed | isoping.cc:433-436 | if no packet an end received is more than 64 receipts ahead of the best before it, the end counts what it would count by reading the peer's receipt log up to that best; in id order above what it counted before, that is every receipt, once |
| AckFilter.RenegotiatedFilter | isoping.cc:704-705 | over any run of a client, however often it negotiates: the ids counted are the records, above the largest counted before, of all ids read since |
| AckFilter.RenegotiatedAckLost | isoping.cc:704-705 | an instance: two packets sent and acked under id 1, one ack counted |
| AckFilter.ReceiveCounts | isoping.cc:892-913 | one packet: the ids counted are the records above the largest so far, and next_rxack_id follows the maximum |
| Wire.WriteRing | isoping.cc:881-884 | filing a receipt keeps the ring, read from first_ack, equal to the last 64 receipts oldest first, from any starting index |
| Engine.ReceiveFrame | isoping.cc:727-924 | receiving leaves rate, handshake state and send schedule alone and changes the buffer only by filing the receipt |
| Deviation.StatisticsAreOfTheShown | isoping.cc:837-919 | over any run latRx and latTx are the fold of exactly the receive latencies of packets with a clock difference and the transmit latencies of counted acks, in order |
| Deviation.DeviationDefined | isoping.cc:380-387 | after any run, both ways: last, count, sum, sum of squares, least and greatest are those of the latencies shown, the numerator and denominator of the deviation are never negative and the mean lies between lat_min and lat_max |
| Deviation.NumerIsPairSpread | isoping.cc:384-384 | count*sumsq - sum*sum is the sum of squared pairwise differences of the samples |
| Deviation.DenomIsPairs | isoping.cc:385-385 | count*(count-1) is the number of ordered pairs of different samples |
| Deviation.MeanBetween | isoping.cc:839-845 | last, least, greatest, count, sum and sum of squares are those of the samples, the greatest counting from 0 and the least from 0x7fffffff |
| Scheduler.SilentIff | isoping.cc:542-542 | the server takes a client for silent iff the last time it heard, kept as 32 bits, is more than 60 seconds and less than 36 minutes ago; a client never does |
| Scheduler.ServerFate | isoping.cc:522-549 | what one call owes one session: nothing before its time; floor((now - next_send) / usec_per_pkt) + 1 packets on its grid if due and heard from; one packet and removal if last heard over 60 seconds ago |
| Scheduler.ClientFate | isoping.cc:522-549 | the same for a client with a cookie, which is never removed |
| Scheduler.CatchesUpIff | isoping.cc:522-549 | within 2^62 usec of schedule the loop gets past a due session that is heard from iff its period is positive |
| Scheduler.PassedAfter | isoping.cc:522-549 | for a period that is not 0, after exactly how many packets it does: those overdue, or those after which the 64-bit difference turns round, at least 2^31 |
| Scheduler.PassedIff | isoping.cc:522-549 | without any bound it does iff the period is not 0 |
| Scheduler.HandshakeBackoff | isoping.cc:487-509 | after n unanswered sends next_send is first + 10^6*(2^n - 1) up to n = 11, then 1024*10^6 more per send, and the next packet is still handshake number 1 |
| SessionsObject.ServerRound | isoping.cc:513-551 | a whole call on the server: transmissions in order of scheduled time, each session served exactly as owed, those last heard over 60 seconds ago removed after one packet, nobody else sent to |
| SessionsObject.Sessions.SendWaitingPackets | isoping.cc:513-551 | given one queue entry per session and positive periods, terminates; one entry per session is kept; each session's packets and survivor are those owed; every survivor is due later than now |
| SessionsObject.Sessions.SendTop | isoping.cc:526-548 | one round: pop, send, and push back or evict, on map and queue alike |
| SessionsObject.Sessions.Top | isoping.cc:362-365 | the entry taken is one of the earliest |
| SessionsObject.LessOverdue | isoping.cc:522-549 | every round lowers the total overdue time, the measure of termination |
| SessionsObject.DispatchQueue | isoping.cc:553-691 | reading a packet keeps one queue entry per session iff it is not a handshake that restarts a session |
| SessionsObject.DispatchSane | isoping.cc:672-674 | reading a packet keeps all periods positive iff it does not open a session at a rate outside 1..2^31-1 |
| ServerLoop.ReadyIffOrderly | isoping.cc:1097-1111 | after a pass the server can send again iff the packet read was orderly in both senses |
| ServerLoop.RunStaysSane | isoping.cc:1097-1111 | over any run of orderly packets no session ever gets a period that is not positive |
| ServerLoop.ServeLoop | isoping.cc:1063-1117 | any number of passes of the main loop over orderly packets: sending is always possible, and keys, sessions and queue are those of the run |
| SessionsObject.NewSessionQueue | isoping.cc:159-162 | pushing a queue entry keeps one per session iff the address is new |
| SessionsObject.ErasedSessionQueue | isoping.cc:661-666 | erasing from the map alone keeps one entry per session iff there was no session |
| SessionsObject.Sessions.NewSession | isoping.cc:155-163 | inserts only for a new address, pushes a queue entry always |
| SessionsObject.Sessions.RotateCookieSecrets | isoping.cc:260-266 | current epoch and secret become the previous ones |
| SessionsObject.Sessions.MaybeRotateCookieSecrets | isoping.cc:248-258 | looks when the 64-bit time minus the kept low half of the last look exceeds a second; rotates only into another 64-second epoch; records the low half of the time of a look |
| Handshake.ThrottledIff | isoping.cc:248-256 | a call looks iff the last look is more than a second old or was made when the clock no longer fitted 32 bits |
| Handshake.LookLeaves | isoping.cc:250-266 | what a call leaves: without a look nothing new; after one the 64-second epoch of the wall clock, and if it is another one a new secret, the old pair becoming previous |
| Handshake.CookieUnderLooks | isoping.cc:214-266 | over any run of looks a cookie outlives one change of epoch and is refused at the second |
| Handshake.ReplyMeaning | isoping.cc:441-463 | a reply carries the id answered, the time, the clock difference to the time stamped in it, no acks and losses, the agreed period, and a cookie of the current epoch for that period and address |
| Handshake.ReplyIff | isoping.cc:586-666 | the server replies iff it is greeted without a cookie or a stranger acks; the sender then has no session and nobody else is touched |
| Handshake.LooksTwiceInAMicrosecond | isoping.cc:248-256 | an instance, 71 minutes after boot |
| Handshake.EpochsDiffer | isoping.cc:248-266 | over any run of looks the epochs in use differ once there has been a rotation, and the current one is not 0 unless the wall clock says so |
| Handshake.OpenedSaneIff | isoping.cc:672-674 | a session opened by a packet is fit for the scheduler iff the rate on the wire is in 1..2^31-1 |
| Handshake.OverlongPeriod | isoping.cc:441-463 | an instance: a client asking for 2^31 usec is offered a cookie for it and gets a session with a negative period |
| SessionsObject.Sessions.CalculateCookie | isoping.cc:184-212 | stores epoch and digest of secret, rate and address; refuses a packet that is not a handshake |
| SessionsObject.Sessions.ValidateCookie | isoping.cc:214-246 | accepts iff the epoch is in use and the digest under its secret matches |
| SessionsObject.Sessions.SendInitialHandshakeReply | isoping.cc:441-463 | replies with a cookie for a period no shorter than the client's and the server's, and one of the two |
| SessionsObject.Sessions.HandleNewClientHandshakePacket | isoping.cc:653-691 | erases and replies, or rejects, or opens or keeps the session, pushes a queue entry and files the packet |
| SessionsObject.Sessions.ReadIncomingPacket | isoping.cc:580-596 | the server's dispatch, its effect on sessions and queue; an ack from a stranger is answered with a cookie |
| SessionsObject.Sessions.HandleServerHandshakePacket | isoping.cc:693-725 | the client's session adopts cookie and rate and is queued exactly once |
| SessionsObject.Sessions.ReadFromServer | isoping.cc:598-612 | the client's dispatch; fails iff there is no session |
| SessionObject.Session.HandleAckPacket | isoping.cc:727-924 | in-place estimator equals the function whose properties are proved above |
| SessionObject.Session.AlignOrigin | isoping.cc:739-791 | calibration, loss count and paradox correction in place |
| SessionObject.Session.TrackCycle | isoping.cc:870-879 | per-cycle minimum filter in place |
| SessionObject.Session.ReadAcks | isoping.cc:886-921 | the loop over all 64 slots from first_ack |
| SessionObject.Session.HandleAck | isoping.cc:631-645 | a client's first ack establishes the session and clears the handshake data |
| SessionObject.Session.AdoptServerCookie | isoping.cc:704-723 | cookie stored over the acks, ids restarted, rate taken over |
| SessionObject.Session.PrepareTxPacket | isoping.cc:410-438 | the header of the next packet |
| SessionObject.Session.SendPacket | isoping.cc:466-511 | the buffer goes out as it is; schedule or backoff follows, unless a client is refused, which changes nothing |
| SessionObject.Session.constructor | isoping.cc:126-153 | a fresh session with an all-zero buffer |
| Handshake.CookieWindow | isoping.cc:214-266 | after any rotations in any order of epochs a cookie validates iff for its own address and rate and after exactly one rotation, or none while the epochs in use differ |
| Handshake.OfferOpensIff | isoping.cc:653-691 | greeting, offer, any rotations, echo by the client's own code: a session is opened iff the offered epoch is not 0 and one rotation lies between, or none and the epochs in use differed |
| Handshake.EpochZeroNeverOpens | isoping.cc:661-666 | an instance: in epoch 0, with another previous epoch, the echo is answered by another offer |
| Handshake.CookieRepeated | isoping.cc:481-486 | the session an echo opens is due 10 msec after its arrival, the client one period after sending it; what the client sends then, unacked, restarts the session |
| HandshakeRun.HandshakeAgreement | isoping.cc:617-725 | over every run: a session exists only for an address that got a cookie from the server and had it accepted back at the same rate; an established client was accepted; both ends then use the period that is no shorter than the request and the minimum and equals one of them, however often they negotiate |
| HandshakeRun.UnionNeverConfused | isoping.cc:419-437 | over every run: no ack reaches a client without a cookie; every handshake packet sent carries no epoch or the last cookie received then; every ack packet sent carries exactly the receipts since the ring was cleared |
| Isostream.RunServer | isostream.c:223-259 | the pacing loop; the bytes written never run ahead of the goal line; rates out of range are refused |
| Isostream.AlwaysPaced | isostream.c:230-259 | at every turn: never ahead of the goal, and awake before more than bytes_per_period is due |
| Isostream.ChunkBound | isostream.c:250-258 | a turn writes at most the 1 MiB buffer, and a paced server everything that is due |
| Isostream.OversleepsIff | isostream.c:235-248 | a sleep runs past a tick at which bytes_per_period was due iff an inequality between the bits left over now, the excess at that tick and the phase within the microsecond holds |
| Isostream.OversleepsRarely | isostream.c:235-248 | never from a tick at which whole bytes are due, and only if rate times what is left of the microsecond is at most 7000 |
| Isostream.OversleepsATick | isostream.c:235-248 | an instance: 7 megabits/sec, 300 nsec into a microsecond |
| Isostream.OversleepsAtFirst | isostream.c:235-248 | an instance before the first write: 7 megabits/sec, 600 nsec into a microsecond |
| Isostream.LagBounded | isostream.c:235-248 | the lag never exceeds bytes_per_period while the server sleeps |
| ConstantLink.NeverTwoBehind | isostream.c:427-452 | the subtle part, as it is: for any rate from 1 to 1000, constant delay, clock phases, start with or after the first data, and instant, a client that has read what arrived is at most 1 usec behind |
| ConstantLink.NeverBehind | isostream.c:427-452 | with clocks that flip together as seen through the link, it is never behind, at any rate but 7 |
| ConstantLink.BehindIff | isostream.c:235-301 | a given client over a given link is behind at some instant of a run iff its goal line passes what was sent before the end of one of the server's sleeps |
| ConstantLink.SomeClientBehindIff | isostream.c:235-301 | a run of the server shows some client behind over some link iff an inequality on one of its sleeps holds |
| ConstantLink.BehindAtTwelve | isostream.c:295-301 | an instance: 12 megabits/sec, clocks in step, 600 nsec of delay |
| ConstantLink.BehindAtSeven | isostream.c:295-301 | an instance with one clock and no delay: 7 megabits/sec |
| Isostream.OffsetMeaning | isostream.c:299-301 | the offset is the time in which the bytes a client is ahead or behind by would come, in whole microseconds towards 0 |
| Isostream.OffsetBound | isostream.c:299-301 | no offset is further behind than the time since the start |
| Dropouts.NoFalseDropouts | isostream.c:303-341 | server and client together, aligned clocks and any rate but 7: every sample is nonnegative and all dropout counters stay 0 |
| Dropouts.NoDropoutsUnlessOvertaken | isostream.c:303-341 | the same for any clocks in a run in which no sleep is overtaken |
| Dropouts.FalseDropoutsAreShallow | isostream.c:303-341 | and in every run no sample is below -1 and drop_maxdepth is -1 or 0 |
| Dropouts.FalseDropoutAtTwelve | isostream.c:303-341 | an instance with drop_count 1 and drop_maxdepth -1 |
| Dropouts.TrackMeans | isostream.c:305-345 | online tracking equals its batch meaning: longest completed stretch, least offset before the last catch-up, number of notable stretches |
| Dropouts.DepthWithinTime | isostream.c:342-344 | no recorded depth exceeds the time since the start |
| Dropouts.StreamClient.TakeSample | isostream.c:299-345 | one sample updates the counters in place as the tracked function does |
| Udpstress.Classify | udpstress.c:608-615 | consecutive is the longest prefix with n_i = i; out_of_order and adjacent_dups count adjacent descents and equalities |
| Udpstress.AllArrived | udpstress.c:608-615 | N messages numbered below N without descent or repeat are all consecutive |

## Assumptions

* The digest is any function; where it matters it has no collision among the inputs the server hashed in
  the run, and nobody presents a valid cookie that the server did not send to someone. Secrets are fresh.
* Byte order is the identity on fields. Addresses are IPv6 address and port.
* The 64-bit sums of the statistics do not overflow. The scheduler's times are below 2^62 microseconds.
* `1e6 / packets_per_sec` is a given positive integer.
* A packet is not sent while its sender's remote origin or clock difference is 0 modulo 2^32 (UnboundedPair only).
* TwoParty, Steady and AckFilter speak of one run from the adoption of a cookie to the next, with a session the server
  opens for it; the two ack theorems of runs of fewer than 2^31 packets each way.
* isostream's server sleeps exactly and its writes complete; the link's delay is constant; the client has read all that
  has arrived when it samples. Both clocks run at the rate of real time.

## Left out

- Sockets, select, name lookup, socket options, signals and real clocks: inputs of the model.
- Send errors in `send_waiting_packets`: the scheduler's sends succeed; a client that is refused ends its program there.
- Malformed datagrams (wrong length, magic or type), which `read_incoming_packet` drops.
- Printing and `last_ackinfo`, `last_print`, `usec_per_print`, which only decide what is printed.
- The square root and division of the deviation: the exact integer numerator and denominator are modelled.
- The IPv4 branch of the address order, and the heap behind the priority queue (any earliest entry may be taken).
- SessionsObject.Sessions.SendWaitingPackets: requires one queue entry per session and positive periods; exactly which packets keep these is stated by ServerLoop.ReadyIffOrderly, and what happens without the second by Scheduler.CatchesUpIff.
- ServerLoop.ServeLoop: requires orderly packets, because a restarted session leaves a queue entry too many or one without a session, and the heap then has entries whose keys change in place; Handshake.CookieRepeated says how early that happens.
- HandshakeRun.HandshakeAgreement: packets from the client's own address are the client's; other addresses may send anything but a guessed cookie.
- ConstantLink.NeverTwoBehind: does not model sleeps that end late or writes that fall short.
- Disconnects and reconnects of isostream's client, and its wait for the first data.
- udpstress's sender, its log of arrivals and its congestion marks.
- `dscp.h`, size parsing, the fuzz harness and the test framework.
