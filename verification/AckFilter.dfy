/** The monotone filter on acks: which ids get counted, and why 64 redundant slots suffice. */
module AckFilter {
  import opened Words
  import opened Wire
  import opened Engine
  import opened Measure
  import opened TwoParty

  // ---- strict left-to-right maxima ----

  function MaxOf(m: nat, ids: seq<nat>): nat {
    if ids == [] then m
    else var r := MaxOf(m, ids[..|ids| - 1]);
      if ids[|ids| - 1] > r then ids[|ids| - 1] else r
  }

  /** The ids that exceed `m` and everything before them. */
  function Records(m: nat, ids: seq<nat>): seq<nat> {
    if ids == [] then []
    else
      var k := |ids| - 1;
      Records(m, ids[..k]) + if ids[k] > MaxOf(m, ids[..k]) then [ids[k]] else []
  }

  lemma {:induction false} RecordsConcat(m: nat, u: seq<nat>, v: seq<nat>)
    ensures MaxOf(m, u + v) == MaxOf(MaxOf(m, u), v)
    ensures Records(m, u + v) == Records(m, u) + Records(MaxOf(m, u), v)
  {
    if v == [] {
      assert u + v == u;
    } else {
      var k := |v| - 1;
      assert (u + v)[..|u| + k] == u + v[..k];
      assert (u + v)[|u| + k] == v[k];
      RecordsConcat(m, u, v[..k]);
    }
  }

  lemma {:induction false} NothingNew(m: nat, ids: seq<nat>)
    requires forall i :: 0 <= i < |ids| ==> ids[i] <= m
    ensures MaxOf(m, ids) == m && Records(m, ids) == []
  {
    if ids != [] {
      NothingNew(m, ids[..|ids| - 1]);
    }
  }

  lemma {:induction false} BelowMax(m: nat, ids: seq<nat>)
    ensures m <= MaxOf(m, ids)
    ensures forall i :: 0 <= i < |ids| ==> ids[i] <= MaxOf(m, ids)
  {
    if ids != [] {
      BelowMax(m, ids[..|ids| - 1]);
      forall i | 0 <= i < |ids|
        ensures ids[i] <= MaxOf(m, ids)
      {
        if i < |ids| - 1 { assert ids[..|ids| - 1][i] == ids[i]; }
      }
    }
  }

  lemma {:induction false} MaxBound(m: nat, ids: seq<nat>, b: nat)
    requires m < b && forall i :: 0 <= i < |ids| ==> ids[i] < b
    ensures MaxOf(m, ids) < b
  {
    if ids != [] {
      MaxBound(m, ids[..|ids| - 1], b);
    }
  }

  ghost predicate Increasing(ids: seq<nat>) {
    forall i, j :: 0 <= i < j < |ids| ==> ids[i] < ids[j]
  }

  lemma {:induction false} IncreasingRecords(m: nat, ids: seq<nat>)
    requires Increasing(ids) && forall i :: 0 <= i < |ids| ==> ids[i] > m
    ensures Records(m, ids) == ids
    ensures MaxOf(m, ids) == if ids == [] then m else ids[|ids| - 1]
  {
    if ids != [] {
      var k := |ids| - 1;
      assert ids == ids[..k] + [ids[k]];
      IncreasingRecords(m, ids[..k]);
    }
  }

  // ---- the machine's filter computes records ----

  const ID_LIMIT: nat := 0x8000_0000

  /** next_rxack_id once the largest ack counted is m. */
  function Expecting(m: nat): nat { if m == 0 then 0 else m + 1 }

  lemma CountsAbove(s: Sess, a: AckSlot, m: nat)
    requires s.nextRxackId == Expecting(m) && m < ID_LIMIT && a.id < ID_LIMIT
    ensures Counts(s, a) <==> a.id > m
  {
    hide Diff;
    DiffExact(a.id, s.nextRxackId);
  }

  lemma {:induction false} CountedAreRecords(s: Sess, offset: int32, acks: seq<AckSlot>, m: nat)
    requires s.nextRxackId == Expecting(m) && m < ID_LIMIT
    requires forall i :: 0 <= i < |acks| ==> acks[i].id < ID_LIMIT
    ensures Ids(CountAcks(s, offset, acks).1) == Records(m, AckIds(acks))
    ensures CountAcks(s, offset, acks).0.nextRxackId == Expecting(MaxOf(m, AckIds(acks)))
  {
    hide Counts, TxDiff;
    if acks != [] {
      var k := |acks| - 1;
      CountedAreRecords(s, offset, acks[..k], m);
      assert AckIds(acks)[..k] == AckIds(acks[..k]);
      MaxBound(m, AckIds(acks[..k]), ID_LIMIT);
      var before := CountAcks(s, offset, acks[..k]);
      CountsAbove(before.0, acks[k], MaxOf(m, AckIds(acks[..k])));
    }
  }

  lemma {:induction false} ReceiveCounts(s: Sess, rx: Packet, now: uint64, m: nat)
    requires s.nextRxackId == Expecting(m) && m < ID_LIMIT
    requires forall i :: 0 <= i < 64 ==> RingRead(rx.data, rx.h.firstAck)[i].id < ID_LIMIT
    ensures var ids := AckIds(RingRead(rx.data, rx.h.firstAck));
      && Ids(Receive(s, rx, now).1.samples) == Records(m, ids)
      && Receive(s, rx, now).0.nextRxackId == Expecting(MaxOf(m, ids))
  {
    hide Aligned, Filed, ClockOffset, CountAcks, RingRead;
    FiledFrame(s, rx.h, now);
    CountedAreRecords(Filed(s, rx.h, now), ClockOffset(Aligned(s, rx.h, now), rx.h), RingRead(rx.data, rx.h.firstAck), m);
  }

  // ---- renegotiations ----

  /** A client's session, the ack ids it has read and those whose acks it counted. */
  datatype Tally = Tally(s: Sess, heard: seq<uint32>, counted: seq<uint32>)

  datatype ClientEvent = Sends | Gets(rx: Packet, now: uint64)

  function AckIdsOf(rx: Packet): seq<uint32> { AckIds(RingRead(rx.data, rx.h.firstAck)) }

  function Tallied(t: Tally, e: ClientEvent): Tally {
    match e
    case Sends => t.(s := SendTx(PrepareTx(t.s), false))
    case Gets(rx, now) =>
      if rx.h.kind == Handshake then t.(s := ClientReceive(t.s, rx, now))
      else Tally(ClientReceive(t.s, rx, now), t.heard + AckIdsOf(rx),
                 t.counted + Ids(Receive(Establish(t.s), rx, now).1.samples))
  }

  function TallyOf(s0: Sess, es: seq<ClientEvent>): Tally {
    if es == [] then Tally(s0, [], []) else Tallied(TallyOf(s0, es[..|es| - 1]), es[|es| - 1])
  }

  /** However often a client negotiates, and ids start again from 1, the filter goes on where it
      was: of all the ids acked since then exactly the records above the largest one counted
      before are counted. So every ack of a new packet numbered up to that is lost. */
  lemma {:induction false} RenegotiatedFilter(s0: Sess, es: seq<ClientEvent>, m: nat)
    requires s0.nextRxackId == Expecting(m) && m < ID_LIMIT
    requires forall i :: 0 <= i < |TallyOf(s0, es).heard| ==> TallyOf(s0, es).heard[i] < ID_LIMIT
    ensures var t := TallyOf(s0, es);
      && t.counted == Records(m, t.heard) && t.s.nextRxackId == Expecting(MaxOf(m, t.heard))
      && forall i :: 0 <= i < |t.counted| ==> t.counted[i] > m
  {
    hide MaxOf, Records, Receive, RingRead, AckIdsOf;
    if es == [] {
      NothingNew(m, []);
    } else {
      var t, e := TallyOf(s0, es[..|es| - 1]), es[|es| - 1];
      forall i | 0 <= i < |t.heard|
        ensures t.heard[i] < ID_LIMIT
      {
        assert TallyOf(s0, es).heard[i] == t.heard[i];
      }
      RenegotiatedFilter(s0, es[..|es| - 1], m);
      if e.Gets? && e.rx.h.kind == Ack {
        forall i | 0 <= i < 64
          ensures RingRead(e.rx.data, e.rx.h.firstAck)[i].id < ID_LIMIT
        {
          assert TallyOf(s0, es).heard[|t.heard| + i] == RingRead(e.rx.data, e.rx.h.firstAck)[i].id by { hide RingRead; AckIdAt(e.rx, i); }
        }
        MaxBound(m, t.heard, ID_LIMIT);
        assert AckIdsOf(e.rx) == AckIds(RingRead(e.rx.data, e.rx.h.firstAck)) by { AckIdAt(e.rx, 0); }
        ReceiveCounts(Establish(t.s), e.rx, e.now, MaxOf(m, t.heard));
        RecordsConcat(m, t.heard, AckIdsOf(e.rx));
      }
    }
    RecordsAbove(m, TallyOf(s0, es).heard);
  }

  function AckOfOne(): Packet {
    Packet(ZERO_HEADER, WithSlot(ZeroPayload(), 63, AckSlot(1, 0)))
  }

  function HelloBack(): Packet { Packet(ZERO_HEADER.(kind := Handshake), ZeroPayload()) }

  /** Negotiate, send packet 1, get its ack. */
  function Negotiate(es: seq<ClientEvent>): seq<ClientEvent> {
    es + [Gets(HelloBack(), 1)] + [Sends] + [Gets(AckOfOne(), 2)]
  }

  /** Such a run: negotiate, send packet 1, get its ack, and once more. Two packets were sent
      under the id 1 and acked, and one ack was counted. */
  lemma {:induction false} RenegotiatedAckLost(s0: Sess)
    requires s0.nextRxackId == 0
    ensures var once := Negotiate([]);
      var twice := Negotiate(once);
      && TallyOf(s0, once[..2]).s.tx.id == 1 && TallyOf(s0, twice[..5]).s.tx.id == 1
      && AckIdsOf(AckOfOne())[63] == 1
      && TallyOf(s0, twice).heard == AckIdsOf(AckOfOne()) + AckIdsOf(AckOfOne())
      && TallyOf(s0, twice).counted == [1]
  {
    hide Tallied, TallyOf, Negotiate, AckIdsOf, Records, MaxOf, AckOfOne, HelloBack;
    var once := Negotiate([]);
    var twice := Negotiate(once);
    assert TallyOf(s0, []).heard == [] by { NothingTallied(s0); }
    NegotiateTally(s0, []);
    NegotiateTally(s0, once);
    OneAck();
    RenegotiatedFilter(s0, twice, 0);
    var a := AckIdsOf(AckOfOne());
    assert a == a[..63] + [1];
    RecordsConcat(0, a, a);
    OneRecord(a[..63]);
  }

  lemma NothingTallied(s0: Sess)
    ensures TallyOf(s0, []) == Tally(s0, [], [])
  {
  }

  lemma NextTally(s0: Sess, es: seq<ClientEvent>, e: ClientEvent)
    ensures TallyOf(s0, es + [e]) == Tallied(TallyOf(s0, es), e)
  {
    hide Tallied;
    assert (es + [e])[..|es|] == es;
  }

  lemma NegotiateTally(s0: Sess, es: seq<ClientEvent>)
    ensures var after := Negotiate(es);
      && |after| == |es| + 3 && TallyOf(s0, after[..|es| + 2]).s.tx.id == 1
      && TallyOf(s0, after).heard == TallyOf(s0, es).heard + AckIdsOf(AckOfOne())
  {
    hide TallyOf, Tallied, AckIdsOf, AckOfOne, HelloBack;
    var e1 := es + [Gets(HelloBack(), 1)];
    var e2 := e1 + [Sends];
    NextTally(s0, es, Gets(HelloBack(), 1));
    NextTally(s0, e1, Sends);
    NextTally(s0, e2, Gets(AckOfOne(), 2));
    assert Negotiate(es)[..|es| + 2] == e2;
    OneNegotiation(TallyOf(s0, es));
  }

  lemma OneNegotiation(t: Tally)
    ensures var u := Tallied(Tallied(t, Gets(HelloBack(), 1)), Sends);
      && u.s.tx.id == 1 && u.heard == t.heard
      && Tallied(u, Gets(AckOfOne(), 2)).heard == u.heard + AckIdsOf(AckOfOne())
  {
    hide WithCookie, U32, S32, U64, AckIdsOf, Receive, WithSlot;
  }

  lemma OneAck()
    ensures |AckIdsOf(AckOfOne())| == 64 && AckIdsOf(AckOfOne())[63] == 1
    ensures forall i :: 0 <= i < 63 ==> AckIdsOf(AckOfOne())[i] == 0
  {
    var a := AckOfOne();
    forall i | 0 <= i < 64
      ensures AckIdsOf(a)[i] == if i == 63 then 1 else 0
    {
      AckIdAt(a, i);
      RingReadAt(a.data, 0, i);
    }
  }

  lemma JustOne(m: nat)
    ensures Records(m, [1]) == if m < 1 then [1] else []
    ensures MaxOf(m, [1]) == if m < 1 then 1 else m
  {
    assert [1][..0] == [];
  }

  lemma OneRecord(zeros: seq<nat>)
    requires forall i :: 0 <= i < |zeros| ==> zeros[i] == 0
    ensures Records(0, zeros + [1]) == [1] && MaxOf(0, zeros + [1]) == 1 && Records(1, zeros + [1]) == []
  {
    hide Records, MaxOf;
    RecordsConcat(0, zeros, [1]);
    NothingNew(0, zeros);
    JustOne(0);
    NothingNew(1, zeros + [1]);
  }

  lemma AckIdAt(rx: Packet, i: nat)
    requires i < 64
    ensures AckIdsOf(rx) == AckIds(RingRead(rx.data, rx.h.firstAck))
    ensures |AckIdsOf(rx)| == 64 && AckIdsOf(rx)[i] == RingRead(rx.data, rx.h.firstAck)[i].id
  {
  }

  lemma {:induction false} RecordsAbove(m: nat, ids: seq<nat>)
    ensures forall i :: 0 <= i < |Records(m, ids)| ==> Records(m, ids)[i] > m
  {
    if ids != [] {
      RecordsAbove(m, ids[..|ids| - 1]);
      BelowMax(m, ids[..|ids| - 1]);
    }
  }

  // ---- whole runs of fewer than 2^31 packets each way ----

  /** Packets are numbered from 1, and only numbers in use are received or acked. */
  ghost predicate Numbered(x: Node, y: Node) {
    && (Live(x) ==> x.s.nextTxId == U32(|x.out| + 1))
    && (forall i :: 0 <= i < |x.out| ==> x.out[i].p.h.id == U32(i + 1))
    && (|y.out| < ID_LIMIT ==> forall i :: 0 <= i < |x.arrivals| ==> 1 <= x.arrivals[i].id <= |y.out|)
  }

  /** What x counted is the record sequence of all it read. */
  ghost predicate Filtered(x: Node, y: Node) {
    && x.counted == Records(x.before, x.heard)
    && (Live(x) ==> x.s.nextRxackId == Expecting(MaxOf(x.before, x.heard)))
    && (!Live(x) ==> x.heard == [] && x.before == 0) && x.before < ID_LIMIT
    && (forall i :: 0 <= i < |x.heard| ==> x.heard[i] <= |x.out|)
  }

  ghost predicate Short(w: World) { |w.client.out| < ID_LIMIT && |w.server.out| < ID_LIMIT }

  ghost predicate FilterInv(w: World) {
    && Numbered(w.client, w.server) && Numbered(w.server, w.client) && w.server.before == 0
    && (Short(w) ==> Filtered(w.client, w.server) && Filtered(w.server, w.client))
  }

  /** A client that starts anew goes on where its filter was. */
  ghost predicate Resumes(w: World) {
    w.client.before < ID_LIMIT && w.client.s.nextRxackId == Expecting(w.client.before)
  }

  lemma FreshFilter(w: World)
    requires Fresh(w) && Resumes(w)
    ensures FilterInv(w)
  {
    hide WithCookie, S32;
  }

  lemma WrappedNext(n: nat)
    ensures U32(U32(n) + 1) == U32(n + 1)
  {
  }

  lemma TransmitFilter(x: Node, y: Node)
    requires Live(x) && Numbered(x, y) && Numbered(y, x)
    ensures Numbered(TransmitStep(x), y) && Numbered(y, TransmitStep(x))
    ensures Filtered(x, y) ==> Filtered(TransmitStep(x), y)
    ensures Filtered(y, x) ==> Filtered(y, TransmitStep(x))
  {
    hide U32, U64, MaxOf, Records;
    var x' := TransmitStep(x);
    WrappedNext(|x.out| + 1);
    forall i | 0 <= i < |x'.out|
      ensures x'.out[i].p.h.id == U32(i + 1)
    {
      if i < |x.out| { assert x'.out[i] == x.out[i]; }
    }
  }

  /** What a delivered packet can ack. */
  lemma AckIdsInUse(x: Node, y: Node, q: Sent, p: int32)
    requires End(y, x, p) && q in y.out && Numbered(y, x) && |x.out| < ID_LIMIT
    ensures forall i :: 0 <= i < 64 ==> RingRead(Seen(q).data, q.p.h.firstAck)[i].id <= |x.out|
  {
    hide RingRead, OnSchedule, RingHonest, Learnt, U32;
    assert HonestAcks(q, y.arrivals);
    ClearedRing(q.p.h.firstAck);
    forall i | 0 <= i < 64
      ensures RingRead(Seen(q).data, q.p.h.firstAck)[i].id <= |x.out|
    {
      var r := if q.p.h.kind == Handshake then Receipts([]) else Receipts(y.arrivals[..q.seen]);
      assert RingRead(Seen(q).data, q.p.h.firstAck)[i] == LastReceipts(r)[i];
    }
  }

  lemma DeliverFilter(x: Node, y: Node, q: Sent, now: uint64, p: int32)
    requires End(x, y, p) && End(y, x, p) && q in y.out
    requires Live(x) || Opens(x, q)
    requires !x.isServer ==> q.p.h.kind == Ack
    requires Numbered(x, y) && Numbered(y, x)
    ensures Numbered(DeliverStep(x, q, now), y) && Numbered(y, DeliverStep(x, q, now))
    ensures Filtered(x, y) && |x.out| < ID_LIMIT ==> Filtered(DeliverStep(x, q, now), y)
    ensures Filtered(y, x) ==> Filtered(y, DeliverStep(x, q, now))
  {
    hide MaxOf, Records, Receive, RingRead, OnSchedule, RingHonest, AcksHonest, Learnt;
    var s, rx, x' := Before(x, q, now), Seen(q), DeliverStep(x, q, now);
    ReceiveFrame(s, rx, now);
    SeenHeader(q);
    if |x.out| < ID_LIMIT && Filtered(x, y) {
      var ids := AckIds(RingRead(rx.data, q.p.h.firstAck));
      AckIdsInUse(x, y, q, p);
      if x.heard == [] { assert MaxOf(x.before, x.heard) == x.before by { NothingNew(x.before, x.heard); } }
      MaxBound(x.before, x.heard, ID_LIMIT);
      ReceiveCounts(s, rx, now, MaxOf(x.before, x.heard));
      RecordsConcat(x.before, x.heard, ids);
    }
  }

  lemma StepFilter(w: World, e: Event, p: int32)
    requires Inv(w, p) && FilterInv(w) && Enabled(w, e)
    ensures FilterInv(Step(w, e))
    ensures |w.client.out| <= |Step(w, e).client.out| && |w.server.out| <= |Step(w, e).server.out|
  {
    hide OnSchedule, AcksHonest, RingHonest, Learnt, Numbered, Filtered, Result, Seen, PrepareTx, SendTx;
    match e
    case Transmit(fromServer) =>
      if fromServer { TransmitFilter(w.server, w.client); } else { TransmitFilter(w.client, w.server); }
    case Deliver(toServer, k, now) =>
      if toServer { DeliverFilter(w.server, w.client, w.client.out[k], now, p); }
      else { DeliverFilter(w.client, w.server, w.server.out[k], now, p); }
  }

  lemma {:induction false} RunFilter(w0: World, es: seq<Event>)
    requires Fresh(w0) && Resumes(w0) && ValidRun(w0, es)
    ensures FilterInv(Run(w0, es))
    decreases |es|
  {
    if es == [] {
      FreshFilter(w0);
    } else {
      var k := |es| - 1;
      RunFilter(w0, es[..k]);
      RunKeeps(w0, es[..k]);
      StepFilter(Run(w0, es[..k]), es[k], w0.client.s.usecPerPkt);
    }
  }

  /** In every run, in whatever order packets arrive and however often, the acks counted
      are exactly the strict left-to-right maxima of the acks read, for a client above the largest
      one it had counted before it negotiated. */
  lemma {:induction false} CountedAreTheRecords(w0: World, es: seq<Event>)
    requires Fresh(w0) && Resumes(w0) && ValidRun(w0, es) && Short(Run(w0, es))
    ensures var w := Run(w0, es);
      && w.client.counted == Records(w0.client.before, w.client.heard)
      && w.server.counted == Records(0, w.server.heard)
  {
    hide Run, MaxOf, Records;
    RunFilter(w0, es);
    SameBefore(w0, es);
  }

  lemma {:induction false} SameBefore(w0: World, es: seq<Event>)
    requires ValidRun(w0, es)
    ensures Run(w0, es).client.before == w0.client.before
    decreases |es|
  {
    hide Result, PrepareTx, SendTx, Enabled;
    if es != [] { SameBefore(w0, es[..|es| - 1]); }
  }

  // ---- redundancy: nothing is missed while at most 64 receipts fall between deliveries ----

  function ArrivalIds(arrivals: seq<Arrival>): seq<uint32> {
    seq(|arrivals|, i requires 0 <= i < |arrivals| => arrivals[i].id)
  }

  /** What x counted is what it would have counted by reading the peer's own records. */
  ghost predicate CaughtUp(x: Node, y: Node) {
    && x.mark <= |y.arrivals|
    && var known := ArrivalIds(y.arrivals[..x.mark]);
       Records(x.before, x.heard) == Records(x.before, known) && MaxOf(x.before, x.heard) == MaxOf(x.before, known)
  }

  lemma WindowAdds(b: nat, m: nat, arrivals: seq<Arrival>, mark: nat, n: nat)
    requires mark <= |arrivals| && n <= |arrivals| && n <= mark + 64
    requires m == MaxOf(b, ArrivalIds(arrivals[..mark]))
    ensures var window := AckIds(LastReceipts(Receipts(arrivals[..n])));
      var news := if n > mark then ArrivalIds(arrivals[mark..n]) else [];
      Records(m, window) == Records(m, news) && MaxOf(m, window) == MaxOf(m, news)
  {
    hide MaxOf, Records, LastReceipts;
    var window := AckIds(LastReceipts(Receipts(arrivals[..n])));
    var news := if n > mark then ArrivalIds(arrivals[mark..n]) else [];
    var stale := window[..64 - |news|];
    BelowMax(b, ArrivalIds(arrivals[..mark]));
    forall i | 0 <= i < 64
      ensures window[i] == if n + i < 64 then 0 else arrivals[n + i - 64].id
    {
      WindowAt(arrivals, n, i);
    }
    forall i | 0 <= i < |stale|
      ensures stale[i] <= m
    {
      if n + i >= 64 {
        assert ArrivalIds(arrivals[..mark])[n + i - 64] == stale[i];
      }
    }
    forall i | 64 - |news| <= i < 64
      ensures window[i] == news[i - (64 - |news|)]
    {
      assert arrivals[mark..n][i - (64 - |news|)] == arrivals[n + i - 64];
    }
    assert window == stale + news;
    RecordsConcat(m, stale, news);
    NothingNew(m, stale);
    NothingNew(m, []);
  }

  lemma WindowAt(arrivals: seq<Arrival>, n: nat, i: nat)
    requires n <= |arrivals| && i < 64
    ensures AckIds(LastReceipts(Receipts(arrivals[..n])))[i] == if n + i < 64 then 0 else arrivals[n + i - 64].id
  {
    var r := Receipts(arrivals[..n]);
    assert LastReceipts(r)[i] == if |r| + i < 64 then EMPTY else r[|r| + i - 64];
  }

  lemma DeliverCatchesUp(x: Node, y: Node, q: Sent, now: uint64)
    requires AcksHonest(y) && q in y.out && CaughtUp(x, y)
    requires DeliverStep(x, q, now).inReach
    ensures CaughtUp(DeliverStep(x, q, now), y)
  {
    hide MaxOf, Records, RingRead, Result, LastReceipts;
    assert HonestAcks(q, y.arrivals);
    var x' := DeliverStep(x, q, now);
    var known := ArrivalIds(y.arrivals[..x.mark]);
    var m := MaxOf(x.before, known);
    var read := AckIds(RingRead(Seen(q).data, q.p.h.firstAck));
    RecordsConcat(x.before, x.heard, read);
    if q.p.h.kind == Ack {
      WindowAdds(x.before, m, y.arrivals, x.mark, q.seen);
      if q.seen > x.mark {
        var news := ArrivalIds(y.arrivals[x.mark..q.seen]);
        assert ArrivalIds(y.arrivals[..q.seen]) == known + news;
        RecordsConcat(x.before, known, news);
      } else {
        NothingNew(m, []);
      }
    } else {
      ClearedRing(q.p.h.firstAck);
      assert Receipts(y.arrivals[..0]) == [];
      WindowAdds(x.before, m, y.arrivals, x.mark, 0);
      NothingNew(m, []);
    }
  }

  lemma StaysCaughtUp(x: Node, y: Node, x2: Node, y2: Node)
    requires CaughtUp(x, y) && x2.mark == x.mark && x2.heard == x.heard && x2.before == x.before
    requires |y.arrivals| <= |y2.arrivals| && y2.arrivals[..|y.arrivals|] == y.arrivals
    ensures CaughtUp(x2, y2)
  {
    hide MaxOf, Records;
    assert y2.arrivals[..x.mark] == y.arrivals[..x.mark];
  }

  /** While nothing delivered skipped more than 64 receipts, an end is caught up. */
  ghost predicate Redundant(w: World) {
    && (w.client.inReach ==> CaughtUp(w.client, w.server))
    && (w.server.inReach ==> CaughtUp(w.server, w.client))
  }

  lemma StepCatchesUp(w: World, e: Event, p: int32)
    requires Inv(w, p) && Enabled(w, e) && Redundant(w)
    ensures Redundant(Step(w, e))
  {
    hide OnSchedule, RingHonest, Learnt, CaughtUp, Result;
    var w2 := Step(w, e);
    match e
    case Transmit(_) =>
      if w.client.inReach { StaysCaughtUp(w.client, w.server, w2.client, w2.server); }
      if w.server.inReach { StaysCaughtUp(w.server, w.client, w2.server, w2.client); }
    case Deliver(toServer, k, now) =>
      if toServer {
        if w2.server.inReach { DeliverCatchesUp(w.server, w.client, w.client.out[k], now); }
        if w.client.inReach { StaysCaughtUp(w.client, w.server, w2.client, w2.server); }
      } else {
        if w2.client.inReach { DeliverCatchesUp(w.client, w.server, w.server.out[k], now); }
        if w.server.inReach { StaysCaughtUp(w.server, w.client, w2.server, w2.client); }
      }
  }

  lemma FreshCaughtUp(w: World)
    requires Fresh(w)
    ensures Redundant(w)
  {
    assert ArrivalIds(w.server.arrivals[..0]) == [] == ArrivalIds(w.client.arrivals[..0]);
  }

  lemma {:induction false} RunCatchesUp(w0: World, es: seq<Event>)
    requires Fresh(w0) && ValidRun(w0, es)
    ensures Redundant(Run(w0, es))
    decreases |es|
  {
    hide Inv, Redundant, Step, Enabled, Fresh;
    if es == [] {
      FreshCaughtUp(w0);
    } else {
      var k := |es| - 1;
      RunCatchesUp(w0, es[..k]);
      RunKeeps(w0, es[..k]);
      StepCatchesUp(Run(w0, es[..k]), es[k], w0.client.s.usecPerPkt);
    }
  }

  /** Ack redundancy, end to end: as long as no packet an end receives is more than 64
      receipts ahead of the best it has seen, it counts what it would count by reading its
      peer's whole receipt log up to that best; if the peer received in id order, above what the end
      counted before, that is every id it received, once, in order. */
  lemma {:induction false} NoAckIsMissed(w0: World, es: seq<Event>)
    requires Fresh(w0) && Resumes(w0) && ValidRun(w0, es) && Short(Run(w0, es))
    ensures var w := Run(w0, es);
      && (w.client.inReach ==> CountedInFull(w.client, w.server))
      && (w.server.inReach ==> CountedInFull(w.server, w.client))
  {
    hide OnSchedule, AcksHonest, RingHonest, Learnt, CaughtUp, Filtered, CountedInFull;
    RunFilter(w0, es);
    RunCatchesUp(w0, es);
    var w := Run(w0, es);
    if w.client.inReach { InOrder(w.client, w.server); }
    if w.server.inReach { InOrder(w.server, w.client); }
  }

  ghost predicate CountedInFull(x: Node, y: Node) {
    && x.mark <= |y.arrivals|
    && var log := ArrivalIds(y.arrivals[..x.mark]);
       && x.counted == Records(x.before, log)
       && (Increasing(log) && (forall i :: 0 <= i < |log| ==> log[i] > x.before) ==> x.counted == log)
  }

  lemma InOrder(x: Node, y: Node)
    requires Filtered(x, y) && CaughtUp(x, y) && Numbered(y, x) && |x.out| < ID_LIMIT
    ensures CountedInFull(x, y)
  {
    hide MaxOf, Records;
    var log := ArrivalIds(y.arrivals[..x.mark]);
    if Increasing(log) && (forall i :: 0 <= i < |log| ==> log[i] > x.before) { IncreasingRecords(x.before, log); }
  }
}
