/** Two ends exchanging packets, once on machine words and once over true integers: what the
    packets of the one carry is what those of the other say. */
module UnboundedPair {
  import opened Words
  import opened Wire
  import opened Engine
  import opened Unbounded

  /** A packet and what it would say without a word size. */
  datatype Parcel = Parcel(p: Packet, k: TruePacket)

  /** One end twice: the machine's session and the true one, with its log of receipts, and what
      either has sent and shown. */
  datatype End = End(s: Sess, t: TrueSess, log: seq<TrueAck>, out: seq<Parcel>,
                     shown: seq<Outcome>, trueShown: seq<TrueOutcome>)

  datatype World = World(client: End, server: End)

  datatype Event = Transmit(fromServer: bool) | Deliver(toServer: bool, i: nat, now: uint64)

  function LastTrueAcks(log: seq<TrueAck>): (r: seq<TrueAck>)
    ensures |r| == 64
  {
    seq(64, i requires 0 <= i < 64 => if |log| + i < 64 then TrueAck(0, 0) else log[|log| + i - 64])
  }

  function TrueReport(t: TrueSess): Report {
    if t.nextRxId == 0 then Unknown else Known(t.origin - t.remoteOrigin)
  }

  function TrueWired(t: TrueSess, log: seq<TrueAck>): TruePacket {
    TruePacket(t.nextTxId, t.nextSend, TrueReport(t), LastTrueAcks(log))
  }

  function TransmitStep(x: End): End {
    var prepared := PrepareTx(x.s);
    x.(s := SendTx(prepared, true), t := TrueSend(x.t),
       out := x.out + [Parcel(Wired(prepared), TrueWired(x.t, x.log))])
  }

  function DeliverStep(x: End, q: Parcel, now: uint64): End {
    var m, o := Receive(x.s, q.p, now), TrueReceive(x.t, q.k, now);
    x.(s := m.0, t := o.0, log := x.log + [TrueAck(q.k.id, now)],
       shown := x.shown + [m.1], trueShown := x.trueShown + [o.1])
  }

  /** The network loses, duplicates and reorders. Of the true run alone: no delay, round trip or gap
      between ids reaches 2^31, ids do not run out, and no packet is sent while its sender's
      remote origin or clock difference is 0 modulo 2^32, the wire's mark for "unknown". The two
      clocks may be any distance apart. */
  predicate Enabled(w: World, e: Event) {
    match e
    case Transmit(fromServer) => Sendable((if fromServer then w.server else w.client).t)
    case Deliver(toServer, i, now) =>
      if toServer then i < |w.client.out| && FitsAll(w.server.t, w.client.out[i].k, now)
      else i < |w.server.out| && FitsAll(w.client.t, w.server.out[i].k, now)
  }

  predicate Sendable(t: TrueSess) {
    && t.nextTxId < 0xffff_ffff
    && (t.nextRxId != 0 ==> U32(t.remoteOrigin) != 0 && U32(t.origin - t.remoteOrigin) != 0)
  }

  function Step(w: World, e: Event): World
    requires Enabled(w, e)
  {
    match e
    case Transmit(fromServer) =>
      if fromServer then w.(server := TransmitStep(w.server)) else w.(client := TransmitStep(w.client))
    case Deliver(toServer, i, now) =>
      if toServer then w.(server := DeliverStep(w.server, w.client.out[i], now))
      else w.(client := DeliverStep(w.client, w.server.out[i], now))
  }

  predicate ValidRun(w0: World, es: seq<Event>)
    decreases |es|, 0
  {
    es == [] ||
    var k := |es| - 1;
    ValidRun(w0, es[..k]) && Enabled(Run(w0, es[..k]), es[k])
  }

  function Run(w0: World, es: seq<Event>): World
    requires ValidRun(w0, es)
    decreases |es|, 1
  {
    if es == [] then w0 else Step(Run(w0, es[..|es| - 1]), es[|es| - 1])
  }

  /** Just established, at any rate the wire can carry, and any first time to send. */
  ghost predicate Fresh(x: End) {
    exists first: uint64, rate: uint32 ::
      && x.s == NewSess(first, rate).(state := Established)
      && x.t == TrueSess(S32(rate), 1, first, 0, 0, 0, 0, 0, 0, 0, NO_STATS, NO_STATS)
      && x.log == [] && x.out == [] && x.shown == [] && x.trueShown == []
  }

  // ---- what is kept ----

  function Filings(log: seq<TrueAck>): seq<AckSlot>
    requires forall i :: 0 <= i < |log| ==> log[i].id < 0x1_0000_0000
  {
    seq(|log|, i requires 0 <= i < |log| => AckSlot(log[i].id, U32(log[i].rxtime)))
  }

  ghost predicate Good(x: End) {
    && x.s.state == Established
    && Held(x.s, x.t)
    && (x.s.nextRxId == 0 ==> x.s.startRtxtime == 0)
    && (forall i :: 0 <= i < |x.log| ==> x.log[i].id < 0x1_0000_0000)
    && RingRead(x.s.txData, x.s.nextTxackIndex) == LastReceipts(Filings(x.log))
    && (forall i :: 0 <= i < |x.out| ==> Carried(x.out[i].p, x.out[i].k))
    && SameOutcomes(x.shown, x.trueShown)
  }

  lemma FreshGood(x: End)
    requires Fresh(x)
    ensures Good(x)
  {
    hide RingRead, LastReceipts, S32;
    ClearedRing(0);
    assert Filings(x.log) == [];
  }

  /** The reported difference, as the wire has it. */
  lemma ReportCarried(s: Sess, t: TrueSess)
    requires Held(s, t) && Sendable(t) && (s.nextRxId == 0 ==> s.startRtxtime == 0)
    ensures PrepareTx(s).tx.clockdiff == if t.nextRxId == 0 then 0 else U32(t.origin - t.remoteOrigin)
  {
    hide U32, Cong;
    if t.nextRxId != 0 {
      U32Cong(t.remoteOrigin);
      U32Cong(s.startRxtime - s.startRtxtime);
      U32Cong(t.origin - t.remoteOrigin);
      var k0 := Quotient(s.startRxtime, t.origin);
      var k1 := Quotient(s.startRtxtime, t.remoteOrigin);
      var k2 := Quotient(U32(t.remoteOrigin), t.remoteOrigin);
      var k3 := Quotient(U32(s.startRxtime - s.startRtxtime), s.startRxtime - s.startRtxtime);
      var k4 := Quotient(U32(t.origin - t.remoteOrigin), t.origin - t.remoteOrigin);
      MultipleCong(s.startRtxtime, U32(t.remoteOrigin), k1 - k2);
      CongUint32(s.startRtxtime, U32(t.remoteOrigin));
      MultipleCong(U32(s.startRxtime - s.startRtxtime), U32(t.origin - t.remoteOrigin), k3 + k0 - k1 - k4);
      CongUint32(U32(s.startRxtime - s.startRtxtime), U32(t.origin - t.remoteOrigin));
    }
  }

  /** The time stamped, as the wire has it. */
  lemma TimeCarried(x: uint64, y: int)
    requires Cong(x, y)
    ensures U32(x) == U32(y)
  {
    hide U32, Cong;
    U32Cong(x);
    U32Cong(y);
    var k0 := Quotient(x, y);
    var k1 := Quotient(U32(x), x);
    var k2 := Quotient(U32(y), y);
    MultipleCong(U32(x), U32(y), k1 + k0 - k2);
    CongUint32(U32(x), U32(y));
  }

  lemma TransmitGood(x: End)
    requires Good(x) && Sendable(x.t)
    ensures Good(TransmitStep(x))
  {
    hide U32, U64, Cong, Held, RingRead, SameOutcomes, LastReceipts, HeldOrigin;
    var x2 := TransmitStep(x);
    SendRefines(x.s, x.t);
    assert x2.s == SendTx(PrepareTx(x.s), true);
    var q := x2.out[|x.out|];
    assert Carried(q.p, q.k) by { WiredCarried(x); }
    forall i | 0 <= i < |x2.out|
      ensures Carried(x2.out[i].p, x2.out[i].k)
    {
      if i < |x.out| { assert x2.out[i] == x.out[i]; }
    }
  }

  lemma WiredCarried(x: End)
    requires Good(x) && Sendable(x.t)
    ensures Carried(Wired(PrepareTx(x.s)), TrueWired(x.t, x.log))
  {
    hide U32, Cong, RingRead, SameOutcomes, HeldOrigin;
    ReportCarried(x.s, x.t);
    TimeCarried(x.s.nextSend, x.t.nextSend);
    var p, k := Wired(PrepareTx(x.s)), TrueWired(x.t, x.log);
    assert U32(0) == 0 by { SmallU32(0); }
    forall i | 0 <= i < 64
      ensures CarriedAck(RingRead(p.data, p.h.firstAck)[i], k.acks[i])
    {
      assert RingRead(p.data, p.h.firstAck)[i] == LastReceipts(Filings(x.log))[i];
    }
  }

  lemma DeliverGood(x: End, q: Parcel, now: uint64)
    requires Good(x) && Carried(q.p, q.k) && FitsAll(x.t, q.k, now)
    ensures Good(DeliverStep(x, q, now))
  {
    hide Receive, TrueReceive, Held, RingRead, LastReceipts, FitsAll, SameOutcome, U32;
    var x2 := DeliverStep(x, q, now);
    ReceiveRefines(x.s, q.p, x.t, q.k, now);
    ReceiveFrame(x.s, q.p, now);
    assert 0 < q.k.id && x2.t.nextRxId != 0 by { Met(x.t, q.k, now); }
    assert x2.s.nextRxId == x2.t.nextRxId by { HeldIds(x2.s, x2.t); }
    WriteRing(x.s.txData, x.s.nextTxackIndex, Filings(x.log), AckSlot(q.p.h.id, U32(now)));
    assert Filings(x2.log) == Filings(x.log) + [AckSlot(q.p.h.id, U32(now))];
  }

  lemma HeldIds(s: Sess, t: TrueSess)
    requires Held(s, t)
    ensures s.nextRxId == t.nextRxId
  {
    hide Cong;
  }

  lemma {:induction false} CountingKeepsNext(t: TrueSess, offset: int, acks: seq<TrueAck>)
    ensures CountTrueAcks(t, offset, acks).0.nextRxId == t.nextRxId
  {
    hide TrueTxDiff;
    if acks != [] { CountingKeepsNext(t, offset, acks[..|acks| - 1]); }
  }

  lemma Met(t: TrueSess, k: TruePacket, now: int)
    requires FitsAll(t, k, now)
    ensures k.id > 0 && TrueReceive(t, k, now).0.nextRxId != 0
  {
    hide FitsAcks, TrueRtt, TrueDelay, Quot, TrueOffset, CountTrueAcks;
    CountingKeepsNext(TrueFiled(t, k, now), TrueOffset(TrueAligned(t, k, now), k.report), k.acks);
  }

  lemma StepGood(w: World, e: Event)
    requires Good(w.client) && Good(w.server) && Enabled(w, e)
    ensures Good(Step(w, e).client) && Good(Step(w, e).server)
  {
    hide Held, Carried, RingRead, SameOutcomes, FitsAll, Sendable, TransmitStep, DeliverStep, Filings;
    match e
    case Transmit(fromServer) =>
      if fromServer { TransmitGood(w.server); } else { TransmitGood(w.client); }
    case Deliver(toServer, i, now) =>
      if toServer { DeliverGood(w.server, w.client.out[i], now); }
      else { DeliverGood(w.client, w.server.out[i], now); }
  }

  lemma {:induction false} RunGood(w0: World, es: seq<Event>)
    requires Fresh(w0.client) && Fresh(w0.server) && ValidRun(w0, es)
    ensures Good(Run(w0, es).client) && Good(Run(w0, es).server)
    decreases |es|
  {
    hide Good, Fresh, Step, Enabled;
    if es == [] {
      FreshGood(w0.client);
      FreshGood(w0.server);
    } else {
      var k := |es| - 1;
      RunGood(w0, es[..k]);
      StepGood(Run(w0, es[..k]), es[k]);
    }
  }

  ghost predicate Agrees(x: End) {
    SameOutcomes(x.shown, x.trueShown)
    && x.s.numLost == x.t.numLost && x.s.latTx == x.t.latTx && x.s.latRx == x.t.latRx
    && x.s.nextTxId == x.t.nextTxId && x.s.nextRxId == x.t.nextRxId
  }

  /** Two wrapping machines show, packet by packet, what two true ones exchanging unbounded numbers
      show, and end with the same counts and statistics, whatever the network does. */
  lemma {:induction false} PairRefines(w0: World, es: seq<Event>)
    requires Fresh(w0.client) && Fresh(w0.server) && ValidRun(w0, es)
    ensures Agrees(Run(w0, es).client) && Agrees(Run(w0, es).server)
  {
    hide Fresh, Run, ValidRun, RingRead, Carried, SameOutcomes, Cong;
    RunGood(w0, es);
  }

  // ---- what the difference of the clocks has to do with it: nothing ----

  ghost predicate Blank(x: End) {
    && (x.log != [] ==> x.t.nextRxId != 0)
    && forall i :: 0 <= i < |x.out| ==> x.out[i].k.report == Unknown ==> !Measures(x.out[i].k)
  }

  lemma StepBlank(w: World, e: Event)
    requires Blank(w.client) && Blank(w.server) && Enabled(w, e)
    ensures Blank(Step(w, e).client) && Blank(Step(w, e).server)
  {
    hide FitsAll, Receive, TrueReceive, PrepareTx, SendTx, Measures, LastTrueAcks;
    match e
    case Transmit(fromServer) =>
      var x := if fromServer then w.server else w.client;
      if x.t.nextRxId == 0 { NothingToAck(TrueWired(x.t, x.log)); }
    case Deliver(toServer, i, now) =>
      if toServer { Met(w.server.t, w.client.out[i].k, now); } else { Met(w.client.t, w.server.out[i].k, now); }
  }

  lemma NothingToAck(k: TruePacket)
    requires k.report == Unknown && k.acks == LastTrueAcks([])
    ensures !Measures(k)
  {
  }

  /** A packet from an end that has heard nothing acks nothing, so no round trip is asked to fit. */
  lemma {:induction false} UnknownMeasuresNothing(w0: World, es: seq<Event>)
    requires Fresh(w0.client) && Fresh(w0.server) && ValidRun(w0, es)
    ensures Blank(Run(w0, es).client) && Blank(Run(w0, es).server)
    decreases |es|
  {
    hide Step, Enabled, Blank, Fresh;
    if es == [] {
      assert Blank(w0.client) && Blank(w0.server) by { FreshBlank(w0.client); FreshBlank(w0.server); }
    } else {
      var k := |es| - 1;
      UnknownMeasuresNothing(w0, es[..k]);
      StepBlank(Run(w0, es[..k]), es[k]);
    }
  }

  lemma FreshBlank(x: End)
    requires Fresh(x)
    ensures Blank(x)
  {
    hide S32;
  }

  lemma NextStep(w0: World, es: seq<Event>, e: Event)
    requires ValidRun(w0, es) && Enabled(Run(w0, es), e)
    ensures ValidRun(w0, es + [e]) && Run(w0, es + [e]) == Step(Run(w0, es), e)
  {
    hide Step, Enabled;
    assert (es + [e])[..|es|] == es;
  }

  /** The first packet an end receives always fits, whatever its clock shows. */
  lemma FirstFits(t: TrueSess, k: TruePacket, now: int)
    requires t.nextRxId == 0 && t.numLost == 0 && k.id == 1
    requires Measures(k) ==> Fits(TrueRtt(Meet(t, k, now), k.report)) && k.report.Known?
    ensures FitsHeader(t, k, now)
    ensures TrueAligned(t, k, now) == Meet(t, k, now).(nextRxId := 2)
    ensures TrueFiled(t, k, now).nextRxackId == t.nextRxackId
    ensures TrueFiled(t, k, now).nextSend == t.nextSend
    ensures TrueFiled(t, k, now).nextTxId == t.nextTxId && TrueFiled(t, k, now).period == t.period
  {
    var t1 := TrueAligned(t, k, now);
    assert TrueDelay(Meet(t, k, now), k.id, now) == 0;
    assert TrueRtt(t1, k.report) == TrueRtt(Meet(t, k, now), k.report);
  }

  lemma {:induction false} EmptyFit(t: TrueSess, offset: int, acks: seq<TrueAck>)
    requires forall i :: 0 <= i < |acks| ==> acks[i].id == 0
    ensures FitsAcks(t, offset, acks)
  {
    if acks != [] { EmptyFit(t, offset, acks[..|acks| - 1]); }
  }

  /** One ack of packet 1 in a packet. */
  lemma LastFits(t: TrueSess, offset: int, rxtime: int)
    requires t.nextRxackId == 0 && Fits(TrueTxDiff(t, offset, TrueAck(1, rxtime)))
    ensures FitsAcks(t, offset, LastTrueAcks([TrueAck(1, rxtime)]))
  {
    hide TrueTxDiff;
    var acks := LastTrueAcks([TrueAck(1, rxtime)]);
    EmptyFit(t, offset, acks[..63]);
    NoTrueAcks(t, offset, acks[..63]);
  }

  lemma HalfFits(x: int)
    requires Fits(x)
    ensures Fits(Quot(x, 2)) && Fits(x - Quot(x, 2))
  {
  }

  /** A packet there at `there` and one back at `back`, each on its own receiver's clock. */
  function OneEachWay(there: uint64, back: uint64): seq<Event> {
    [Transmit(false)] + [Deliver(true, 0, there)] + [Transmit(true)] + [Deliver(false, 0, back)]
  }

  /** What the first packet leaves, if it reports and acks nothing. */
  lemma FirstReceived(t: TrueSess, k: TruePacket, now: int)
    requires t.nextRxId == 0 && t.numLost == 0 && k.id == 1 && !Measures(k)
    ensures FitsAll(t, k, now)
    ensures var u := TrueReceive(t, k, now).0;
      && u.nextRxId == 2 && u.origin == now - t.period && u.remoteOrigin == k.txtime - t.period
      && u.nextSend == t.nextSend && u.nextTxId == t.nextTxId
  {
    hide FitsHeader, FitsAcks, CountTrueAcks, TrueRtt, Quot;
    FirstFits(t, k, now);
    var offset := TrueOffset(TrueAligned(t, k, now), k.report);
    EmptyFit(TrueFiled(t, k, now), offset, k.acks);
    NoTrueAcks(TrueFiled(t, k, now), offset, k.acks);
  }

  /** And the answer, which reports a clock difference and acks the first packet sent. */
  lemma AnswerReceived(t: TrueSess, k: TruePacket, sent: int, there: int, now: int)
    requires t.nextRxId == 0 && t.numLost == 0 && t.nextRxackId == 0
    requires t.nextTxId == 2 && t.nextSend == sent + t.period
    requires k == TruePacket(1, k.txtime, Known(there - sent), LastTrueAcks([TrueAck(1, there)]))
    requires Fits((there - sent) + (now - k.txtime))
    ensures FitsAll(t, k, now)
    ensures TrueReceive(t, k, now).1.measured && TrueReceive(t, k, now).1.rtt == (there - sent) + (now - k.txtime)
  {
    hide FitsHeader, FitsAcks, CountTrueAcks, Quot, TrueAligned, TrueFiled;
    FirstFits(t, k, now);
    var trip := (there - sent) + (now - k.txtime);
    var u := TrueAligned(t, k, now);
    assert TrueRtt(u, k.report) == trip;
    HalfFits(trip);
    LastFits(TrueFiled(t, k, now), TrueOffset(u, k.report), there);
  }

  /** Two ends with any two clocks: the first packet each way is a run the theorem speaks of, as
      long as the true round trip fits and the server's figures are not the wire's mark; and the
      round trip shown is the true one. */
  lemma {:induction false} AnyClocks(w0: World, there: uint64, back: uint64)
    requires Fresh(w0.client) && Fresh(w0.server)
    requires var sent, answered := w0.client.t.nextSend, w0.server.t.nextSend;
      && Fits((there - sent) + (back - answered))
      && U32(sent - w0.server.t.period) != 0 && U32(there - sent) != 0
    ensures ValidRun(w0, OneEachWay(there, back))
    ensures var x := Run(w0, OneEachWay(there, back)).client;
      |x.shown| == 1 && x.shown[0].rtt == (there - w0.client.t.nextSend) + (back - w0.server.t.nextSend)
  {
    hide ValidRun, Run, Fresh, Receive, PrepareTx, SendTx, FitsAll, TrueReceive, U32, LastTrueAcks, Measures, SameSamples,
      Cong;
    var sent, answered := w0.client.t.nextSend, w0.server.t.nextSend;
    FreshTrue(w0.client);
    FreshTrue(w0.server);
    assert ValidRun(w0, []) && Run(w0, []) == w0 by { EmptyRun(w0); }
    NextStep(w0, [], Transmit(false));
    var e1 := [] + [Transmit(false)];
    var k1 := Run(w0, e1).client.out[0].k;
    assert k1 == TruePacket(1, sent, Unknown, LastTrueAcks([]));
    NothingToAck(k1);
    FirstReceived(w0.server.t, k1, there);
    NextStep(w0, e1, Deliver(true, 0, there));
    var e2 := e1 + [Deliver(true, 0, there)];
    var y := Run(w0, e2).server;
    assert y.t.origin - y.t.remoteOrigin == there - sent;
    assert y.log == [TrueAck(1, there)];
    NextStep(w0, e2, Transmit(true));
    var e3 := e2 + [Transmit(true)];
    var k2 := Run(w0, e3).server.out[0].k;
    assert k2 == TruePacket(1, answered, Known(there - sent), LastTrueAcks([TrueAck(1, there)]));
    AnswerReceived(Run(w0, e3).client.t, k2, sent, there, back);
    NextStep(w0, e3, Deliver(false, 0, back));
    assert e3 + [Deliver(false, 0, back)] == OneEachWay(there, back);
    PairRefines(w0, OneEachWay(there, back));
  }

  lemma EmptyRun(w0: World)
    ensures ValidRun(w0, []) && Run(w0, []) == w0
  {
  }

  lemma FreshTrue(x: End)
    requires Fresh(x)
    ensures x.out == [] && x.log == [] && x.shown == [] && x.trueShown == []
    ensures x.t == TrueSess(x.t.period, 1, x.t.nextSend, 0, 0, 0, 0, 0, 0, 0, NO_STATS, NO_STATS)
  {
    hide S32;
  }
}
