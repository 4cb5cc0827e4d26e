/** What read_incoming_packet and send_waiting_packets do to a session is what the two ends of
    TwoParty do, so that what is proved of their runs is proved of the program's sessions. */
module Dispatch {
  import opened Words
  import opened Wire
  import opened Engine
  import opened Measure
  import opened Scheduler
  import opened Handshake
  import TwoParty
  import AckFilter
  import Deviation
  import Origin

  /** Node x is the server's end of its session for address a. */
  ghost predicate Stands(x: TwoParty.Node, srv: Server, a: Addr) {
    && x.isServer
    && (TwoParty.Live(x) <==> a in srv.sessions)
    && (a in srv.sessions ==> srv.sessions[a] == x.s)
  }

  /** The server's dispatch: an ack packet for a session, or a handshake with a good cookie, leaves the
      session that DeliverStep leaves, sends no reply and touches no other session. */
  lemma {:induction false} ServerDelivers(x: TwoParty.Node, srv: Server, md: Digest, minUsec: uint32,
                                          q: TwoParty.Sent, a: Addr, now: uint64)
    requires Stands(x, srv, a)
    requires if q.p.h.kind == PacketType.Ack then a in srv.sessions else Presents(srv, md, q.p, a)
    ensures var r, x2 := ServerReceive(srv, md, minUsec, q.p, a, now), TwoParty.DeliverStep(x, q, now);
      && r == (srv.(sessions := srv.sessions[a := x2.s]), None)
      && Stands(x2, r.0, a)
  {
    hide Receive, Accepts, EpochOf, CookieOf, Reply, U64, RingRead;
    var x2 := TwoParty.DeliverStep(x, q, now);
    var s := TwoParty.Before(x, q, now);
    ReceiveFrame(s, TwoParty.Seen(q), now);
    if q.p.h.kind == PacketType.Handshake {
      assert FindOrOpen(srv.sessions, a, q.p.h.usecPerPkt, now).(state := Established) == s;
    }
  }

  /** The client's dispatch of an ack packet. */
  lemma {:induction false} ClientDelivers(x: TwoParty.Node, q: TwoParty.Sent, now: uint64)
    requires !x.isServer && q.p.h.kind == PacketType.Ack
    ensures ClientReceive(x.s, q.p, now) == TwoParty.DeliverStep(x, q, now).s
  {
    hide Receive, RingRead;
  }

  /** Of a server's cookie: it begins a run of TwoParty, whatever the client has been through. */
  lemma {:induction false} ClientBegins(s: Sess, reply: Packet, now: uint64, counted: nat)
    requires reply.h.kind == PacketType.Handshake
    ensures TwoParty.FreshClient(TwoParty.Node(ClientReceive(s, reply, now), false,
      now - S32(reply.h.usecPerPkt), [], [], [], [], 0, true, [], counted))
  {
    hide WithCookie, S32;
  }

  /** And what either end sends is what it sends there. */
  lemma {:induction false} Transmits(x: TwoParty.Node, a: Addr)
    ensures TwoParty.TransmitStep(x).s == AfterOne(x.s, x.isServer)
    ensures var q := TwoParty.TransmitStep(x).out[|x.out|];
      q.p == Wired(PrepareTx(x.s)) && q.due == x.s.nextSend
  {
    hide PrepareTx, SendTx;
  }

  /** An ack packet for a session the server has: its acks are read, the new ones counted and averaged,
      and the session is heard from now. */
  lemma {:induction false} ServerCounts(srv: Server, md: Digest, minUsec: uint32, rx: Packet, a: Addr, now: uint64, m: nat)
    requires rx.h.kind == PacketType.Ack && a in srv.sessions
    requires srv.sessions[a].nextRxackId == AckFilter.Expecting(m) && m < AckFilter.ID_LIMIT
    requires forall i :: 0 <= i < 64 ==> RingRead(rx.data, rx.h.firstAck)[i].id < AckFilter.ID_LIMIT
    ensures var s, t := srv.sessions[a], ServerReceive(srv, md, minUsec, rx, a, now).0.sessions[a];
      var ids := AckFilter.AckIdsOf(rx);
      && t.nextRxackId == AckFilter.Expecting(AckFilter.MaxOf(m, ids))
      && t.latTx.count == s.latTx.count + |AckFilter.Records(m, ids)|
      && t.lastRxtime == U32(now)
  {
    hide Receive, RingRead, AckFilter.Records, AckFilter.MaxOf, U32, Deviation.Fold;
    var s := srv.sessions[a];
    ReceiveFrame(s, rx, now);
    AckFilter.ReceiveCounts(s, rx, now, m);
    Deviation.ReceiveFold(s, rx, now);
    FoldCounts(s.latTx, Deviation.ShownTx(Receive(s, rx, now).1.samples));
  }

  lemma {:induction false} FoldCounts(st: Stats, xs: seq<int>)
    ensures Deviation.Fold(st, xs).count == st.count + |xs|
  {
    if xs != [] { FoldCounts(st, xs[..|xs| - 1]); }
  }

  // ---- a session that begins ----

  /** A new session: it has sent, received, counted and lost nothing, and says so; its first packet is a
      greeting with number 1 at the time given. */
  lemma {:induction false} Begins(first: uint64, rate: uint32)
    ensures var s := NewSess(first, rate);
      var p := Wired(PrepareTx(s));
      && s.state == NewSession && s.nextRxId == 0 && s.nextRxackId == 0 && s.retryCount == 0
      && s.nextSend == first && Cong(s.usecPerPkt, rate)
      && Deviation.StatsOf(s.latTx, []) && Deviation.StatsOf(s.latRx, [])
      && p.h == Header(1, U32(first), 0, U32(s.usecPerPkt), 0, PacketType.Handshake, 0)
      && p.data == ZeroPayload()
  {
    hide S32, U32, Cong;
    S32Cong(rate);
  }

  /** The session a good cookie opens: the packet that carries it is on time and nothing is lost or
      acked with it, whatever its number; it answers 10 msec later. */
  lemma {:induction false} OpenedBy(srv: Server, md: Digest, minUsec: uint32, rx: Packet, a: Addr, now: uint64)
    requires Presents(srv, md, rx, a) && a !in srv.sessions
    ensures var after := ServerReceive(srv, md, minUsec, rx, a, now).0.sessions;
      && a in after
      && var t, p := after[a], S32(rx.h.usecPerPkt);
         && t.state == Established && t.usecPerPkt == p
         && t.nextTxId == 1 && t.nextSend == U64(now + 10_000) && t.lastRxtime == U32(now)
         && t.nextRxId == U32(rx.h.id + 1) && t.numLost == 0 && t.nextRxackId == 0 && t.latTx == NO_STATS
         && Cong(t.startRtxtime, rx.h.txtime - rx.h.id * p) && Cong(t.startRxtime, now - rx.h.id * p)
         && RingRead(t.txData, t.nextTxackIndex) == LastReceipts([AckSlot(rx.h.id, U32(now))])
  {
    hide Receive, Accepts, EpochOf, CookieOf, Reply, U32, U64, S32, Cong, RingRead, LastReceipts, WithSlot;
    var s := NewSess(U64(now + 10_000), rx.h.usecPerPkt).(state := Established);
    var first := AsFirstAck(rx);
    ReceiveFrame(s, first, now);
    FirstCalibrates(s, first, now);
    FirstLosesNothing(s, first, now);
    NothingAcked(s, rx, now);
    ClearedRing(0);
    WriteRing(s.txData, 0, [], AckSlot(rx.h.id, U32(now)));
    assert [] + [AckSlot(rx.h.id, U32(now))] == [AckSlot(rx.h.id, U32(now))];
  }

  lemma FirstLosesNothing(s: Sess, rx: Packet, now: uint64)
    requires s.nextRxId == 0
    ensures Receive(s, rx, now).0.numLost == s.numLost
  {
    hide Delay, U32, U64, WithSlot, LatRx, Rtt, ClockOffset, CountAcks, RingRead, SlotTime, Diff, CycleOver;
    DiffExact(rx.h.id, rx.h.id);
    CountAcksFrame(Filed(s, rx.h, now), ClockOffset(Aligned(s, rx.h, now), rx.h), RingRead(rx.data, rx.h.firstAck));
  }

  lemma NothingAcked(s: Sess, rx: Packet, now: uint64)
    requires s.nextRxackId == 0
    ensures var r := Receive(s, AsFirstAck(rx), now); r.0.nextRxackId == 0 && r.0.latTx == s.latTx
  {
    hide Receive, RingRead, AckFilter.Records, AckFilter.MaxOf;
    var ids := TwoParty.AckIds(RingRead(ZeroPayload(), rx.h.firstAck));
    ClearedRing(rx.h.firstAck);
    AckFilter.ReceiveCounts(s, AsFirstAck(rx), now, 0);
    AckFilter.NothingNew(0, ids);
    Deviation.ReceiveFold(s, AsFirstAck(rx), now);
    assert Deviation.ShownTx(Receive(s, AsFirstAck(rx), now).1.samples) == [];
  }

  // ---- a client that negotiates again ----

  /** What adopting a cookie starts anew and what it keeps: ids, rate, schedule and the handshake
      are new; the ack filter, the loss count, the place in the ring and the statistics go on. */
  lemma {:induction false} AdoptionLeaves(s: Sess, reply: Packet, now: uint64)
    ensures var t := AdoptCookie(s, reply, now);
      && t.state == CookieGenerated && t.nextTxId == 1 && t.nextRxId == 0 && t.nextSend == now
      && Cong(t.usecPerPkt, reply.h.usecPerPkt) && t.tx == s.tx.(kind := PacketType.Handshake)
      && EpochOf(t.txData) == EpochOf(reply.data) && CookieOf(t.txData) == CookieOf(reply.data)
      && t.txData[0] == s.txData[0] && t.txData[10..] == s.txData[10..]
      && t == s.(state := t.state, nextTxId := t.nextTxId, nextRxId := t.nextRxId, nextSend := t.nextSend,
                 usecPerPkt := t.usecPerPkt, tx := t.tx, txData := t.txData)
  {
    hide S32, WithCookie, EpochOf, CookieOf, Cong;
    S32Cong(reply.h.usecPerPkt);
  }

  /** The first ack packet after that confirms it, once: the handshake's words are cleared for acks, and
      nothing else changes before the packet is dealt with. */
  lemma {:induction false} EstablishmentLeaves(s: Sess, i: nat)
    requires i < 128
    ensures var t := Establish(s);
      && t.state == (if s.state == CookieGenerated then Established else s.state)
      && t.txData[i] == (if s.state == CookieGenerated then 0 else s.txData[i])
      && t == s.(state := t.state, txData := t.txData)
  {
  }

  /** The first ack packet of the new negotiation, after any number of packets of its own, calibrates
      the client afresh, whatever it believed before: that packet is on time, the remote origin is
      the one it implies, and the next one expected follows it. */
  lemma {:induction false} Recalibrates(s: Sess, reply: Packet, t: uint64, n: nat, rx: Packet, now: uint64)
    ensures var c := SentTimes(AdoptCookie(s, reply, t), false, n);
      var r, p := Receive(Establish(c), rx, now), S32(reply.h.usecPerPkt);
      && r.1.rxdiff == 0
      && Cong(r.0.startRtxtime, rx.h.txtime - rx.h.id * p)
      && Cong(r.0.startRxtime, now - rx.h.id * p)
      && r.0.nextRxId == U32(rx.h.id + 1)
  {
    hide Receive, Calibrate, CountLoss, S32, U32, U64, WithCookie, Cong, RingRead, Delay, SlotTime, AdoptCookie, Aligned, CycleOver;
    var c := SentTimes(AdoptCookie(s, reply, t), false, n);
    AdoptedThenSent(s, reply, t, n);
    var e := Establish(c);
    FirstCalibrates(e, rx, now);
  }

  lemma {:induction false} AdoptedThenSent(s: Sess, reply: Packet, t: uint64, n: nat)
    ensures var c := SentTimes(AdoptCookie(s, reply, t), false, n);
      c.state == CookieGenerated && c.nextRxId == 0 && c.usecPerPkt == S32(reply.h.usecPerPkt)
  {
    hide S32, U32, U64, WithCookie;
    if n > 0 { AdoptedThenSent(s, reply, t, n - 1); }
  }

  lemma FirstCalibrates(s: Sess, rx: Packet, now: uint64)
    requires s.nextRxId == 0
    ensures var r := Receive(s, rx, now);
      && r.1.rxdiff == 0
      && Cong(r.0.startRtxtime, rx.h.txtime - rx.h.id * s.usecPerPkt)
      && Cong(r.0.startRxtime, now - rx.h.id * s.usecPerPkt)
      && r.0.nextRxId == U32(rx.h.id + 1)
  {
    hide Receive, U32, U64, Cong, RingRead, Delay, SlotTime, Aligned, CountLoss, CycleOver, Diff, LatRx, Rtt;
    var c := Aligned(s, rx.h, now);
    Origin.CorrectedDelay(s, rx.h, now);
    Origin.ReceivedOrigin(s, rx, now);
    RemoteOrigin(s, rx, now);
    CalibratedTo(s, rx.h, now);
    NextExpected(s, rx, now);
  }

  lemma CalibratedTo(s: Sess, h: Header, now: uint64)
    requires s.nextRxId == 0
    ensures Cong(Calibrate(s, h, now).startRtxtime, h.txtime - h.id * s.usecPerPkt)
  {
    hide U32, U64, Cong, SlotTime;
    SlotTimeCong(h.id, s.usecPerPkt);
    U32Cong(h.txtime - SlotTime(h.id, s.usecPerPkt));
    var k0 := Quotient(U32(h.txtime - SlotTime(h.id, s.usecPerPkt)), h.txtime - SlotTime(h.id, s.usecPerPkt));
    var k1 := Quotient(SlotTime(h.id, s.usecPerPkt), h.id * s.usecPerPkt);
    MultipleCong(U32(h.txtime - SlotTime(h.id, s.usecPerPkt)), h.txtime - h.id * s.usecPerPkt, k0 - k1);
  }

  lemma NextExpected(s: Sess, rx: Packet, now: uint64)
    requires s.nextRxId == 0
    ensures Receive(s, rx, now).0.nextRxId == U32(rx.h.id + 1)
  {
    hide Delay, U32, U64, WithSlot, LatRx, Rtt, ClockOffset, CountAcks, RingRead, SlotTime, Diff, CycleOver;
    DiffExact(rx.h.id, rx.h.id);
    CountAcksFrame(Filed(s, rx.h, now), ClockOffset(Aligned(s, rx.h, now), rx.h), RingRead(rx.data, rx.h.firstAck));
  }

  // ---- the statistics of a run are those of its figures ----

  function RxOf(shown: seq<TwoParty.Figures>): seq<int> {
    if shown == [] then []
    else
      var f := shown[|shown| - 1];
      RxOf(shown[..|shown| - 1]) + Deviation.ShownRx(f.q.p.h, f.out)
  }

  function TxOf(shown: seq<TwoParty.Figures>): seq<int> {
    if shown == [] then []
    else TxOf(shown[..|shown| - 1]) + Deviation.ShownTx(shown[|shown| - 1].out.samples)
  }

  ghost predicate Averages(x: TwoParty.Node, rx: Stats, tx: Stats) {
    && (TwoParty.Live(x) ==>
          x.s.latRx == Deviation.Fold(rx, RxOf(x.shown)) && x.s.latTx == Deviation.Fold(tx, TxOf(x.shown)))
    && (!TwoParty.Live(x) ==> x.shown == [] && rx == NO_STATS && tx == NO_STATS)
  }

  lemma DeliverAverages(x: TwoParty.Node, q: TwoParty.Sent, now: uint64, rx: Stats, tx: Stats)
    requires Averages(x, rx, tx) && (TwoParty.Live(x) || TwoParty.Opens(x, q))
    requires !x.isServer ==> q.p.h.kind == PacketType.Ack
    ensures Averages(TwoParty.DeliverStep(x, q, now), rx, tx)
  {
    hide Receive, RingRead, Deviation.Fold, Deviation.ShownRx, Deviation.ShownTx, U64, S32;
    var s, p, x2 := TwoParty.Before(x, q, now), TwoParty.Seen(q), TwoParty.DeliverStep(x, q, now);
    var out := TwoParty.Result(x, q, now).1;
    ReceiveFrame(s, p, now);
    Deviation.ReceiveFold(s, p, now);
    assert x2.shown[..|x.shown|] == x.shown;
    SameShown(p.h, q.p.h, out);
    assert s.latRx == Deviation.Fold(rx, RxOf(x.shown)) && s.latTx == Deviation.Fold(tx, TxOf(x.shown)) by {
      NothingFolded(rx);
      NothingFolded(tx);
    }
    Deviation.FoldConcat(rx, RxOf(x.shown), Deviation.ShownRx(q.p.h, out));
    Deviation.FoldConcat(tx, TxOf(x.shown), Deviation.ShownTx(out.samples));
  }

  lemma NothingFolded(st: Stats)
    ensures Deviation.Fold(st, []) == st && RxOf([]) == [] && TxOf([]) == []
  {
  }

  lemma SameShown(h: Header, g: Header, out: Outcome)
    requires h.clockdiff == g.clockdiff
    ensures Deviation.ShownRx(h, out) == Deviation.ShownRx(g, out)
  {
  }

  lemma StepAverages(w: TwoParty.World, e: TwoParty.Event, p: int32, rx: Stats, tx: Stats)
    requires TwoParty.Inv(w, p) && TwoParty.Enabled(w, e)
    requires Averages(w.client, rx, tx) && Averages(w.server, NO_STATS, NO_STATS)
    ensures Averages(TwoParty.Step(w, e).client, rx, tx) && Averages(TwoParty.Step(w, e).server, NO_STATS, NO_STATS)
  {
    hide TwoParty.OnSchedule, TwoParty.AcksHonest, TwoParty.RingHonest, TwoParty.Learnt, TwoParty.DeliverStep, U32, U64,
      RxOf, TxOf, Deviation.Fold;
    match e
    case Transmit(_) =>
    case Deliver(toServer, k, now) =>
      if toServer { DeliverAverages(w.server, w.client.out[k], now, NO_STATS, NO_STATS); }
      else { DeliverAverages(w.client, w.server.out[k], now, rx, tx); }
  }

  /** In every run of the two ends, the statistics of each have taken up the latencies it showed, one
      receive latency for each packet with a clock difference and one transmit latency for each
      ack counted, in order and nothing else; the server's from the opening of its session on, the
      client's on top of those it had. */
  lemma {:induction false} RunAverages(w0: TwoParty.World, es: seq<TwoParty.Event>)
    requires TwoParty.Fresh(w0) && TwoParty.ValidRun(w0, es)
    ensures Averages(TwoParty.Run(w0, es).client, w0.client.s.latRx, w0.client.s.latTx)
    ensures Averages(TwoParty.Run(w0, es).server, NO_STATS, NO_STATS)
    decreases |es|
  {
    hide TwoParty.Step, TwoParty.Enabled, TwoParty.Inv;
    if es == [] {
      hide WithCookie, S32;
      NothingFolded(w0.client.s.latRx);
      NothingFolded(w0.client.s.latTx);
    } else {
      hide TwoParty.Fresh, Averages;
      var k := |es| - 1;
      RunAverages(w0, es[..k]);
      TwoParty.RunKeeps(w0, es[..k]);
      StepAverages(TwoParty.Run(w0, es[..k]), es[k], w0.client.s.usecPerPkt, w0.client.s.latRx, w0.client.s.latTx);
    }
  }
}
