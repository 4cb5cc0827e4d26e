/** A client and a server between two handshakes, over a network that may lose,
    duplicate and reorder: the run-long invariant behind the latency figures. */
module TwoParty {
  import opened Words
  import opened Wire
  import opened Engine
  import opened Measure

  /** A packet that did arrive: its id, our clock then, and its sender's schedule for it. */
  datatype Arrival = Arrival(id: uint32, at: uint64, due: int)

  /** A packet that was sent, the 64-bit time it was scheduled for, and how many
      arrivals its sender had on file. */
  datatype Sent = Sent(p: Packet, due: int, seen: nat)

  /** One end: its session, and the ghost history the session only remembers in part. */
  datatype Node = Node(
    s: Sess,
    isServer: bool,
    origin: int,              // when packet 0 would have been due
    out: seq<Sent>,           // everything it ever sent; the network delivers any of it, any time
    arrivals: seq<Arrival>,   // everything it ever received, in order
    heard: seq<uint32>,       // every ack id it ever read, in order, empty slots as 0
    counted: seq<uint32>,     // the ids whose acks it counted, in order
    mark: nat,                // the longest ack history the peer has shown it
    inReach: bool,            // no packet received was more than 64 receipts past that mark
    shown: seq<Figures>,      // the figures of every packet it received
    before: nat)              // the largest id whose ack it counted in earlier negotiations

  /** What was measured when packet q arrived, and the origin it left. */
  datatype Figures = Figures(q: Sent, now: uint64, out: Outcome, origin: uint64)

  datatype World = World(client: Node, server: Node)

  datatype Event =
    | Transmit(fromServer: bool)
    | Deliver(toServer: bool, k: nat, now: uint64)

  // ---- steps ----

  predicate Live(x: Node) { x.s.state == CookieGenerated || x.s.state == Established }

  function TransmitStep(x: Node): Node {
    var prepared := PrepareTx(x.s);
    x.(s := SendTx(prepared, x.isServer),
       out := x.out + [Sent(Wired(prepared), x.s.nextSend, |x.arrivals|)])
  }

  /** The server opens its session when the first echoed cookie arrives. */
  predicate Opens(x: Node, q: Sent) { x.isServer && q.p.h.kind == Handshake && !Live(x) }

  /** The session as handle_ack_packet finds it. */
  function Before(x: Node, q: Sent, now: uint64): Sess {
    if x.isServer then
      if Opens(x, q) then NewSess(U64(now + 10_000), q.p.h.usecPerPkt).(state := Established)
      else if q.p.h.kind == Handshake then x.s.(state := Established)
      else x.s
    else Establish(x.s)
  }

  /** The packet as handle_ack_packet sees it. */
  function Seen(q: Sent): Packet {
    if q.p.h.kind == Handshake then AsFirstAck(q.p) else q.p
  }

  function Result(x: Node, q: Sent, now: uint64): (Sess, Outcome) {
    Receive(Before(x, q, now), Seen(q), now)
  }

  function Ids(samples: seq<Sample>): seq<uint32> {
    seq(|samples|, i requires 0 <= i < |samples| => samples[i].id)
  }

  function AckIds(acks: seq<AckSlot>): seq<uint32> {
    seq(|acks|, i requires 0 <= i < |acks| => acks[i].id)
  }

  function DeliverStep(x: Node, q: Sent, now: uint64): Node {
    var r := Result(x, q, now);
    x.(s := r.0,
       origin := if Opens(x, q)
                 then U64(now + 10_000) - r.0.usecPerPkt
                 else x.origin,
       arrivals := x.arrivals + [Arrival(q.p.h.id, now, q.due)],
       heard := x.heard + AckIds(RingRead(Seen(q).data, q.p.h.firstAck)),
       counted := x.counted + Ids(r.1.samples),
       mark := if q.p.h.kind == Ack && q.seen > x.mark then q.seen else x.mark,
       inReach := x.inReach && (q.p.h.kind == Ack ==> q.seen <= x.mark + 64),
       shown := x.shown + [Figures(q, now, r.1, r.0.startRxtime)])
  }

  predicate Enabled(w: World, e: Event) {
    match e
    case Transmit(fromServer) => Live(if fromServer then w.server else w.client)
    case Deliver(toServer, k, _) =>
      if toServer
      then k < |w.client.out| && (Live(w.server) || w.client.out[k].p.h.kind == Handshake)
      else k < |w.server.out|
  }

  function Step(w: World, e: Event): World
    requires Enabled(w, e)
  {
    match e
    case Transmit(fromServer) =>
      if fromServer then w.(server := TransmitStep(w.server)) else w.(client := TransmitStep(w.client))
    case Deliver(toServer, k, now) =>
      if toServer then w.(server := DeliverStep(w.server, w.client.out[k], now))
      else w.(client := DeliverStep(w.client, w.server.out[k], now))
  }

  // ---- the start: a client that has just adopted a cookie, its first or, after whatever it has
  // ---- been through, another one; and no server session
  // ----

  ghost predicate FreshClient(x: Node) {
    exists s: Sess, reply: Packet, now: uint64 ::
      && x == Node(AdoptCookie(s, reply, now), false,
                   now - S32(reply.h.usecPerPkt), [], [], [], [], 0, true, [], x.before)
  }

  ghost predicate Fresh(w: World) {
    && FreshClient(w.client)
    && !Live(w.server) && w.server.isServer && w.server.out == [] && w.server.arrivals == []
    && w.server.heard == [] && w.server.counted == [] && w.server.mark == 0
    && w.server.inReach && w.server.shown == [] && w.server.before == 0
  }

  /** Every event of the run is enabled when its turn comes. */
  predicate ValidRun(w0: World, es: seq<Event>)
    decreases |es|, 0
  {
    es == [] ||
    var k := |es| - 1;
    ValidRun(w0, es[..k]) && Enabled(Run(w0, es[..k]), es[k])
  }

  function Run(w0: World, es: seq<Event>): World
    requires ValidRun(w0, es)
    decreases |es|, 1
  {
    if es == [] then w0
    else Step(Run(w0, es[..|es| - 1]), es[|es| - 1])
  }

  // ---- the invariant, one end at a time ----

  function Receipts(arrivals: seq<Arrival>): seq<AckSlot> {
    seq(|arrivals|, i requires 0 <= i < |arrivals| => AckSlot(arrivals[i].id, U32(arrivals[i].at)))
  }

  /** The schedule is a line of slope usecPerPkt, and every packet was stamped on it. */
  ghost predicate OnSchedule(x: Node, p: int32) {
    && (Live(x) ==> x.s.usecPerPkt == p && Cong(x.s.nextSend - x.s.nextTxId * p, x.origin))
    && (forall i :: 0 <= i < |x.out| ==> StampedOn(x.out[i], x.origin, p))
  }

  ghost predicate StampedOn(q: Sent, origin: int, p: int32) {
    && q.p.h.txtime == U32(q.due)
    && q.p.h.usecPerPkt == U32(p)
    && Cong(q.due, origin + q.p.h.id * p)
  }

  /** The acks sent are the last 64 arrivals at the time of sending. */
  ghost predicate AcksHonest(x: Node) {
    forall i :: 0 <= i < |x.out| ==> HonestAcks(x.out[i], x.arrivals)
  }

  ghost predicate HonestAcks(q: Sent, arrivals: seq<Arrival>) {
    && q.seen <= |arrivals|
    && (q.p.h.kind == Ack ==>
          RingRead(q.p.data, q.p.h.firstAck) == LastReceipts(Receipts(arrivals[..q.seen])))
  }

  ghost predicate RingHonest(x: Node) {
    && (x.s.state == Established ==>
          RingRead(x.s.txData, x.s.nextTxackIndex) == LastReceipts(Receipts(x.arrivals)))
    && (x.s.state != Established ==> x.arrivals == [])
  }

  /** What x has learnt about y: the remote origin, and when its arrivals were due. */
  ghost predicate Learnt(x: Node, y: Node, p: int32) {
    && (Live(x) && x.s.nextRxId != 0 ==> Cong(x.s.startRtxtime, y.origin))
    && (x.arrivals == [] && Live(x) ==> x.s.nextRxId == 0)
    && (x.arrivals != [] ==> Live(y))
    && forall i :: 0 <= i < |x.arrivals| ==> Cong(x.arrivals[i].due, y.origin + x.arrivals[i].id * p)
  }

  ghost predicate Shape(x: Node) {
    && (!Live(x) ==> x.out == [])
    && (x.isServer && Live(x) ==> x.s.state == Established)
    && (x.isServer ==> forall i :: 0 <= i < |x.out| ==> x.out[i].p.h.kind == Ack)
  }

  ghost predicate End(x: Node, y: Node, p: int32) {
    Shape(x) && OnSchedule(x, p) && AcksHonest(x) && RingHonest(x) && Learnt(x, y, p)
  }

  ghost predicate Inv(w: World, p: int32) {
    && !w.client.isServer && w.server.isServer && Live(w.client)
    && End(w.client, w.server, p) && End(w.server, w.client, p)
  }

  // ---- the invariant holds from the start and is kept ----

  lemma FreshInv(w: World)
    requires Fresh(w)
    ensures Inv(w, w.client.s.usecPerPkt)
  {
    hide U64, S32;
  }

  lemma TransmitKeeps(x: Node, y: Node, p: int32)
    requires Live(x) && End(x, y, p) && End(y, x, p)
    ensures End(TransmitStep(x), y, p) && End(y, TransmitStep(x), p)
    ensures Live(TransmitStep(x)) && TransmitStep(x).isServer == x.isServer
  {
    hide U32, U64, Cong, RingRead, LastReceipts;
    ScheduleAdvance(x.s.nextSend, x.s.nextTxId, p, x.origin);
    var x' := TransmitStep(x);
    var q := x'.out[|x.out|];
    assert x.arrivals[..|x.arrivals|] == x.arrivals;
    assert HonestAcks(q, x.arrivals);
    StampedNow(x.s.nextSend, x.s.nextTxId * p, x.origin);
    assert StampedOn(q, x.origin, p);
    forall i | 0 <= i < |x'.out|
      ensures StampedOn(x'.out[i], x.origin, p) && HonestAcks(x'.out[i], x.arrivals)
      ensures x.isServer ==> x'.out[i].p.h.kind == Ack
    {
      if i < |x.out| { assert x'.out[i] == x.out[i]; }
    }
  }

  lemma StampedNow(next: int, x: int, origin: int)
    requires Cong(next - x, origin)
    ensures Cong(next, origin + x)
  {
    hide Cong;
    var k0 := Quotient(next - x, origin);
    MultipleCong(next, origin + x, k0);
  }

  /** The session that is about to receive: on schedule, with an honest ring. */
  lemma BeforeReceiving(x: Node, y: Node, q: Sent, now: uint64, p: int32)
    requires End(x, y, p) && q in y.out && End(y, x, p)
    requires Live(x) || Opens(x, q)
    requires !x.isServer ==> q.p.h.kind == Ack
    ensures var s := Before(x, q, now);
      && s.state == Established && s.usecPerPkt == p
      && (s.nextRxId != 0 ==> Cong(s.startRtxtime, y.origin))
      && RingRead(s.txData, s.nextTxackIndex) == LastReceipts(Receipts(x.arrivals))
      && Cong(s.nextSend - s.nextTxId * p, DeliverStep(x, q, now).origin)
  {
    hide U32, U64, S32, Cong, RingRead, LastReceipts, Receive;
    assert StampedOn(q, y.origin, p);
    if Opens(x, q) {
      ReceiveFrame(Before(x, q, now), Seen(q), now);
      S32OfU32(p);
      ClearedRing(0);
      assert Receipts(x.arrivals) == [];
      CongSelf(U64(now + 10_000) - p);
    } else {
      ClearedRing(x.s.nextTxackIndex);
      if x.arrivals == [] { assert Receipts(x.arrivals) == []; }
    }
  }

  lemma DeliverKeeps(x: Node, y: Node, q: Sent, now: uint64, p: int32)
    requires End(x, y, p) && End(y, x, p) && q in y.out
    requires Live(x) || Opens(x, q)
    requires !x.isServer ==> q.p.h.kind == Ack
    ensures End(DeliverStep(x, q, now), y, p) && End(y, DeliverStep(x, q, now), p)
    ensures Live(DeliverStep(x, q, now)) && DeliverStep(x, q, now).isServer == x.isServer
  {
    hide U32, U64, S32, Cong, RingRead, LastReceipts, Receive, WithSlot, Calibrate, Aligned;
    var s, rx := Before(x, q, now), Seen(q);
    var x' := DeliverStep(x, q, now);
    var a := Arrival(q.p.h.id, now, q.due);
    BeforeReceiving(x, y, q, now, p);
    ReceiveFrame(s, rx, now);
    assert StampedOn(q, y.origin, p);
    TruncatedDue(q.p.h.txtime, q.due, y.origin + q.p.h.id * p);
    RemoteOrigin(s, rx, now);
    RemoteOriginCong(s, rx.h, now, y.origin);
    WriteRing(s.txData, s.nextTxackIndex, Receipts(x.arrivals), AckSlot(a.id, U32(a.at)));
    assert Receipts(x'.arrivals) == Receipts(x.arrivals) + [AckSlot(a.id, U32(a.at))];
    forall i | 0 <= i < |x'.arrivals|
      ensures Cong(x'.arrivals[i].due, y.origin + x'.arrivals[i].id * p)
    {
      if i < |x.arrivals| { assert x'.arrivals[i] == x.arrivals[i]; }
    }
    forall i | 0 <= i < |x'.out|
      ensures HonestAcks(x'.out[i], x'.arrivals) && StampedOn(x'.out[i], x'.origin, p)
    {
      assert HonestAcks(x.out[i], x.arrivals);
      assert x'.arrivals[..x.out[i].seen] == x.arrivals[..x.out[i].seen];
    }
  }

  lemma TruncatedDue(t: uint32, due: int, x: int)
    requires t == U32(due) && Cong(due, x)
    ensures Cong(t, x)
  {
    hide U32, Cong;
    U32Cong(due);
    CongTrans(t, due, x);
  }

  lemma StepKeeps(w: World, e: Event, p: int32)
    requires Inv(w, p) && Enabled(w, e)
    ensures Inv(Step(w, e), p)
  {
    hide OnSchedule, AcksHonest, RingHonest, Learnt, TransmitStep, DeliverStep;
    match e
    case Transmit(fromServer) =>
      if fromServer { TransmitKeeps(w.server, w.client, p); } else { TransmitKeeps(w.client, w.server, p); }
    case Deliver(toServer, k, now) =>
      if toServer { DeliverKeeps(w.server, w.client, w.client.out[k], now, p); }
      else { DeliverKeeps(w.client, w.server, w.server.out[k], now, p); }
  }

  lemma {:induction false} RunKeeps(w0: World, es: seq<Event>)
    requires Fresh(w0) && ValidRun(w0, es)
    ensures Inv(Run(w0, es), w0.client.s.usecPerPkt)
    decreases |es|
  {
    if es == [] {
      FreshInv(w0);
    } else {
      var k := |es| - 1;
      RunKeeps(w0, es[..k]);
      StepKeeps(Run(w0, es[..k]), es[k], w0.client.s.usecPerPkt);
    }
  }

  // ---- the latency identity ----

  /** The acked packet is a real arrival at the peer, and the two latencies shown are, in sum,
      how long both packets arrived after their scheduled times. */
  ghost predicate AddsUp(f: Figures, m: Sample, arrivals: seq<Arrival>, i: int) {
    && 0 <= i < f.q.seen <= |arrivals| && arrivals[i].id == m.id
    && Cong(LatRx(f.out.rxdiff, f.out.rtt) + m.txdiff,
            (f.now - f.q.due) + (arrivals[i].at - arrivals[i].due))
  }

  ghost predicate SampleRight(f: Figures, m: Sample, origin: int, arrivals: seq<Arrival>, p: int32) {
    && Cong(m.txtime, origin + m.id * p)
    && exists i :: AddsUp(f, m, arrivals, i)
  }

  ghost predicate FigureRight(f: Figures, origin: int, arrivals: seq<Arrival>, p: int32) {
    forall m :: m in f.out.samples ==> SampleRight(f, m, origin, arrivals, p)
  }

  /** Every packet received left its figures, and all of them are right. */
  ghost predicate Figured(x: Node, y: Node, p: int32) {
    && |x.shown| == |x.arrivals|
    && forall k :: 0 <= k < |x.shown| ==> FigureRight(x.shown[k], x.origin, y.arrivals, p)
  }

  lemma DeliveredSum(x: Node, y: Node, q: Sent, now: uint64, p: int32, m: Sample) returns (i: nat)
    requires End(x, y, p) && End(y, x, p) && q in y.out
    requires Live(x) || Opens(x, q)
    requires !x.isServer ==> q.p.h.kind == Ack
    requires m in Result(x, q, now).1.samples
    ensures i < q.seen <= |y.arrivals| && y.arrivals[i].id == m.id
    ensures U32(y.arrivals[i].at) == m.rrxtime
    ensures Cong(m.txtime, DeliverStep(x, q, now).origin + m.id * p)
    ensures var out := Result(x, q, now).1;
      Cong(LatRx(out.rxdiff, out.rtt) + m.txdiff,
           (now - q.due) + (y.arrivals[i].at - y.arrivals[i].due))
  {
    hide RingRead, LastReceipts, Receive, Aligned, U32, S32, Cong, LatRx, Calibrate, Before, Seen,
      RingHonest, AcksHonest;
    var s, rx := Before(x, q, now), Seen(q);
    assert rx.h == q.p.h.(kind := Ack) by { assert rx == Seen(q); SeenHeader(q); }
    var out := Result(x, q, now).1;
    LatencySum(s, rx, now, m);
    var slot :| 0 <= slot < 64 && RingRead(rx.data, rx.h.firstAck)[slot] == AckSlot(m.id, m.rrxtime);
    i := AckedArrival(q, rx, y, slot, m);
    BeforeReceiving(x, y, q, now, p);
    assert StampedOn(q, y.origin, p);
    TruncatedDue(q.p.h.txtime, q.due, y.origin + q.p.h.id * p);
    RemoteOrigin(s, rx, now);
    RemoteOriginCong(s, rx.h, now, y.origin);
    U32Cong(y.arrivals[i].at);
    AgainstTruth(LatRx(out.rxdiff, out.rtt) + m.txdiff, now, Aligned(s, rx.h, now).startRtxtime,
      y.origin, q.p.h.id * p, q.due, U32(y.arrivals[i].at), y.arrivals[i].at,
      s.nextSend - s.nextTxId * p, x.origin, m.id * p, y.arrivals[i].due);
    RebuiltCong(s, m.id);
    SameLine(m.txtime, s.nextSend - s.nextTxId * p, m.id * p, DeliverStep(x, q, now).origin);
  }

  lemma SeenHeader(q: Sent)
    ensures Seen(q).h == q.p.h.(kind := Ack)
  {
  }

  lemma SameLine(r: int, start: int, kp: int, origin: int)
    requires Cong(r, start + kp) && Cong(start, origin)
    ensures Cong(r, origin + kp)
  {
    hide Cong;
    var k0 := Quotient(r, start + kp);
    var k1 := Quotient(start, origin);
    MultipleCong(r, origin + kp, k0 + k1);
  }

  /** A nonempty slot in a packet is one of its sender's arrivals. */
  lemma AckedArrival(q: Sent, rx: Packet, y: Node, slot: nat, m: Sample) returns (i: nat)
    requires AcksHonest(y) && q in y.out && rx == Seen(q) && slot < 64 && m.id != 0
    requires RingRead(rx.data, rx.h.firstAck)[slot] == AckSlot(m.id, m.rrxtime)
    ensures i < q.seen <= |y.arrivals|
    ensures y.arrivals[i].id == m.id && U32(y.arrivals[i].at) == m.rrxtime
  {
    hide U32, RingRead;
    assert HonestAcks(q, y.arrivals);
    if q.p.h.kind == Handshake {
      ClearedRing(rx.h.firstAck);
      assert false;
    }
    i := q.seen + slot - 64;
    assert LastReceipts(Receipts(y.arrivals[..q.seen]))[slot] == Receipts(y.arrivals[..q.seen])[i];
  }

  lemma AgainstTruth(shown: int, now: int, rstart: int, yo: int, jp: int, jdue: int,
                     rrx: int, at: int, start: int, xo: int, kp: int, kdue: int)
    requires Cong(shown, (now - rstart - jp) + (rrx - (start + kp)))
    requires Cong(rstart, yo) && Cong(jdue, yo + jp) && Cong(rrx, at)
    requires Cong(start, xo) && Cong(kdue, xo + kp)
    ensures Cong(shown, (now - jdue) + (at - kdue))
  {
    hide Cong;
    var k0 := Quotient(shown, (now - rstart - jp) + (rrx - (start + kp)));
    var k1 := Quotient(rstart, yo);
    var k2 := Quotient(jdue, yo + jp);
    var k3 := Quotient(rrx, at);
    var k4 := Quotient(start, xo);
    var k5 := Quotient(kdue, xo + kp);
    MultipleCong(shown, (now - jdue) + (at - kdue), k0 - k1 + k2 + k3 - k4 + k5);
  }

  // ---- kept over the run ----

  /** What was right stays right as the peer's arrivals grow. */
  lemma StaysFigured(x: Node, y: Node, x2: Node, y2: Node, p: int32)
    requires Figured(x, y, p) && x2.shown == x.shown && |x2.arrivals| == |x.arrivals|
    requires x2.origin == x.origin || x.shown == []
    requires |y.arrivals| <= |y2.arrivals| && y2.arrivals[..|y.arrivals|] == y.arrivals
    ensures Figured(x2, y2, p)
  {
    hide Cong, LatRx;
    forall k, m | 0 <= k < |x.shown| && m in x.shown[k].out.samples
      ensures SampleRight(x.shown[k], m, x2.origin, y2.arrivals, p)
    {
      var f := x.shown[k];
      assert FigureRight(f, x.origin, y.arrivals, p);
      var i :| AddsUp(f, m, y.arrivals, i);
      assert y2.arrivals[i] == y2.arrivals[..|y.arrivals|][i];
      assert AddsUp(f, m, y2.arrivals, i);
    }
  }

  lemma DeliverFigured(x: Node, y: Node, q: Sent, now: uint64, p: int32)
    requires End(x, y, p) && End(y, x, p) && q in y.out
    requires Live(x) || Opens(x, q)
    requires !x.isServer ==> q.p.h.kind == Ack
    requires Figured(x, y, p) && Figured(y, x, p)
    ensures Figured(DeliverStep(x, q, now), y, p) && Figured(y, DeliverStep(x, q, now), p)
  {
    hide Cong, LatRx, Result, OnSchedule, AcksHonest, Learnt;
    var x2 := DeliverStep(x, q, now);
    StaysFigured(y, x, y, x2, p);
    StaysFigured(x, y, x.(origin := x2.origin), y, p);
    var f := x2.shown[|x.shown|];
    forall m | m in f.out.samples
      ensures SampleRight(f, m, x2.origin, y.arrivals, p)
    {
      var i := DeliveredSum(x, y, q, now, p, m);
      assert AddsUp(f, m, y.arrivals, i);
    }
    assert FigureRight(f, x2.origin, y.arrivals, p);
  }

  lemma StepFigured(w: World, e: Event, p: int32)
    requires Inv(w, p) && Enabled(w, e)
    requires Figured(w.client, w.server, p) && Figured(w.server, w.client, p)
    ensures var w2 := Step(w, e); Figured(w2.client, w2.server, p) && Figured(w2.server, w2.client, p)
  {
    hide OnSchedule, AcksHonest, RingHonest, Learnt, DeliverStep, Figured;
    match e
    case Transmit(fromServer) =>
      var w2 := Step(w, e);
      StaysFigured(w.client, w.server, w2.client, w2.server, p);
      StaysFigured(w.server, w.client, w2.server, w2.client, p);
    case Deliver(toServer, k, now) =>
      if toServer { DeliverFigured(w.server, w.client, w.client.out[k], now, p); }
      else { DeliverFigured(w.client, w.server, w.server.out[k], now, p); }
  }

  lemma RunFigured(w0: World, es: seq<Event>)
    requires Fresh(w0) && ValidRun(w0, es)
    ensures var w, p := Run(w0, es), w0.client.s.usecPerPkt;
      Figured(w.client, w.server, p) && Figured(w.server, w.client, p)
    decreases |es|
  {
    hide Inv, Step;
    if es != [] {
      var k := |es| - 1;
      RunFigured(w0, es[..k]);
      RunKeeps(w0, es[..k]);
      StepFigured(Run(w0, es[..k]), es[k], w0.client.s.usecPerPkt);
    }
  }

  /** Truth about an arrival: how long after its scheduled time, once the sender's
      schedule is read on the receiver's clock. */
  ghost function Latency(at: int, due: int, skew: int): int { at - (due + skew) }

  /** Every figure x ever showed is, in sum, the true latency of the packet that came and
      of the packet it acks, whatever the clocks differ by. */
  ghost predicate ShowsTrueSums(x: Node, y: Node, skew: int) {
    forall f, m :: f in x.shown && m in f.out.samples ==> TrueSum(f, m, y.arrivals, skew)
  }

  ghost predicate TrueSum(f: Figures, m: Sample, arrivals: seq<Arrival>, skew: int) {
    exists i :: 0 <= i < f.q.seen <= |arrivals| && arrivals[i].id == m.id
      && var truth := Latency(f.now, f.q.due, skew) + Latency(arrivals[i].at, arrivals[i].due, -skew);
         var shown := LatRx(f.out.rxdiff, f.out.rtt) + m.txdiff;
         && Cong(shown, truth)
         && (-0x8000_0000 <= truth < 0x8000_0000 ==> S32(shown) == truth)
  }

  /** In every run, for every packet either end received and every ack it newly counted
      with it, the two latencies shown add up to the true latency of this packet plus that
      of the acked packet, for whatever the clocks differ by. */
  lemma {:induction false} LatencyIdentity(w0: World, es: seq<Event>, skew: int)
    requires Fresh(w0) && ValidRun(w0, es)
    ensures var w := Run(w0, es);
      && |w.client.shown| == |w.client.arrivals| && ShowsTrueSums(w.client, w.server, skew)
      && |w.server.shown| == |w.server.arrivals| && ShowsTrueSums(w.server, w.client, skew)
  {
    var w, p := Run(w0, es), w0.client.s.usecPerPkt;
    RunFigured(w0, es);
    RightShowsTrue(w.client, w.server, p, skew);
    RightShowsTrue(w.server, w.client, p, skew);
  }

  lemma RightShowsTrue(x: Node, y: Node, p: int32, skew: int)
    requires Figured(x, y, p)
    ensures ShowsTrueSums(x, y, skew)
  {
    hide S32, Cong, LatRx;
    forall f, m | f in x.shown && m in f.out.samples
      ensures TrueSum(f, m, y.arrivals, skew)
    {
      assert FigureRight(f, x.origin, y.arrivals, p);
      assert SampleRight(f, m, x.origin, y.arrivals, p);
      var i :| AddsUp(f, m, y.arrivals, i);
      var truth := Latency(f.now, f.q.due, skew) + Latency(y.arrivals[i].at, y.arrivals[i].due, -skew);
      var shown := LatRx(f.out.rxdiff, f.out.rtt) + m.txdiff;
      assert truth == (f.now - f.q.due) + (y.arrivals[i].at - y.arrivals[i].due);
      if -0x8000_0000 <= truth < 0x8000_0000 {
        S32Cong(shown);
        CongTrans(S32(shown), shown, truth);
        CongInt32(S32(shown), truth);
      }
    }
  }

  /** In every run, the transmit time rebuilt for an acked id when its ack was counted is
      the one stamped in the packets sent under that id. */
  lemma {:induction false} TransmitTimeRebuilt(w0: World, es: seq<Event>)
    requires Fresh(w0) && ValidRun(w0, es)
    ensures var w := Run(w0, es); RebuildsStamps(w.client) && RebuildsStamps(w.server)
  {
    var w, p := Run(w0, es), w0.client.s.usecPerPkt;
    RunFigured(w0, es);
    RunKeeps(w0, es);
    RightRebuilds(w.client, w.server, p);
    RightRebuilds(w.server, w.client, p);
  }

  ghost predicate RebuildsStamps(x: Node) {
    forall f, m, q :: f in x.shown && m in f.out.samples && q in x.out && q.p.h.id == m.id ==>
      m.txtime == q.p.h.txtime
  }

  lemma RightRebuilds(x: Node, y: Node, p: int32)
    requires Figured(x, y, p) && OnSchedule(x, p)
    ensures RebuildsStamps(x)
  {
    hide Cong, U32;
    forall f, m, q | f in x.shown && m in f.out.samples && q in x.out && q.p.h.id == m.id
      ensures m.txtime == q.p.h.txtime
    {
      assert FigureRight(f, x.origin, y.arrivals, p);
      assert SampleRight(f, m, x.origin, y.arrivals, p);
      assert StampedOn(q, x.origin, p);
      TruncatedDue(q.p.h.txtime, q.due, x.origin + q.p.h.id * p);
      SameTarget(m.txtime, q.p.h.txtime, x.origin + m.id * p);
      CongUint32(m.txtime, q.p.h.txtime);
    }
  }

  lemma SameTarget(r: int, t: int, target: int)
    requires Cong(r, target) && Cong(t, target)
    ensures Cong(r, t)
  {
    hide Cong;
    var k0 := Quotient(r, target);
    var k1 := Quotient(t, target);
    MultipleCong(r, t, k0 - k1);
  }
}
