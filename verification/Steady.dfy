/** Two ends, constant one-way delays, any clock offset, any loss: nobody moves its
    origin, and the round trip is split in half, exactly. */
module Steady {
  import opened Words
  import opened Wire
  import opened Engine
  import opened Measure
  import opened TwoParty
  import opened AckFilter

  /** Delays as the two clocks read them: arrival time minus scheduled time. Each may be
      anything, also negative; the clock offset cancels only in their sum. */
  datatype Delays = Delays(atClient: int, atServer: int) {
    function Trip(): int { atClient + atServer }
    function At(isServer: bool): int { if isServer then atServer else atClient }
  }

  /** Whatever arrived, arrived after that delay. */
  ghost predicate Punctual(x: Node, d: int) {
    forall f :: f in x.shown ==> f.now == f.q.due + d
  }

  ghost predicate Constant(w: World, d: Delays) {
    Punctual(w.client, d.atClient) && Punctual(w.server, d.atServer)
  }

  // ---- one session ----

  ghost predicate Settled(s: Sess, start: int) {
    && Cong(s.startRxtime, start)
    && (s.minCycleRxdiff == 0 || s.minCycleRxdiff == INT32_MAX)
  }

  /** A packet exactly on time: no delay, no correction, at the end of a cycle or not. */
  lemma SettledStays(s: Sess, h: Header, now: uint64, start: int)
    requires s.nextRxId != 0 ==> Settled(s, start)
    requires Cong(now, start + h.id * s.usecPerPkt)
    ensures Delay(Aligned(s, h, now), h.id, now) == 0
    ensures Cong(Aligned(s, h, now).startRxtime, start)
    ensures Settled(Filed(s, h, now), start)
    ensures s.nextRxId != 0 ==> Filed(s, h, now).startRxtime == s.startRxtime
  {
    hide U32, U64, Delay, Diff, Cong, SlotTime, LatRx, Rtt, WithSlot;
    var c := Calibrate(s, h, now);
    assert Settled(c, start) by {
      if s.nextRxId == 0 {
        BackdateCong(now, h.id, s.usecPerPkt);
        BackdatedTo(U64(now - SlotTime(h.id, s.usecPerPkt)), now, h.id * s.usecPerPkt, start);
      }
    }
    var l := CountLoss(c, h.id);
    NoDelay(now, l.startRxtime, h.id * s.usecPerPkt, start);
    DelayAgainst(l, h.id, now, 0);
  }

  lemma BackdatedTo(r: int, now: int, x: int, start: int)
    requires Cong(r, now - x) && Cong(now, start + x)
    ensures Cong(r, start)
  {
    hide Cong;
    var k0 := Quotient(r, now - x);
    var k1 := Quotient(now, start + x);
    MultipleCong(r, start, k0 + k1);
  }

  lemma NoDelay(now: int, r: int, x: int, start: int)
    requires Cong(now, start + x) && Cong(r, start)
    ensures Cong(now - r - x, 0)
  {
    hide Cong;
    var k0 := Quotient(now, start + x);
    var k1 := Quotient(r, start);
    MultipleCong(now - r - x, 0, k0 - k1);
  }

  lemma SettledReceives(s: Sess, rx: Packet, now: uint64, start: int)
    requires s.nextRxId != 0 ==> Settled(s, start)
    requires Cong(now, start + rx.h.id * s.usecPerPkt)
    ensures Receive(s, rx, now).1.rxdiff == 0
    ensures Settled(Receive(s, rx, now).0, start)
    ensures s.nextRxId != 0 ==> Receive(s, rx, now).0.startRxtime == s.startRxtime
  {
    hide Filed, Aligned, Delay, Cong, U32, Rtt, ClockOffset, CountAcks, RingRead;
    SettledStays(s, rx.h, now, start);
    CountAcksFrame(Filed(s, rx.h, now), ClockOffset(Aligned(s, rx.h, now), rx.h), RingRead(rx.data, rx.h.firstAck));
  }

  // ---- the two ends ----

  /** What x reports of its clock difference once it has received something: its own delay d, unless
      the sentinel stops it. */
  function Report(peerOrigin: int, d: int): uint32 { if U32(peerOrigin) == 0 then 0 else U32(d) }

  ghost predicate SteadyEnd(x: Node, y: Node, d: int) {
    && (x.arrivals != [] ==> Settled(x.s, y.origin + d) && x.s.startRtxtime == U32(y.origin))
    && (forall i :: 0 <= i < |x.out| && x.out[i].seen > 0 ==> x.out[i].p.h.clockdiff == Report(y.origin, d))
    && (forall i :: 0 <= i < |x.arrivals| ==> x.arrivals[i].at - x.arrivals[i].due == d)
  }

  lemma ReportedDifference(r: uint64, t: uint32, origin: int, d: int)
    requires Cong(r, origin + d) && t == U32(origin)
    ensures U32(r - t) == U32(d)
  {
    hide U32, Cong;
    U32Cong(origin);
    U32Cong(r - t);
    U32Cong(d);
    var k0 := Quotient(r, origin + d);
    var k1 := Quotient(t, origin);
    var k2 := Quotient(U32(r - t), r - t);
    var k3 := Quotient(U32(d), d);
    MultipleCong(U32(r - t), U32(d), k0 - k1 + k2 - k3);
    CongUint32(U32(r - t), U32(d));
  }

  lemma TransmitSteady(x: Node, y: Node, dx: int, dy: int)
    requires Live(x) && SteadyEnd(x, y, dx) && SteadyEnd(y, x, dy)
    ensures SteadyEnd(TransmitStep(x), y, dx) && SteadyEnd(y, TransmitStep(x), dy)
  {
    hide U32, U64, Cong;
    var x' := TransmitStep(x);
    if x.arrivals != [] { ReportedDifference(x.s.startRxtime, x.s.startRtxtime, y.origin, dx); }
    forall i | 0 <= i < |x'.out| && x'.out[i].seen > 0
      ensures x'.out[i].p.h.clockdiff == Report(y.origin, dx)
    {
      if i < |x.out| { assert x'.out[i] == x.out[i]; }
    }
  }

  lemma DueAt(now: int, due: int, d: int, origin: int, x: int)
    requires now == due + d && Cong(due, origin + x)
    ensures Cong(now, origin + d + x)
  {
    hide Cong;
    var k0 := Quotient(due, origin + x);
    MultipleCong(now, origin + d + x, k0);
  }

  lemma DeliverSteady(x: Node, y: Node, q: Sent, now: uint64, p: int32, dx: int, dy: int)
    requires End(x, y, p) && End(y, x, p) && q in y.out
    requires Live(x) || Opens(x, q)
    requires !x.isServer ==> q.p.h.kind == Ack
    requires SteadyEnd(x, y, dx) && SteadyEnd(y, x, dy) && now == q.due + dx
    ensures SteadyEnd(DeliverStep(x, q, now), y, dx) && SteadyEnd(y, DeliverStep(x, q, now), dy)
    ensures Result(x, q, now).1.rxdiff == 0
    ensures x.arrivals != [] && x.s.nextRxId != 0 ==> DeliverStep(x, q, now).s.startRxtime == x.s.startRxtime
  {
    hide U32, U64, Cong, Receive, Aligned, RingRead, LastReceipts, OnSchedule, AcksHonest, S32;
    var s, rx, x' := Before(x, q, now), Seen(q), DeliverStep(x, q, now);
    BeforeReceiving(x, y, q, now, p);
    assert StampedOn(q, y.origin, p) by { assert OnSchedule(y, p); StampOf(y, q, p); }
    DueAt(now, q.due, dx, y.origin, q.p.h.id * p);
    SeenHeader(q);
    SettledReceives(s, rx, now, y.origin + dx);
    RemoteOrigin(s, rx, now);
    TruncatedDue(q.p.h.txtime, q.due, y.origin + q.p.h.id * p);
    RemoteOriginCong(s, rx.h, now, y.origin);
    LearntIs(x'.s.startRtxtime, y.origin);
    if Opens(x, q) { NothingSeen(y); }
    forall i | 0 <= i < |x'.arrivals|
      ensures x'.arrivals[i].at - x'.arrivals[i].due == dx
    {
      if i < |x.arrivals| { assert x'.arrivals[i] == x.arrivals[i]; }
    }
  }

  lemma NothingSeen(y: Node)
    requires AcksHonest(y) && y.arrivals == []
    ensures forall i :: 0 <= i < |y.out| ==> y.out[i].seen == 0
  {
    hide RingRead, LastReceipts;
    forall i | 0 <= i < |y.out|
      ensures y.out[i].seen == 0
    {
      assert HonestAcks(y.out[i], y.arrivals);
    }
  }

  lemma StampOf(y: Node, q: Sent, p: int32)
    requires OnSchedule(y, p) && q in y.out
    ensures StampedOn(q, y.origin, p)
  {
  }

  lemma LearntIs(t: uint32, origin: int)
    requires Cong(t, origin)
    ensures t == U32(origin)
  {
    hide U32, Cong;
    U32Cong(origin);
    var k0 := Quotient(t, origin);
    var k1 := Quotient(U32(origin), origin);
    MultipleCong(t, U32(origin), k0 - k1);
    CongUint32(t, U32(origin));
  }

  // ---- the figures shown ----

  /** What an end with origin `xo` shows when a packet comes from a peer with origin `yo`,
      for delays `dx` to it and `dy` to the peer: no delay over its own origin, which is
      the peer's delayed by `dx`; as round trip `dx` and whatever clock difference the peer reports;
      which, if the peer has received anything in this negotiation, is the sum of the delays,
      unless the sentinel is hit; and the two halves of it. */
  ghost predicate SteadyFigure(f: Figures, xo: int, yo: int, dx: int, dy: int) {
    var trip := dx + dy;
    var reported := f.q.seen > 0 && f.q.p.h.clockdiff != 0;
    && f.out.rxdiff == 0
    && Cong(f.origin, yo + dx)
    && Cong(f.out.rtt, dx + f.q.p.h.clockdiff)
    && (f.out.samples != [] || reported ==> (f.out.rtt == trip <==> (U32(xo) != 0 || Cong(dy, 0))))
    && (reported ==> LatRx(f.out.rxdiff, f.out.rtt) == trip / 2)
    && (forall m :: m in f.out.samples ==> Cong(Quot(f.out.rtt, 2) + m.txdiff, trip))
    && (f.out.rtt == trip ==> forall m :: m in f.out.samples ==> m.txdiff == trip - trip / 2)
  }

  ghost predicate SteadyFigures(x: Node, y: Node, dx: int, dy: int) {
    forall f :: f in x.shown ==> SteadyFigure(f, x.origin, y.origin, dx, dy)
  }

  const LAST_ID: uint32 := 0xffff_ffff

  /** An origin once assumed is never moved, short of the id that wraps next_rx_id to 0. */
  ghost predicate OneOrigin(x: Node) {
    (forall f :: f in x.shown ==> f.q.p.h.id != LAST_ID) ==>
      forall f :: f in x.shown ==> f.origin == x.shown[0].origin
  }

  ghost predicate OriginKept(x: Node) {
    && |x.shown| == |x.arrivals|
    && OneOrigin(x)
    && (x.shown != [] ==> x.s.startRxtime == x.shown[|x.shown| - 1].origin)
    && (x.shown != [] && x.s.nextRxId == 0 ==> exists f :: f in x.shown && f.q.p.h.id == LAST_ID)
  }

  ghost predicate SteadyBoth(x: Node, y: Node, dx: int, dy: int) {
    SteadyEnd(x, y, dx) && SteadyFigures(x, y, dx, dy) && OriginKept(x)
  }

  ghost predicate SteadyInv(w: World, d: Delays) {
    && SteadyBoth(w.client, w.server, d.atClient, d.atServer)
    && SteadyBoth(w.server, w.client, d.atServer, d.atClient)
  }

  lemma CountLossWraps(s: Sess, id: uint32)
    requires CountLoss(s, id).nextRxId == 0 && (s.nextRxId != 0 || s.nextRxId == id)
    ensures id == LAST_ID
  {
    hide Cong, U32, Diff;
    var next := s.nextRxId;
    var gap := Diff(id, next);
    DiffExact(0, 0);
    DiffCong(id, next);
    U32Cong(next + gap + 1);
    WrapsToZero(id, next, gap);
  }

  lemma WrapsToZero(id: uint32, next: uint32, gap: int)
    requires Cong(gap, id - next) && Cong(0, next + gap + 1)
    ensures id == LAST_ID
  {
    hide Cong;
    var k0 := Quotient(gap, id - next);
    var k1 := Quotient(0, next + gap + 1);
    var k: int := -k0 - k1;
    assert id + 1 == k * 0x1_0000_0000;
    assert 0 < k < 2;
  }

  lemma NextRxIdWraps(s: Sess, rx: Packet, now: uint64)
    requires Receive(s, rx, now).0.nextRxId == 0
    ensures rx.h.id == LAST_ID
  {
    hide Delay, RingRead, CountAcks, Rtt, LatRx, ClockOffset, U32, U64, SlotTime, WithSlot, Diff, CountLoss, CycleOver;
    CountAcksFrame(Filed(s, rx.h, now), ClockOffset(Aligned(s, rx.h, now), rx.h), RingRead(rx.data, rx.h.firstAck));
    var c := Calibrate(s, rx.h, now);
    assert Filed(s, rx.h, now).nextRxId == CountLoss(c, rx.h.id).nextRxId;
    CountLossWraps(c, rx.h.id);
  }

  lemma DeliverOrigin(x: Node, q: Sent, now: uint64)
    requires OriginKept(x)
    requires x.arrivals != [] && x.s.nextRxId != 0 ==> DeliverStep(x, q, now).s.startRxtime == x.s.startRxtime
    ensures OriginKept(DeliverStep(x, q, now))
  {
    hide Receive, RingRead;
    var x2 := DeliverStep(x, q, now);
    var f := x2.shown[|x.shown|];
    SeenHeader(q);
    if x2.s.nextRxId == 0 {
      NextRxIdWraps(Before(x, q, now), Seen(q), now);
      assert f in x2.shown;
    }
    if forall g :: g in x2.shown ==> g.q.p.h.id != LAST_ID {
      forall g | g in x.shown
        ensures g.q.p.h.id != LAST_ID
      {
        assert g in x2.shown;
      }
      assert x.shown != [] ==> x2.shown[0] == x.shown[0] && x.shown[|x.shown| - 1] in x.shown;
    }
  }

  lemma DeliverBoth(x: Node, y: Node, q: Sent, now: uint64, p: int32, dx: int, dy: int)
    requires End(x, y, p) && End(y, x, p) && q in y.out
    requires Live(x) || Opens(x, q)
    requires !x.isServer ==> q.p.h.kind == Ack
    requires SteadyBoth(x, y, dx, dy) && SteadyBoth(y, x, dy, dx) && now == q.due + dx
    requires 0 <= dx + dy < 0x8000_0000
    ensures SteadyBoth(DeliverStep(x, q, now), y, dx, dy) && SteadyBoth(y, DeliverStep(x, q, now), dy, dx)
  {
    hide OnSchedule, AcksHonest, U32, Cong, LatRx, Quot, Receive;
    DeliverSteady(x, y, q, now, p, dx, dy);
    DeliverOrigin(x, q, now);
    DeliveredFigures(x, y, q, now, p, dx, dy);
    var x2 := DeliverStep(x, q, now);
    if Opens(x, q) { assert x.shown == [] == y.shown; }
    assert x2.arrivals != [];
  }

  lemma TransmitBoth(x: Node, y: Node, dx: int, dy: int)
    requires Live(x) && SteadyBoth(x, y, dx, dy) && SteadyBoth(y, x, dy, dx)
    ensures SteadyBoth(TransmitStep(x), y, dx, dy) && SteadyBoth(y, TransmitStep(x), dy, dx)
  {
    hide SteadyEnd, SteadyFigure;
    TransmitSteady(x, y, dx, dy);
  }

  lemma StepSteady(w: World, e: Event, p: int32, d: Delays)
    requires Inv(w, p) && SteadyInv(w, d) && Enabled(w, e) && Constant(Step(w, e), d)
    requires 0 <= d.Trip() < 0x8000_0000
    ensures SteadyInv(Step(w, e), d)
  {
    hide OnSchedule, AcksHonest, RingHonest, Learnt, SteadyBoth, TransmitStep, Result;
    match e
    case Transmit(fromServer) =>
      if fromServer { TransmitBoth(w.server, w.client, d.atServer, d.atClient); }
      else { TransmitBoth(w.client, w.server, d.atClient, d.atServer); }
    case Deliver(toServer, k, now) =>
      var w2 := Step(w, e);
      if toServer {
        assert w2.server.shown[|w.server.shown|] in w2.server.shown;
        DeliverBoth(w.server, w.client, w.client.out[k], now, p, d.atServer, d.atClient);
      } else {
        assert w2.client.shown[|w.client.shown|] in w2.client.shown;
        DeliverBoth(w.client, w.server, w.server.out[k], now, p, d.atClient, d.atServer);
      }
  }

  lemma ConstantBefore(w: World, e: Event, d: Delays)
    requires Enabled(w, e) && Constant(Step(w, e), d)
    ensures Constant(w, d)
  {
    hide Result, PrepareTx, SendTx, Before, Seen;
    var w2 := Step(w, e);
    assert forall f :: f in w.client.shown ==> f in w2.client.shown;
    assert forall f :: f in w.server.shown ==> f in w2.server.shown;
  }

  lemma {:induction false} RunSteady(w0: World, es: seq<Event>, d: Delays)
    requires Fresh(w0) && ValidRun(w0, es) && Constant(Run(w0, es), d)
    requires 0 <= d.Trip() < 0x8000_0000
    ensures SteadyInv(Run(w0, es), d)
    decreases |es|
  {
    if es == [] {
    } else {
      hide Inv, SteadyInv, Step, Enabled, Fresh, Constant;
      var k := |es| - 1;
      ConstantBefore(Run(w0, es[..k]), es[k], d);
      RunSteady(w0, es[..k], d);
      RunKeeps(w0, es[..k]);
      StepSteady(Run(w0, es[..k]), es[k], w0.client.s.usecPerPkt, d);
    }
  }

  /** What both ends show for every packet delivered in a constant-delay run. The wire's
      sentinel is the one exception: if the receiver's own schedule origin happens to be 0
      modulo 2^32 its peer reports no clock difference, and then the round trip is right
      only if that difference was 0 anyway. The two halves add up in any case. */
  lemma {:induction false} SteadyState(w0: World, es: seq<Event>, d: Delays)
    requires Fresh(w0) && ValidRun(w0, es) && Constant(Run(w0, es), d)
    requires 0 <= d.Trip() < 0x8000_0000
    ensures var w := Run(w0, es);
      && SteadyFigures(w.client, w.server, d.atClient, d.atServer)
      && SteadyFigures(w.server, w.client, d.atServer, d.atClient)
      && OneOrigin(w.client) && OneOrigin(w.server)
      && |w.client.shown| == |w.client.arrivals| && |w.server.shown| == |w.server.arrivals|
  {
    hide SteadyEnd, SteadyFigures;
    RunSteady(w0, es, d);
  }

  lemma DeliveredFigures(x: Node, y: Node, q: Sent, now: uint64, p: int32, dx: int, dy: int)
    requires End(x, y, p) && End(y, x, p) && q in y.out
    requires Live(x) || Opens(x, q)
    requires !x.isServer ==> q.p.h.kind == Ack
    requires SteadyEnd(x, y, dx) && SteadyEnd(y, x, dy) && now == q.due + dx
    requires 0 <= dx + dy < 0x8000_0000
    ensures var x2 := DeliverStep(x, q, now);
      SteadyFigure(x2.shown[|x.shown|], x2.origin, y.origin, dx, dy)
  {
    hide OnSchedule, AcksHonest, RingHonest, Learnt, Result, S32, U32, Cong, LatRx;
    var out := Result(x, q, now).1;
    var trip := dx + dy;
    DeliverSteady(x, y, q, now, p, dx, dy);
    RttOnTime(x, y, q, now, p, dx, dy);
    forall m | m in out.samples
      ensures q.seen > 0 && Cong(Quot(out.rtt, 2) + m.txdiff, trip)
      ensures out.rtt == trip ==> m.txdiff == trip - trip / 2
    {
      var i := DeliveredSum(x, y, q, now, p, m);
      HalfOfTrip(out.rtt);
      SwapHalf(LatRx(0, out.rtt), Quot(out.rtt, 2), m.txdiff, trip);
      if out.rtt == trip {
        OtherHalf(m.txdiff, trip);
      }
    }
    HalfOfTrip(out.rtt);
    assert q.seen > 0 ==> q.p.h.clockdiff == Report(x.origin, dy);
    if out.samples != [] { assert out.samples[0] in out.samples; }
    if q.seen > 0 {
      RttIffNoSentinel(out.rtt, dx, dy, Report(x.origin, dy), x.origin);
      assert !Opens(x, q) by { if Opens(x, q) { PeerSawNothing(x, y, q, p); } }
    }
  }

  lemma PeerSawNothing(x: Node, y: Node, q: Sent, p: int32)
    requires End(x, y, p) && End(y, x, p) && q in y.out && !Live(x)
    ensures q.seen == 0
  {
    hide OnSchedule, RingHonest;
    NothingSeen(y);
  }

  lemma RttOnTime(x: Node, y: Node, q: Sent, now: uint64, p: int32, dx: int, dy: int)
    requires End(x, y, p) && End(y, x, p) && q in y.out
    requires Live(x) || Opens(x, q)
    requires !x.isServer ==> q.p.h.kind == Ack
    requires SteadyEnd(x, y, dx) && SteadyEnd(y, x, dy) && now == q.due + dx
    ensures Cong(Result(x, q, now).1.rtt, dx + q.p.h.clockdiff)
  {
    hide U32, U64, Cong, Aligned, RingRead, LastReceipts, AcksHonest, RingHonest, S32, Calibrate, Filed,
      Rtt, Delay, CountAcks, ClockOffset;
    var s, rx := Before(x, q, now), Seen(q);
    var s1 := Aligned(s, rx.h, now);
    BeforeReceiving(x, y, q, now, p);
    StampOf(y, q, p);
    SeenHeader(q);
    DueAt(now, q.due, dx, y.origin, q.p.h.id * p);
    SettledStays(s, rx.h, now, y.origin + dx);
    RemoteOrigin(s, rx, now);
    TruncatedDue(q.p.h.txtime, q.due, y.origin + q.p.h.id * p);
    RemoteOriginCong(s, rx.h, now, y.origin);
    RttCong(s1, rx.h);
    RttOf(Rtt(s1, rx.h), s1.startRxtime, s1.startRtxtime, rx.h.clockdiff, y.origin, dx);
  }

  lemma RttOf(rtt: int, r: int, t: int, c: int, origin: int, d: int)
    requires Cong(rtt, r - t + c) && Cong(r, origin + d) && Cong(t, origin)
    ensures Cong(rtt, d + c)
  {
    hide Cong;
    var k0 := Quotient(rtt, r - t + c);
    var k1 := Quotient(r, origin + d);
    var k2 := Quotient(t, origin);
    MultipleCong(rtt, d + c, k0 + k1 - k2);
  }

  lemma HalfOfTrip(rtt: int32)
    ensures Cong(LatRx(0, rtt), Quot(rtt, 2))
    ensures rtt >= 0 ==> LatRx(0, rtt) == rtt / 2
  {
    S32Cong(Quot(rtt, 2));
  }

  lemma SwapHalf(lat: int, half: int, t: int, trip: int)
    requires Cong(lat, half) && Cong(lat + t, trip)
    ensures Cong(half + t, trip)
  {
    hide Cong;
    var k0 := Quotient(lat, half);
    var k1 := Quotient(lat + t, trip);
    MultipleCong(half + t, trip, k1 - k0);
  }

  lemma OtherHalf(t: int32, trip: int)
    requires 0 <= trip < 0x8000_0000 && Cong(trip / 2 + t, trip)
    ensures t == trip - trip / 2
  {
    hide Cong;
    var k := Quotient(trip / 2 + t, trip);
    MultipleCong(t, trip - trip / 2, k);
    CongInt32(t, trip - trip / 2);
  }

  lemma RttIffNoSentinel(rtt: int32, dx: int, dy: int, wire: uint32, origin: int)
    requires wire == Report(origin, dy) && Cong(rtt, dx + wire)
    requires 0 <= dx + dy < 0x8000_0000
    ensures rtt == dx + dy <==> (U32(origin) != 0 || Cong(dy, 0))
  {
    hide U32, Cong;
    U32Cong(dy);
    var k := Quotient(rtt, dx + wire);
    if U32(origin) != 0 {
      var k1 := Quotient(U32(dy), dy);
      MultipleCong(rtt, dx + dy, k + k1);
      CongInt32(rtt, dx + dy);
    } else if Cong(dy, 0) {
      var k1 := Quotient(dy, 0);
      MultipleCong(rtt, dx + dy, k - k1);
      CongInt32(rtt, dx + dy);
    } else if rtt == dx + dy {
      MultipleCong(dy, 0, k);
    }
  }

  // ---- before it has received anything in this negotiation ----

  /** What an end reports until then: what it knew before. */
  function OldReport(s: Sess): uint32 {
    if s.startRtxtime != 0 then U32(s.startRxtime - s.startRtxtime) else 0
  }

  ghost predicate Reports(x: Node, stale: uint32) {
    && (x.arrivals == [] ==> OldReport(x.s) == stale)
    && forall i :: 0 <= i < |x.out| && x.out[i].seen == 0 ==> x.out[i].p.h.clockdiff == stale
  }

  lemma StepReports(w: World, e: Event, stale: uint32)
    requires Enabled(w, e) && Reports(w.client, stale)
    ensures Reports(Step(w, e).client, stale)
  {
    hide Result, U32, U64;
  }

  /** A client that starts a negotiation reports the clock difference of the one before, until it has
      received a packet: 0 if it is its first. */
  lemma {:induction false} ReportsTheOld(w0: World, es: seq<Event>)
    requires Fresh(w0) && ValidRun(w0, es)
    ensures Reports(Run(w0, es).client, OldReport(w0.client.s))
    decreases |es|
  {
    hide Reports, Step, Enabled, OldReport;
    if es == [] {
      assert Reports(w0.client, OldReport(w0.client.s)) by { NothingReported(w0); }
    } else {
      ReportsTheOld(w0, es[..|es| - 1]);
      StepReports(Run(w0, es[..|es| - 1]), es[|es| - 1], OldReport(w0.client.s));
    }
  }

  lemma NothingReported(w0: World)
    requires Fresh(w0)
    ensures Reports(w0.client, OldReport(w0.client.s))
  {
    hide OldReport;
  }

  /** So the round trip the server shows for a client's first packet is the true one exactly if the
      old difference is the client's delay, as it is if clocks, delays and schedules have stayed
      as they were; and the server averages it unless it was 0. */
  lemma {:induction false} OldReportIff(w0: World, es: seq<Event>, d: Delays, f: Figures)
    requires Fresh(w0) && ValidRun(w0, es) && Constant(Run(w0, es), d)
    requires 0 <= d.Trip() < 0x8000_0000
    requires f in Run(w0, es).server.shown && f.q in Run(w0, es).client.out && f.q.seen == 0
    ensures f.out.rtt == d.Trip() <==> Cong(OldReport(w0.client.s), d.atClient)
  {
    hide Fresh, Run, ValidRun, Constant, OldReport, Cong, U32;
    var w := Run(w0, es);
    ReportsTheOld(w0, es);
    SteadyState(w0, es, d);
    assert SteadyFigure(f, w.server.origin, w.client.origin, d.atServer, d.atClient);
    TripIff(f.out.rtt, d.atServer, d.atClient, OldReport(w0.client.s));
  }

  lemma TripIff(rtt: int32, dx: int, dy: int, wire: int)
    requires Cong(rtt, dx + wire) && 0 <= dx + dy < 0x8000_0000
    ensures rtt == dx + dy <==> Cong(wire, dy)
  {
    hide Cong;
    var k := Quotient(rtt, dx + wire);
    if Cong(wire, dy) {
      var k1 := Quotient(wire, dy);
      MultipleCong(rtt, dx + dy, k + k1);
      CongInt32(rtt, dx + dy);
    }
    if rtt == dx + dy { MultipleCong(wire, dy, -k); }
  }

  // ---- a run that hits the sentinel ----

  /** A client that adopts its cookie at microsecond 1000, with a period of 1000: its schedule
      origin is 0. */
  function SentinelStart(): World {
    var reply := Packet(ZERO_HEADER.(usecPerPkt := 1000), ZeroPayload());
    World(Node(AdoptCookie(NewSess(0, 1000), reply, 1000), false, 0, [], [], [], [], 0, true, [], 0),
          Node(NewSess(0, 1000), true, 0, [], [], [], [], 0, true, [], 0))
  }

  /** Packet 1 there, 100 usec on the way, and packet 1 back, 50 usec on the way. */
  function SentinelRun(): seq<Event> {
    [Transmit(false)] + [Deliver(true, 0, 1100)] + [Transmit(true)] + [Deliver(false, 0, 11150)]
  }

  lemma NextStep(w0: World, es: seq<Event>, e: Event)
    requires ValidRun(w0, es) && Enabled(Run(w0, es), e)
    ensures ValidRun(w0, es + [e]) && Run(w0, es + [e]) == Step(Run(w0, es), e)
  {
    hide Step, Enabled;
    assert (es + [e])[..|es|] == es;
  }

  lemma SentinelFresh()
    ensures Fresh(SentinelStart()) && Live(SentinelStart().client)
    ensures SentinelStart().client.s.nextSend == 1000 && SentinelStart().client.s.state == CookieGenerated
    ensures SentinelStart().client.s.nextTxId == 1 && SentinelStart().client.s.usecPerPkt == 1000
  {
    hide WithCookie;
    var reply := Packet(ZERO_HEADER.(usecPerPkt := 1000), ZeroPayload());
    var x := SentinelStart().client;
    assert S32(1000) == 1000;
    assert x == Node(AdoptCookie(NewSess(0, 1000), reply, 1000), false, 1000 - S32(reply.h.usecPerPkt), [], [], [], [], 0, true, [], 0);
  }

  lemma HelloSent(w1: World)
    requires w1 == Step(SentinelStart(), Transmit(false))
    ensures w1.server == SentinelStart().server && Live(w1.client)
    ensures w1.client == SentinelStart().client.(s := w1.client.s, out := w1.client.out)
    ensures |w1.client.out| == 1 && w1.client.out[0].due == 1000
    ensures var h := w1.client.out[0].p.h; h.kind == Handshake && h.id == 1 && h.usecPerPkt == 1000
  {
    hide WithCookie, U64;
    SentinelFresh();
    assert U32(1) == 1 && U32(1000) == 1000;
  }

  lemma HelloReceived(w1: World, w2: World)
    requires w1.server == SentinelStart().server
    requires |w1.client.out| == 1 && w1.client.out[0].due == 1000
    requires var h := w1.client.out[0].p.h; h.kind == Handshake && h.id == 1 && h.usecPerPkt == 1000
    requires w2 == Step(w1, Deliver(true, 0, 1100))
    ensures w2.client == w1.client && Live(w2.server) && w2.server.out == [] && w2.server.isServer
    ensures w2.server.s.state == Established && w2.server.s.nextSend == 11_100
    ensures w2.server.arrivals == [Arrival(1, 1100, 1000)]
    ensures Punctual(w2.server, 100)
  {
    hide Receive, RingRead, S32, U32;
    var q := w1.client.out[0];
    assert U64(11_100) == 11_100;
    ReceiveFrame(Before(w1.server, q, 1100), Seen(q), 1100);
  }

  lemma AckSent(w2: World, w3: World)
    requires Live(w2.server) && w2.server.out == [] && w2.server.s.state == Established && w2.server.s.nextSend == 11_100
    requires w2.server.arrivals == [Arrival(1, 1100, 1000)] && w3 == Step(w2, Transmit(true))
    ensures w3.client == w2.client && w3.server.shown == w2.server.shown && w3.server.arrivals == w2.server.arrivals
    ensures |w3.server.out| == 1
    ensures var q := w3.server.out[0]; q.due == 11_100 && q.seen == 1 && q.p.h.kind == Ack
  {
    hide U32, U64;
  }

  lemma AckReceived(w3: World, w4: World, p: int32)
    requires AcksHonest(w3.server) && |w3.server.out| == 1 && w3.server.arrivals == [Arrival(1, 1100, 1000)]
    requires var q := w3.server.out[0]; q.due == 11_100 && q.seen == 1 && q.p.h.kind == Ack
    requires w3.client.shown == [] && w3.client.counted == [] && w3.client.heard == [] && !w3.client.isServer
    requires w4 == Step(w3, Deliver(false, 0, 11_150))
    ensures w4.server == w3.server && w4.client.origin == w3.client.origin && w4.client.out == w3.client.out
    ensures |w4.client.shown| == 1 && Punctual(w4.client, 50)
    ensures w4.client.counted == Ids(w4.client.shown[0].out.samples)
    ensures exists zeros :: w4.client.heard == zeros + [1] && forall i :: 0 <= i < |zeros| ==> zeros[i] == 0
  {
    hide Result, RingRead, Before;
    var q := w3.server.out[0];
    assert HonestAcks(q, w3.server.arrivals);
    var r := Receipts(w3.server.arrivals[..1]);
    assert r == [AckSlot(1, U32(1100))];
    assert RingRead(q.p.data, q.p.h.firstAck) == LastReceipts(r);
    var ids := AckIds(LastReceipts(r));
    assert w4.client.heard == ids == ids[..63] + [1];
  }

  /** Constant delays, one packet each way, and the round trip the client then shows is not their
      sum: the server had reported no clock difference. */
  lemma {:induction false} SentinelHit()
    ensures var w0, es, d := SentinelStart(), SentinelRun(), Delays(50, 100);
      && Fresh(w0) && ValidRun(w0, es) && Constant(Run(w0, es), d)
      && var shown := Run(w0, es).client.shown;
         |shown| == 1 && shown[0].out.samples != [] && shown[0].out.rtt != d.Trip()
  {
    hide Run, ValidRun, Step, Fresh, Records, MaxOf, SteadyFigure, OneOrigin, Inv;
    var w0 := SentinelStart();
    SentinelFresh();
    assert ValidRun(w0, []) && Run(w0, []) == w0 by { EmptyRun(w0); }
    var e1 := [] + [Transmit(false)];
    NextStep(w0, [], Transmit(false));
    HelloSent(Run(w0, e1));
    var e2 := e1 + [Deliver(true, 0, 1100)];
    NextStep(w0, e1, Deliver(true, 0, 1100));
    HelloReceived(Run(w0, e1), Run(w0, e2));
    var e3 := e2 + [Transmit(true)];
    NextStep(w0, e2, Transmit(true));
    AckSent(Run(w0, e2), Run(w0, e3));
    var e4 := e3 + [Deliver(false, 0, 11_150)];
    NextStep(w0, e3, Deliver(false, 0, 11_150));
    assert AcksHonest(Run(w0, e3).server) by { HonestRun(w0, e3); }
    AckReceived(Run(w0, e3), Run(w0, e4), 1000);
    assert e4 == SentinelRun();
    SentinelShown(w0, e4);
  }

  lemma EmptyRun(w0: World)
    ensures ValidRun(w0, []) && Run(w0, []) == w0
  {
  }

  lemma HonestRun(w0: World, es: seq<Event>)
    requires Fresh(w0) && ValidRun(w0, es)
    ensures AcksHonest(Run(w0, es).server)
  {
    hide Fresh, Run, ValidRun;
    RunKeeps(w0, es);
  }

  lemma SentinelShown(w0: World, es: seq<Event>)
    requires Fresh(w0) && Resumes(w0) && w0.client.before == 0
    requires ValidRun(w0, es) && Constant(Run(w0, es), Delays(50, 100))
    requires |Run(w0, es).client.shown| == 1 && |Run(w0, es).client.out| == |Run(w0, es).server.out| == 1
    requires Run(w0, es).client.origin == 0
    requires Run(w0, es).client.counted == Ids(Run(w0, es).client.shown[0].out.samples)
    requires exists zeros :: Run(w0, es).client.heard == zeros + [1] && forall i :: 0 <= i < |zeros| ==> zeros[i] == 0
    ensures var f := Run(w0, es).client.shown[0]; f.out.samples != [] && f.out.rtt != 150
  {
    hide Fresh, Run, ValidRun, Constant, Records, MaxOf, SteadyFigure, OneOrigin;
    var w := Run(w0, es);
    CountedAreTheRecords(w0, es);
    var zeros :| w.client.heard == zeros + [1] && forall i :: 0 <= i < |zeros| ==> zeros[i] == 0;
    OneRecord(zeros);
    SteadyState(w0, es, Delays(50, 100));
    assert w.client.shown[0] in w.client.shown;
    NotTrip(w.client.shown[0], w.client.origin, w.server.origin);
  }

  lemma NotTrip(f: Figures, xo: int, yo: int)
    requires SteadyFigure(f, xo, yo, 50, 100) && xo == 0 && f.out.samples != []
    ensures f.out.rtt != 150
  {
  }

  // ---- a run that begins with an old report ----

  /** The same client, but one that knew a clock difference of 1000 usec from a negotiation before. */
  function SecondStart(): World {
    var reply := Packet(ZERO_HEADER.(usecPerPkt := 1000), ZeroPayload());
    var known := NewSess(0, 1000).(startRtxtime := 7, startRxtime := 1007);
    World(Node(AdoptCookie(known, reply, 1000), false, 0, [], [], [], [], 0, true, [], 0),
          Node(NewSess(0, 1000), true, 0, [], [], [], [], 0, true, [], 0))
  }

  /** Its packet 1 arrives 100 usec later, and the round trip the server shows for it is not the sum of
      the delays. */
  lemma {:induction false} OldReportHit()
    ensures var w0, es, d := SecondStart(), [Transmit(false)] + [Deliver(true, 0, 1100)], Delays(50, 100);
      && Fresh(w0) && ValidRun(w0, es) && Constant(Run(w0, es), d)
      && var shown := Run(w0, es).server.shown;
         |shown| == 1 && shown[0].q.p.h.clockdiff != 0 && shown[0].out.rtt != d.Trip()
  {
    hide Run, ValidRun, Step, Fresh;
    var w0, d := SecondStart(), Delays(50, 100);
    SecondFresh();
    EmptyRun(w0);
    NextStep(w0, [], Transmit(false));
    var e1 := [] + [Transmit(false)];
    SecondSent(Run(w0, e1));
    NextStep(w0, e1, Deliver(true, 0, 1100));
    var es := e1 + [Deliver(true, 0, 1100)];
    assert es == [Transmit(false)] + [Deliver(true, 0, 1100)];
    SecondReceived(Run(w0, e1), Run(w0, es));
    OldReportIff(w0, es, d, Run(w0, es).server.shown[0]);
    NotThe50(OldReport(w0.client.s));
    assert Run(w0, es).server.shown[0].q.p.h.clockdiff == OldReport(w0.client.s) by { ReportsTheOld(w0, es); }
  }

  lemma NotThe50(x: int)
    requires x == 1000
    ensures !Cong(x, 50)
  {
  }

  lemma SecondFresh()
    ensures Fresh(SecondStart()) && Live(SecondStart().client) && OldReport(SecondStart().client.s) == 1000
  {
    hide WithCookie;
    var reply := Packet(ZERO_HEADER.(usecPerPkt := 1000), ZeroPayload());
    var known := NewSess(0, 1000).(startRtxtime := 7, startRxtime := 1007);
    var x := SecondStart().client;
    assert S32(1000) == 1000 && U32(1000) == 1000;
    assert x == Node(AdoptCookie(known, reply, 1000), false, 1000 - S32(reply.h.usecPerPkt), [], [], [], [], 0, true, [], 0);
  }

  lemma SecondSent(w1: World)
    requires w1 == Step(SecondStart(), Transmit(false))
    ensures w1.server == SecondStart().server && w1.client.shown == []
    ensures |w1.client.out| == 1 && w1.client.out[0].due == 1000 && w1.client.out[0].seen == 0
    ensures w1.client.out[0].p.h.kind == Handshake
  {
    hide WithCookie, U64;
    SecondFresh();
  }

  lemma SecondReceived(w1: World, w2: World)
    requires w1.server == SecondStart().server && w1.client.shown == []
    requires |w1.client.out| == 1 && w1.client.out[0].due == 1000 && w1.client.out[0].seen == 0
    requires w1.client.out[0].p.h.kind == Handshake && w2 == Step(w1, Deliver(true, 0, 1100))
    ensures w2.client == w1.client && |w2.server.shown| == 1 && w2.server.shown[0].q == w1.client.out[0]
    ensures Constant(w2, Delays(50, 100))
  {
    hide Result, Before, Seen;
  }
}
