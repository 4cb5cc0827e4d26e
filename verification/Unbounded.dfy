/** handle_ack_packet over true integers, and the proof that the wrapping machine
    computes it as long as true differences stay below 2^31. */
module Unbounded {
  import opened Words
  import opened Wire
  import opened Engine
  import opened Measure

  /** An ack in a packet, with the true arrival time; id 0 is an empty slot. */
  datatype TrueAck = TrueAck(id: nat, rxtime: int)

  datatype Report = Unknown | Known(difference: int)

  datatype TruePacket = TruePacket(id: nat, txtime: int, report: Report, acks: seq<TrueAck>)

  datatype TrueSess = TrueSess(
    period: int, nextTxId: nat, nextSend: int,
    nextRxId: nat, nextRxackId: nat,
    remoteOrigin: int, origin: int,
    minDelay: int, nextCycle: int, numLost: nat,
    latTx: Stats, latRx: Stats)

  datatype TrueSample = TrueSample(id: nat, txdiff: int)

  /** The round trip is only meant where the peer has reported its clock difference, or acks
      something: before, it is just how far the clocks are apart. */
  datatype TrueOutcome = TrueOutcome(rxdiff: int, rtt: int, measured: bool, samples: seq<TrueSample>)

  predicate Measures(k: TruePacket) {
    k.report.Known? || exists i :: 0 <= i < |k.acks| && k.acks[i].id != 0
  }

  // ---- the model: no wrapping anywhere ----

  function Meet(t: TrueSess, k: TruePacket, now: int): TrueSess {
    if t.nextRxId != 0 then t
    else t.(remoteOrigin := k.txtime - k.id * t.period,
            origin := now - k.id * t.period,
            minDelay := 0,
            nextRxId := k.id,
            nextCycle := now + USEC_PER_CYCLE)
  }

  function CountGap(t: TrueSess, id: nat): TrueSess {
    if id > t.nextRxId then t.(numLost := t.numLost + (id - t.nextRxId), nextRxId := id + 1)
    else if id == t.nextRxId then t.(nextRxId := id + 1)
    else t
  }

  function TrueDelay(t: TrueSess, id: nat, now: int): int { now - t.origin - id * t.period }

  function Uncross(t: TrueSess, id: nat, now: int): TrueSess {
    if TrueDelay(t, id, now) < -20 then t.(origin := now - id * t.period) else t
  }

  function TrueRtt(t: TrueSess, r: Report): int {
    t.origin - t.remoteOrigin + if r.Known? then r.difference else 0
  }

  function TrueOffset(t: TrueSess, r: Report): int {
    t.origin - t.remoteOrigin - Quot(TrueRtt(t, r), 2)
  }

  function EndCycle(t: TrueSess, rxdiff: int, now: int): TrueSess {
    var m := if rxdiff < t.minDelay then rxdiff else t.minDelay;
    if now >= t.nextCycle then
      t.(origin := if m > 0 then t.origin + m else t.origin,
         minDelay := INT32_MAX,
         nextCycle := t.nextCycle + USEC_PER_CYCLE)
    else t.(minDelay := m)
  }

  function TrueTxDiff(t: TrueSess, offset: int, a: TrueAck): int {
    a.rxtime + offset - (t.nextSend - t.nextTxId * t.period + a.id * t.period)
  }

  function CountTrueAck(t: TrueSess, offset: int, a: TrueAck): (TrueSess, seq<TrueSample>) {
    if a.id != 0 && a.id >= t.nextRxackId then
      var d := TrueTxDiff(t, offset, a);
      (t.(nextRxackId := a.id + 1, latTx := t.latTx.Add(d)), [TrueSample(a.id, d)])
    else (t, [])
  }

  function CountTrueAcks(t: TrueSess, offset: int, acks: seq<TrueAck>): (TrueSess, seq<TrueSample>) {
    if acks == [] then (t, [])
    else
      var before := CountTrueAcks(t, offset, acks[..|acks| - 1]);
      var one := CountTrueAck(before.0, offset, acks[|acks| - 1]);
      (one.0, before.1 + one.1)
  }

  function TrueAligned(t: TrueSess, k: TruePacket, now: int): TrueSess {
    Uncross(CountGap(Meet(t, k, now), k.id), k.id, now)
  }

  function TrueFiled(t: TrueSess, k: TruePacket, now: int): TrueSess {
    var t1 := TrueAligned(t, k, now);
    var rxdiff := TrueDelay(t1, k.id, now);
    var t2 := if k.report.Known?
              then t1.(latRx := t1.latRx.Add(rxdiff + Quot(TrueRtt(t1, k.report), 2))) else t1;
    EndCycle(t2, rxdiff, now)
  }

  function TrueReceive(t: TrueSess, k: TruePacket, now: int): (TrueSess, TrueOutcome) {
    var t1 := TrueAligned(t, k, now);
    var counted := CountTrueAcks(TrueFiled(t, k, now), TrueOffset(t1, k.report), k.acks);
    (counted.0, TrueOutcome(TrueDelay(t1, k.id, now), TrueRtt(t1, k.report), Measures(k), counted.1))
  }

  function TrueSend(t: TrueSess): TrueSess {
    t.(nextTxId := t.nextTxId + 1, nextSend := t.nextSend + t.period)
  }

  // ---- what the machine holds of it ----

  ghost predicate Held(s: Sess, t: TrueSess) {
    && s.usecPerPkt == t.period
    && s.nextTxId == t.nextTxId && Cong(s.nextSend, t.nextSend)
    && s.nextRxId == t.nextRxId && s.nextRxackId == t.nextRxackId
    && (s.nextRxId != 0 ==> HeldOrigin(s, t))
    && s.numLost == t.numLost && s.latTx == t.latTx && s.latRx == t.latRx
  }

  ghost predicate HeldOrigin(s: Sess, t: TrueSess) {
    && Cong(s.startRxtime, t.origin) && Cong(s.startRtxtime, t.remoteOrigin)
    && s.minCycleRxdiff == t.minDelay && Cong(s.nextCycle, t.nextCycle)
  }

  ghost predicate Carried(rx: Packet, k: TruePacket) {
    && rx.h.id == k.id && rx.h.txtime == U32(k.txtime)
    && rx.h.clockdiff == (if k.report.Known? then U32(k.report.difference) else 0)
    && (k.report.Known? ==> U32(k.report.difference) != 0)  // 0 is the wire's "unknown"
    && |k.acks| == 64
    && forall i :: 0 <= i < 64 ==> CarriedAck(RingRead(rx.data, rx.h.firstAck)[i], k.acks[i])
  }

  ghost predicate CarriedAck(a: AckSlot, b: TrueAck) { a.id == b.id && a.rxtime == U32(b.rxtime) }

  // ---- the assumption of the header: true differences fit 31 bits. The difference of the two
  // ---- clocks is none of them.

  predicate Fits(x: int) { -0x8000_0000 <= x < 0x8000_0000 }

  predicate FitsAcks(t: TrueSess, offset: int, acks: seq<TrueAck>) {
    acks == [] ||
    var k := |acks| - 1;
    var before := CountTrueAcks(t, offset, acks[..k]).0;
    && FitsAcks(t, offset, acks[..k])
    && (acks[k].id != 0 ==>
          && Fits(acks[k].id - before.nextRxackId) && acks[k].id < 0xffff_ffff
          && Fits(TrueTxDiff(before, offset, acks[k])))
  }

  predicate FitsHeader(t: TrueSess, k: TruePacket, now: int) {
    var t0 := Meet(t, k, now);
    var t1 := TrueAligned(t, k, now);
    && 0 < k.id < 0xffff_ffff
    && Fits(k.id - t0.nextRxId) && t0.numLost + k.id < 0x1_0000_0000 + t0.nextRxId
    && Fits(TrueDelay(t0, k.id, now))
    && (Measures(k) ==> Fits(TrueRtt(t1, k.report)))
    && (k.report.Known? ==> Fits(TrueDelay(t1, k.id, now) + Quot(TrueRtt(t1, k.report), 2)))
    && Fits(now - t0.nextCycle)
  }

  predicate FitsAll(t: TrueSess, k: TruePacket, now: int) {
    && FitsHeader(t, k, now)
    && FitsAcks(TrueFiled(t, k, now), TrueOffset(TrueAligned(t, k, now), k.report), k.acks)
  }

  // ---- one reception refines ----

  lemma MeetRefines(s: Sess, rx: Packet, t: TrueSess, k: TruePacket, now: uint64)
    requires Held(s, t) && Carried(rx, k)
    ensures var c, u := Calibrate(s, rx.h, now), Meet(t, k, now);
      && (k.id != 0 ==> Held(c, u)) && HeldOrigin(c, u)
  {
    hide U32, U64, Cong, SlotTime, RingRead;
    if s.nextRxId == 0 {
      var x := k.id * t.period;
      BackdateCong(now, rx.h.id, s.usecPerPkt);
      U32Cong(k.txtime);
      U32Cong(rx.h.txtime - SlotTime(rx.h.id, s.usecPerPkt));
      SlotTimeCong(rx.h.id, s.usecPerPkt);
      DiffSum(U32(rx.h.txtime - SlotTime(rx.h.id, s.usecPerPkt)), rx.h.txtime, k.txtime,
              SlotTime(rx.h.id, s.usecPerPkt), x);
      U32Cong(now + USEC_PER_CYCLE);
    }
  }

  lemma GapRefines(c: Sess, u: TrueSess, id: uint32)
    requires Held(c, u) && HeldOrigin(c, u) && 0 < id < 0xffff_ffff
    requires Fits(id - u.nextRxId) && u.numLost + id < 0x1_0000_0000 + u.nextRxId
    ensures Held(CountLoss(c, id), CountGap(u, id)) && HeldOrigin(CountLoss(c, id), CountGap(u, id))
  {
    hide Diff, Cong;
    DiffExact(id, c.nextRxId);
  }

  lemma DelayRefines(c: Sess, u: TrueSess, id: uint32, now: uint64)
    requires Held(c, u) && HeldOrigin(c, u) && Fits(TrueDelay(u, id, now))
    ensures Delay(c, id, now) == TrueDelay(u, id, now)
  {
    hide Delay, Cong;
    var x := id * c.usecPerPkt;
    var q := Quotient(c.startRxtime, u.origin);
    MultipleCong(now - c.startRxtime - x, TrueDelay(u, id, now), -q);
    DelayAgainst(c, id, now, TrueDelay(u, id, now));
  }

  lemma UncrossRefines(c: Sess, u: TrueSess, id: uint32, now: uint64)
    requires Held(c, u) && HeldOrigin(c, u) && Fits(TrueDelay(u, id, now))
    ensures Held(Backslide(c, id, now), Uncross(u, id, now))
    ensures HeldOrigin(Backslide(c, id, now), Uncross(u, id, now))
    ensures Fits(TrueDelay(Uncross(u, id, now), id, now))
  {
    hide Delay, Cong, U64, SlotTime;
    DelayRefines(c, u, id, now);
    BackdateCong(now, id, c.usecPerPkt);
  }

  lemma AlignedRefines(s: Sess, rx: Packet, t: TrueSess, k: TruePacket, now: uint64)
    requires Held(s, t) && Carried(rx, k) && FitsHeader(t, k, now)
    ensures var c, u := Aligned(s, rx.h, now), TrueAligned(t, k, now);
      && Held(c, u) && HeldOrigin(c, u)
      && Delay(c, rx.h.id, now) == TrueDelay(u, k.id, now)
      && c.nextCycle == Calibrate(s, rx.h, now).nextCycle && u.nextCycle == Meet(t, k, now).nextCycle
  {
    hide Held, HeldOrigin, Delay, U32, U64, Diff, SlotTime, RingRead;
    MeetRefines(s, rx, t, k, now);
    var c, u := Calibrate(s, rx.h, now), Meet(t, k, now);
    GapRefines(c, u, rx.h.id);
    UncrossRefines(CountLoss(c, rx.h.id), CountGap(u, k.id), rx.h.id, now);
    DelayRefines(Aligned(s, rx.h, now), TrueAligned(t, k, now), rx.h.id, now);
  }

  lemma RttRefines(c: Sess, u: TrueSess, rx: Packet, k: TruePacket)
    requires Held(c, u) && HeldOrigin(c, u) && Carried(rx, k)
    ensures Cong(Rtt(c, rx.h), TrueRtt(u, k.report))
    ensures Fits(TrueRtt(u, k.report)) ==>
      Rtt(c, rx.h) == TrueRtt(u, k.report) && Cong(ClockOffset(c, rx.h), TrueOffset(u, k.report))
  {
    hide Rtt, ClockOffset, Quot, Cong, U32, RingRead;
    RttCong(c, rx.h);
    var d := if k.report.Known? then k.report.difference else 0;
    U32Cong(d);
    CongSelf(0);
    var q0 := Quotient(c.startRxtime, u.origin);
    var q1 := Quotient(c.startRtxtime, u.remoteOrigin);
    var q2 := Quotient(rx.h.clockdiff, d);
    var q3 := Quotient(Rtt(c, rx.h), c.startRxtime - c.startRtxtime + rx.h.clockdiff);
    MultipleCong(Rtt(c, rx.h), TrueRtt(u, k.report), q0 - q1 + q2 + q3);
    if Fits(TrueRtt(u, k.report)) {
      CongInt32(Rtt(c, rx.h), TrueRtt(u, k.report));
      var half := Quot(Rtt(c, rx.h), 2);
      var q4 := Quotient(ClockOffset(c, rx.h), c.startRxtime - c.startRtxtime - half);
      MultipleCong(ClockOffset(c, rx.h), TrueOffset(u, k.report), q0 - q1 + q4);
    }
  }

  lemma CycleRefines(c: Sess, u: TrueSess, rxdiff: int32, now: uint64)
    requires Held(c, u) && HeldOrigin(c, u) && Fits(now - u.nextCycle)
    ensures Held(CloseCycle(c, rxdiff, now), EndCycle(u, rxdiff, now))
    ensures HeldOrigin(CloseCycle(c, rxdiff, now), EndCycle(u, rxdiff, now))
  {
    hide Diff, U64, U32, Cong;
    DiffCong(now, c.nextCycle);
    var q := Quotient(c.nextCycle, u.nextCycle);
    var q0 := Quotient(Diff(now, c.nextCycle), now - c.nextCycle);
    MultipleCong(Diff(now, c.nextCycle), now - u.nextCycle, q0 - q);
    CongInt32(Diff(now, c.nextCycle), now - u.nextCycle);
    var m := if rxdiff < c.minCycleRxdiff then rxdiff else c.minCycleRxdiff;
    AddCong(U64(c.startRxtime + m), c.startRxtime, u.origin, m) by { U64Cong(c.startRxtime + m); }
    AddCong(U32(c.nextCycle + USEC_PER_CYCLE), c.nextCycle, u.nextCycle, USEC_PER_CYCLE)
      by { U32Cong(c.nextCycle + USEC_PER_CYCLE); }
  }

  lemma AddCong(r: int, a: int, b: int, m: int)
    requires Cong(r, a + m) && Cong(a, b)
    ensures Cong(r, b + m)
  {
    hide Cong;
    var k0 := Quotient(r, a + m);
    var k1 := Quotient(a, b);
    MultipleCong(r, b + m, k0 + k1);
  }

  lemma FiledRefines(s: Sess, rx: Packet, t: TrueSess, k: TruePacket, now: uint64)
    requires Held(s, t) && Carried(rx, k) && FitsHeader(t, k, now)
    ensures Held(Filed(s, rx.h, now), TrueFiled(t, k, now))
  {
    hide Delay, Cong, U32, U64, Diff, SlotTime, RingRead, Aligned, TrueAligned, Rtt, TrueRtt, TrueDelay, Quot,
      WithSlot, CloseCycle, EndCycle;
    var c, u := Aligned(s, rx.h, now), TrueAligned(t, k, now);
    AlignedRefines(s, rx, t, k, now);
    RttRefines(c, u, rx, k);
    var rxdiff := Delay(c, rx.h.id, now);
    if k.report.Known? { LatRxExact(rxdiff, Rtt(c, rx.h)); }
    var c2 := if rx.h.clockdiff == 0 then c else c.(latRx := c.latRx.Add(LatRx(rxdiff, Rtt(c, rx.h))));
    var u2 := if k.report.Known?
              then u.(latRx := u.latRx.Add(rxdiff + Quot(TrueRtt(u, k.report), 2))) else u;
    assert u2.nextCycle == u.nextCycle;
    CycleRefines(c2, u2, rxdiff, now);
  }

  lemma LatRxExact(rxdiff: int32, rtt: int32)
    requires Fits(rxdiff + Quot(rtt, 2))
    ensures LatRx(rxdiff, rtt) == rxdiff + Quot(rtt, 2)
  {
    hide Quot;
  }

  ghost predicate SameSamples(ms: seq<Sample>, ts: seq<TrueSample>) {
    |ms| == |ts| && forall i :: 0 <= i < |ms| ==> ms[i].id == ts[i].id && ms[i].txdiff == ts[i].txdiff
  }

  lemma AckRefines(c: Sess, u: TrueSess, offset: int32, trueOffset: int, a: AckSlot, b: TrueAck)
    requires Held(c, u) && Cong(offset, trueOffset) && CarriedAck(a, b)
    requires b.id != 0 ==>
      Fits(b.id - u.nextRxackId) && b.id < 0xffff_ffff && Fits(TrueTxDiff(u, trueOffset, b))
    ensures Held(CountAck(c, offset, a).0, CountTrueAck(u, trueOffset, b).0)
    ensures SameSamples(CountAck(c, offset, a).1, CountTrueAck(u, trueOffset, b).1)
  {
    hide Diff, U32, Cong, TxDiff, TrueTxDiff, Stats.Add;
    if b.id != 0 {
      DiffExact(a.id, c.nextRxackId);
      TxDiffRefines(c, u, offset, trueOffset, a, b);
      assert U32(a.id + 1) == a.id + 1 by { SmallU32(a.id + 1); }
    }
  }

  lemma SmallU32(x: int)
    requires 0 <= x < 0x1_0000_0000
    ensures U32(x) == x
  {
  }

  lemma TxDiffRefines(c: Sess, u: TrueSess, offset: int32, trueOffset: int, a: AckSlot, b: TrueAck)
    requires Held(c, u) && Cong(offset, trueOffset) && CarriedAck(a, b)
    requires Fits(TrueTxDiff(u, trueOffset, b))
    ensures TxDiff(c, offset, a) == TrueTxDiff(u, trueOffset, b)
  {
    hide U32, Cong, TxDiff, HeldOrigin;
    TxDiffCong(c, offset, a);
    U32Cong(b.rxtime);
    var x, y := c.nextTxId * c.usecPerPkt, a.id * c.usecPerPkt;
    var q0 := Quotient(TxDiff(c, offset, a), a.rxtime + offset - (c.nextSend - x + y));
    var q1 := Quotient(offset, trueOffset);
    var q2 := Quotient(a.rxtime, b.rxtime);
    var q3 := Quotient(c.nextSend, u.nextSend);
    MultipleCong(TxDiff(c, offset, a), TrueTxDiff(u, trueOffset, b), q0 + q1 + q2 - q3);
    CongInt32(TxDiff(c, offset, a), TrueTxDiff(u, trueOffset, b));
  }

  lemma {:induction false} AcksRefine(c: Sess, u: TrueSess, offset: int32, trueOffset: int,
                                      acks: seq<AckSlot>, trueAcks: seq<TrueAck>)
    requires Held(c, u) && Cong(offset, trueOffset) && |acks| == |trueAcks|
    requires forall i :: 0 <= i < |acks| ==> CarriedAck(acks[i], trueAcks[i])
    requires FitsAcks(u, trueOffset, trueAcks)
    ensures Held(CountAcks(c, offset, acks).0, CountTrueAcks(u, trueOffset, trueAcks).0)
    ensures SameSamples(CountAcks(c, offset, acks).1, CountTrueAcks(u, trueOffset, trueAcks).1)
  {
    hide Held, Cong, CarriedAck, CountAck, CountTrueAck, TrueTxDiff, Fits;
    if acks != [] {
      var k := |acks| - 1;
      AcksRefine(c, u, offset, trueOffset, acks[..k], trueAcks[..k]);
      AckRefines(CountAcks(c, offset, acks[..k]).0, CountTrueAcks(u, trueOffset, trueAcks[..k]).0,
                 offset, trueOffset, acks[k], trueAcks[k]);
    }
  }

  /** Empty slots count for nothing, on the machine and in truth. */
  lemma {:induction false} NoAcks(c: Sess, offset: int32, acks: seq<AckSlot>)
    requires forall i :: 0 <= i < |acks| ==> acks[i].id == 0
    ensures CountAcks(c, offset, acks).0 == c && CountAcks(c, offset, acks).1 == []
  {
    if acks != [] { NoAcks(c, offset, acks[..|acks| - 1]); }
  }

  lemma {:induction false} NoTrueAcks(u: TrueSess, offset: int, acks: seq<TrueAck>)
    requires forall i :: 0 <= i < |acks| ==> acks[i].id == 0
    ensures CountTrueAcks(u, offset, acks).0 == u && CountTrueAcks(u, offset, acks).1 == []
  {
    if acks != [] { NoTrueAcks(u, offset, acks[..|acks| - 1]); }
  }

  /** What the machine shows of a true outcome. */
  ghost predicate SameOutcome(m: Outcome, o: TrueOutcome) {
    && m.rxdiff == o.rxdiff && Cong(m.rtt, o.rtt) && (o.measured ==> m.rtt == o.rtt)
    && SameSamples(m.samples, o.samples)
  }

  /** One packet: the machine takes the same branches and shows the same figures. */
  lemma {:induction false} ReceiveRefines(s: Sess, rx: Packet, t: TrueSess, k: TruePacket, now: uint64)
    requires Held(s, t) && Carried(rx, k) && FitsAll(t, k, now)
    ensures Held(Receive(s, rx, now).0, TrueReceive(t, k, now).0)
    ensures SameOutcome(Receive(s, rx, now).1, TrueReceive(t, k, now).1)
  {
    hide Delay, Cong, U32, Aligned, TrueAligned, Filed, TrueFiled, Rtt, TrueRtt, TrueDelay, ClockOffset, TrueOffset,
      RingRead, CountAcks, CountTrueAcks, FitsAcks;
    AlignedRefines(s, rx, t, k, now);
    RttRefines(Aligned(s, rx.h, now), TrueAligned(t, k, now), rx, k);
    FiledRefines(s, rx, t, k, now);
    var c, u := Filed(s, rx.h, now), TrueFiled(t, k, now);
    var offset, trueOffset := ClockOffset(Aligned(s, rx.h, now), rx.h), TrueOffset(TrueAligned(t, k, now), k.report);
    var acks := RingRead(rx.data, rx.h.firstAck);
    if Measures(k) {
      AcksRefine(c, u, offset, trueOffset, acks, k.acks);
    } else {
      NoAcks(c, offset, acks);
      NoTrueAcks(u, trueOffset, k.acks);
    }
  }

  // ---- whole runs ----

  datatype Event = Got(rx: Packet, k: TruePacket, now: uint64) | Sent

  function MachineRun(s0: Sess, es: seq<Event>): (Sess, seq<Outcome>) {
    if es == [] then (s0, [])
    else
      var before := MachineRun(s0, es[..|es| - 1]);
      match es[|es| - 1]
      case Sent => (SendTx(PrepareTx(before.0), true), before.1)
      case Got(rx, _, now) =>
        var r := Receive(before.0, rx, now);
        (r.0, before.1 + [r.1])
  }

  function TrueRun(t0: TrueSess, es: seq<Event>): (TrueSess, seq<TrueOutcome>) {
    if es == [] then (t0, [])
    else
      var before := TrueRun(t0, es[..|es| - 1]);
      match es[|es| - 1]
      case Sent => (TrueSend(before.0), before.1)
      case Got(_, k, now) =>
        var r := TrueReceive(before.0, k, now);
        (r.0, before.1 + [r.1])
  }

  /** The packets carry the truth modulo 2^32, and no true difference reaches 2^31. Times,
      products of id and period, and the difference of the clocks may be of any size. */
  ghost predicate TrueToLife(t0: TrueSess, es: seq<Event>) {
    es == [] ||
    var k := |es| - 1;
    var t := TrueRun(t0, es[..k]).0;
    && TrueToLife(t0, es[..k])
    && match es[k]
       case Sent => t.nextTxId < 0xffff_ffff
       case Got(rx, p, now) => Carried(rx, p) && FitsAll(t, p, now)
  }

  ghost predicate SameOutcomes(ms: seq<Outcome>, ts: seq<TrueOutcome>) {
    |ms| == |ts| && forall i :: 0 <= i < |ms| ==> SameOutcome(ms[i], ts[i])
  }

  lemma SendRefines(s: Sess, t: TrueSess)
    requires Held(s, t) && t.nextTxId < 0xffff_ffff
    ensures Held(SendTx(PrepareTx(s), true), TrueSend(t))
  {
    hide U64, Cong;
    U64Cong(s.nextSend + s.usecPerPkt);
    AddCong(U64(s.nextSend + s.usecPerPkt), s.nextSend, t.nextSend, t.period);
    SmallU32(s.nextTxId + 1);
  }

  /** A whole run on wrapping words shows, packet by packet, what the run over true
      integers shows, and ends holding the same loss count and statistics. */
  lemma {:induction false} RunRefines(s0: Sess, t0: TrueSess, es: seq<Event>)
    requires Held(s0, t0) && TrueToLife(t0, es)
    ensures Held(MachineRun(s0, es).0, TrueRun(t0, es).0)
    ensures SameOutcomes(MachineRun(s0, es).1, TrueRun(t0, es).1)
  {
    hide Held, Receive, TrueReceive, Carried, FitsAll, SendTx, PrepareTx, TrueSend, SameOutcome;
    if es != [] {
      var k := |es| - 1;
      RunRefines(s0, t0, es[..k]);
      match es[k]
      case Sent => SendRefines(MachineRun(s0, es[..k]).0, TrueRun(t0, es[..k]).0);
      case Got(rx, p, now) => ReceiveRefines(MachineRun(s0, es[..k]).0, rx, TrueRun(t0, es[..k]).0, p, now);
    }
  }
}
