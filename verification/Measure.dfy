/** What the wrapped 32- and 64-bit arithmetic of handle_ack_packet measures, modulo 2^32. */
module Measure {
  import opened Words
  import opened Wire
  import opened Engine

  lemma SlotTimeCong(id: uint32, p: int32)
    ensures Cong(SlotTime(id, p), id * p)
  {
    hide U32, Cong;
    U32Cong(id * p);
  }

  lemma DelayCong(s: Sess, id: uint32, now: uint64)
    ensures Cong(Delay(s, id, now), now - s.startRxtime - id * s.usecPerPkt)
  {
    hide U32, S32, Diff64, Cong;
    var x := s.startRxtime + SlotTime(id, s.usecPerPkt);
    Diff64Cong(now, x);
    S32Cong(Diff64(now, x));
    SlotTimeCong(id, s.usecPerPkt);
    DelaySum(Delay(s, id, now), Diff64(now, x), now, s.startRxtime,
             SlotTime(id, s.usecPerPkt), id * s.usecPerPkt);
  }

  lemma DelaySum(r: int, d: int, now: int, start: int, a: int, x: int)
    requires Cong(r, d) && Cong(d, now - (start + a)) && Cong(a, x)
    ensures Cong(r, now - start - x)
  {
    hide Cong;
    var k0 := Quotient(r, d);
    var k1 := Quotient(d, now - (start + a));
    var k2 := Quotient(a, x);
    MultipleCong(r, now - start - x, k0 + k1 - k2);
  }

  lemma DelayAgainst(s: Sess, id: uint32, now: uint64, d: int32)
    requires Cong(now - s.startRxtime - id * s.usecPerPkt, d)
    ensures Delay(s, id, now) == d
  {
    hide Delay, Cong;
    DelayCong(s, id, now);
    CongTrans(Delay(s, id, now), now - s.startRxtime - id * s.usecPerPkt, d);
    CongInt32(Delay(s, id, now), d);
  }

  /** The origin a packet implies: when packet 0 would have arrived with the same delay. */
  lemma BackdateCong(now: uint64, id: uint32, p: int32)
    ensures Cong(U64(now - SlotTime(id, p)), now - id * p)
  {
    hide U64, U32, SlotTime, Cong;
    U64Cong(now - SlotTime(id, p));
    SlotTimeCong(id, p);
    CongSelf(now);
    DiffSum(U64(now - SlotTime(id, p)), now, now, SlotTime(id, p), id * p);
  }

  lemma RttCong(s: Sess, h: Header)
    ensures Cong(Rtt(s, h), s.startRxtime - s.startRtxtime + h.clockdiff)
    ensures Cong(ClockOffset(s, h), s.startRxtime - s.startRtxtime - Quot(Rtt(s, h), 2))
  {
    hide Diff, S32, Quot, Cong;
    var c, g := ClockDiff(s), s.startRxtime - s.startRtxtime;
    var half := Quot(Rtt(s, h), 2);
    DiffCong(s.startRxtime, s.startRtxtime);
    S32Cong(c + h.clockdiff);
    DiffCong(c, half);
    RttSum(Rtt(s, h), ClockOffset(s, h), c, g, h.clockdiff, half);
  }

  lemma RttSum(r: int, o: int, c: int, g: int, d: int, half: int)
    requires Cong(r, c + d) && Cong(c, g) && Cong(o, c - half)
    ensures Cong(r, g + d) && Cong(o, g - half)
  {
    hide Cong;
    var k0 := Quotient(r, c + d);
    var k1 := Quotient(c, g);
    var k2 := Quotient(o, c - half);
    MultipleCong(r, g + d, k0 + k1);
    MultipleCong(o, g - half, k2 + k1);
  }

  lemma RebuiltCong(s: Sess, id: uint32)
    ensures Cong(Rebuilt(s, id), s.nextSend - s.nextTxId * s.usecPerPkt + id * s.usecPerPkt)
  {
    hide U32, SlotTime, Cong;
    var p := s.usecPerPkt;
    var start := s.nextSend - SlotTime(s.nextTxId, p);
    U32Cong(start);
    U32Cong(U32(start) + SlotTime(id, p));
    SlotTimeCong(s.nextTxId, p);
    SlotTimeCong(id, p);
    ScheduleSum(Rebuilt(s, id), U32(start), s.nextSend, SlotTime(s.nextTxId, p), SlotTime(id, p),
                s.nextTxId * p, id * p);
  }

  lemma ScheduleSum(r: int, start: int, next: int, a: int, b: int, x: int, y: int)
    requires Cong(r, start + b) && Cong(start, next - a) && Cong(a, x) && Cong(b, y)
    ensures Cong(r, next - x + y)
  {
    hide Cong;
    var k0 := Quotient(r, start + b);
    var k1 := Quotient(start, next - a);
    var k2 := Quotient(a, x);
    var k3 := Quotient(b, y);
    MultipleCong(r, next - x + y, k0 + k1 - k2 + k3);
  }

  lemma TxDiffCong(s: Sess, offset: int32, a: AckSlot)
    ensures Cong(TxDiff(s, offset, a),
                 a.rxtime + offset - (s.nextSend - s.nextTxId * s.usecPerPkt + a.id * s.usecPerPkt))
  {
    hide U32, Diff, Rebuilt, Cong;
    U32Cong(a.rxtime + offset);
    DiffCong(U32(a.rxtime + offset), Rebuilt(s, a.id));
    RebuiltCong(s, a.id);
    DiffSum(TxDiff(s, offset, a), U32(a.rxtime + offset), a.rxtime + offset, Rebuilt(s, a.id),
            s.nextSend - s.nextTxId * s.usecPerPkt + a.id * s.usecPerPkt);
  }

  ghost predicate SampleOf(s: Sess, offset: int32, acks: seq<AckSlot>, m: Sample) {
    exists i :: 0 <= i < |acks| && acks[i].id != 0
      && m == Sample(acks[i].id, acks[i].rxtime, Rebuilt(s, acks[i].id), TxDiff(s, offset, acks[i]))
  }

  lemma TxDiffSame(s: Sess, t: Sess, offset: int32, a: AckSlot)
    requires SameSender(s, t)
    ensures TxDiff(s, offset, a) == TxDiff(t, offset, a) && Rebuilt(s, a.id) == Rebuilt(t, a.id)
  {
    hide U32, Diff, SlotTime;
  }

  /** Every sample stems from a nonempty slot, measured against the unchanged schedule. */
  lemma {:induction false} SamplesFrom(s: Sess, offset: int32, acks: seq<AckSlot>)
    ensures forall m :: m in CountAcks(s, offset, acks).1 ==> SampleOf(s, offset, acks, m)
  {
    hide TxDiff, Counts, Rebuilt;
    if acks != [] {
      var k := |acks| - 1;
      var before := CountAcks(s, offset, acks[..k]);
      SamplesFrom(s, offset, acks[..k]);
      CountAcksFrame(s, offset, acks[..k]);
      TxDiffSame(s, before.0, offset, acks[k]);
      forall m | m in CountAcks(s, offset, acks).1
        ensures SampleOf(s, offset, acks, m)
      {
        if m in before.1 {
          var i :| 0 <= i < k && acks[..k][i].id != 0
            && m == Sample(acks[..k][i].id, acks[..k][i].rxtime, Rebuilt(s, acks[..k][i].id), TxDiff(s, offset, acks[..k][i]));
          assert acks[..k][i] == acks[i];
        } else {
          assert m == Sample(acks[k].id, acks[k].rxtime, Rebuilt(before.0, acks[k].id), TxDiff(before.0, offset, acks[k]));
          assert Counts(before.0, acks[k]);
          CountsNonzero(before.0, acks[k]);
        }
      }
    }
  }

  lemma CountsNonzero(s: Sess, a: AckSlot)
    requires Counts(s, a)
    ensures a.id != 0
  {
  }

  /** The half round trip and the origin cancel. */
  lemma HalvesCancel(lat: int, rxdiff: int, half: int, txdiff: int, offset: int,
                     now: int, start: int, rstart: int, due: int, rrx: int, mine: int)
    requires Cong(lat, rxdiff + half) && Cong(rxdiff, now - start - due)
    requires Cong(offset, start - rstart - half) && Cong(txdiff, rrx + offset - mine)
    ensures Cong(lat + txdiff, (now - rstart - due) + (rrx - mine))
  {
    hide Cong;
    var k0 := Quotient(lat, rxdiff + half);
    var k1 := Quotient(rxdiff, now - start - due);
    var k2 := Quotient(offset, start - rstart - half);
    var k3 := Quotient(txdiff, rrx + offset - mine);
    MultipleCong(lat + txdiff, (now - rstart - due) + (rrx - mine), k0 + k1 + k2 + k3);
  }

  /** One received packet and one ack counted with it: the receive latency and the
      transmit latency add up to what the two schedules and arrival times say,
      whatever the origin, the clock offset and the halving of the round trip. */
  lemma {:induction false} LatencySum(s: Sess, rx: Packet, now: uint64, m: Sample)
    requires m in Receive(s, rx, now).1.samples
    ensures var s1 := Aligned(s, rx.h, now);
      var out := Receive(s, rx, now).1;
      Cong(LatRx(out.rxdiff, out.rtt) + m.txdiff,
           (now - s1.startRtxtime - rx.h.id * s.usecPerPkt)
           + (m.rrxtime - (s.nextSend - s.nextTxId * s.usecPerPkt + m.id * s.usecPerPkt)))
    ensures exists i :: 0 <= i < 64 && RingRead(rx.data, rx.h.firstAck)[i] == AckSlot(m.id, m.rrxtime)
    ensures m.id != 0 && m.txtime == Rebuilt(s, m.id)
  {
    hide Aligned, Filed, Delay, TxDiff, Rebuilt, Rtt, ClockOffset, U32, S32, Diff, Quot, Cong;
    var s1, s3 := Aligned(s, rx.h, now), Filed(s, rx.h, now);
    var out := Receive(s, rx, now).1;
    AlignedFrame(s, rx.h, now);
    FiledFrame(s, rx.h, now);
    S32Cong(out.rxdiff + Quot(out.rtt, 2));
    var acks := RingRead(rx.data, rx.h.firstAck);
    SamplesFrom(s3, out.offset, acks);
    var i :| 0 <= i < |acks| && acks[i].id != 0
      && m == Sample(acks[i].id, acks[i].rxtime, Rebuilt(s3, acks[i].id), TxDiff(s3, out.offset, acks[i]));
    DelayCong(s1, rx.h.id, now);
    RttCong(s1, rx.h);
    TxDiffCong(s3, out.offset, acks[i]);
    TxDiffSame(s, s3, out.offset, acks[i]);
    HalvesCancel(LatRx(out.rxdiff, out.rtt), out.rxdiff, Quot(out.rtt, 2), m.txdiff, out.offset,
                 now, s1.startRxtime, s1.startRtxtime, rx.h.id * s.usecPerPkt, m.rrxtime,
                 s.nextSend - s.nextTxId * s.usecPerPkt + m.id * s.usecPerPkt);
  }

  /** The remote origin is learnt once, from the first packet. */
  lemma RemoteOrigin(s: Sess, rx: Packet, now: uint64)
    ensures Receive(s, rx, now).0.startRtxtime == Calibrate(s, rx.h, now).startRtxtime
              == Aligned(s, rx.h, now).startRtxtime
  {
    hide Diff, Delay, Rtt, U32, U64, SlotTime, ClockOffset, WithSlot, CountAcks, Calibrate, LatRx;
    CountAcksFrame(Filed(s, rx.h, now), ClockOffset(Aligned(s, rx.h, now), rx.h), RingRead(rx.data, rx.h.firstAck));
  }

  lemma RemoteOriginCong(s: Sess, h: Header, now: uint64, origin: int)
    requires s.nextRxId != 0 ==> Cong(s.startRtxtime, origin)
    requires Cong(h.txtime, origin + h.id * s.usecPerPkt)
    ensures Cong(Calibrate(s, h, now).startRtxtime, origin)
  {
    hide U32, U64, SlotTime, Cong;
    if s.nextRxId == 0 {
      var a := SlotTime(h.id, s.usecPerPkt);
      SlotTimeCong(h.id, s.usecPerPkt);
      U32Cong(h.txtime - a);
      OriginSum(U32(h.txtime - a), h.txtime, a, h.id * s.usecPerPkt, origin);
    }
  }

  lemma OriginSum(r: int, t: int, a: int, x: int, origin: int)
    requires Cong(r, t - a) && Cong(a, x) && Cong(t, origin + x)
    ensures Cong(r, origin)
  {
    hide Cong;
    var k0 := Quotient(r, t - a);
    var k1 := Quotient(a, x);
    var k2 := Quotient(t, origin + x);
    MultipleCong(r, origin, k0 - k1 + k2);
  }

  /** One packet later and one period later is the same schedule. */
  lemma ScheduleAdvance(next: uint64, id: uint32, p: int32, origin: int)
    requires Cong(next - id * p, origin)
    ensures Cong(U64(next + p) - U32(id + 1) * p, origin)
  {
    hide U32, U64, Cong;
    U64Cong(next + p);
    U32Cong(id + 1);
    CongMul(U32(id + 1), id + 1, p);
    assert (id + 1) * p == id * p + p;
    AdvanceSum(U64(next + p), U32(id + 1) * p, next, id * p, p, origin);
  }

  lemma AdvanceSum(n: int, a: int, next: int, x: int, p: int, origin: int)
    requires Cong(n, next + p) && Cong(a, x + p) && Cong(next - x, origin)
    ensures Cong(n - a, origin)
  {
    hide Cong;
    var k0 := Quotient(n, next + p);
    var k1 := Quotient(a, x + p);
    var k2 := Quotient(next - x, origin);
    MultipleCong(n - a, origin, k0 - k1 + k2);
  }
}
