/** The Session struct and the functions that update it in place. */
module SessionObject {
  import opened Words
  import opened Wire
  import opened Engine

  class Session {
    var usecPerPkt: int32
    var state: HandshakeState
    var retryCount: nat
    var nextTxId: uint32
    var nextRxId: uint32
    var nextRxackId: uint32
    var startRtxtime: uint32
    var startRxtime: uint64
    var lastRxtime: uint32
    var minCycleRxdiff: int32
    var nextCycle: uint32
    var nextSend: uint64
    var numLost: uint32
    var nextTxackIndex: RingIndex
    var tx: Header              // the transmit buffer's header ...
    const txData: array<uint32> // ... and its union of handshake fields and acks
    var latTx: Stats
    var latRx: Stats

    ghost predicate Valid()
      reads this
    {
      txData.Length == 128
    }

    /** The value of the session. */
    ghost function State(): Sess
      requires Valid()
      reads this, txData
    {
      Sess(usecPerPkt, state, retryCount, nextTxId, nextRxId, nextRxackId, startRtxtime, startRxtime,
           lastRxtime, minCycleRxdiff, nextCycle, nextSend, numLost, nextTxackIndex, tx, txData[..],
           latTx, latRx)
    }

    constructor (firstSend: uint64, usecPerPkt: uint32)
      ensures Valid() && fresh(txData)
      ensures State() == NewSess(firstSend, usecPerPkt)
    {
      this.usecPerPkt := S32(usecPerPkt);
      state, retryCount := HandshakeState.NewSession, 0;
      nextTxId, nextRxId, nextRxackId := 1, 0, 0;
      startRtxtime, startRxtime, lastRxtime := 0, 0, 0;
      minCycleRxdiff, nextCycle := 0, 0;
      nextSend, numLost, nextTxackIndex := firstSend, 0, 0;
      tx := ZERO_HEADER;
      txData := new uint32[128](_ => 0);
      latTx, latRx := NO_STATS, NO_STATS;
      new;
      assert txData[..] == ZeroPayload();
    }

    method PrepareTxPacket()
      requires Valid()
      modifies this
      ensures Valid() && State() == PrepareTx(old(State()))
    {
      hide U32;
      var clockdiff: uint32 := 0;
      if startRtxtime != 0 {
        clockdiff := U32(startRxtime - startRtxtime);
      }
      var kind;
      match state {
        case NewSession => kind := Handshake;
        case HandshakeRequested => kind := Handshake;
        case CookieGenerated => kind := Handshake;
        case Established => kind := Ack;
      }
      tx := Header(nextTxId, U32(nextSend), clockdiff, U32(usecPerPkt), numLost, kind, nextTxackIndex);
      nextTxId := U32(nextTxId + 1);
    }

    /** Hands the buffer to the socket, then schedules the next packet. A client whose peer
        refuses the packet gives up, with nothing rescheduled. */
    method SendPacket(isServer: bool, refused: bool) returns (err: int, p: Packet)
      requires Valid()
      modifies this
      ensures Valid() && p == Wired(old(State()))
      ensures err == if refused && !isServer then 2 else 0
      ensures State() == if err == 0 then SendTx(old(State()), isServer) else old(State())
    {
      hide U32, U64;
      err := 0;
      p := Packet(tx, txData[..]);
      if !isServer && refused {
        return 2, p;
      }
      if isServer || state == Established || state == CookieGenerated {
        nextSend := U64(nextSend + usecPerPkt);
      } else {
        if state == HandshakeState.NewSession {
          state := HandshakeRequested;
          retryCount := 0;
        } else {
          retryCount := retryCount + 1;
        }
        var timeout := HANDSHAKE_TIMEOUT_USEC * Pow2(if retryCount < 10 then retryCount else 10);
        state := HandshakeRequested;
        nextSend := U64(nextSend + timeout);
        nextTxId := U32(nextTxId - 1);
      }
    }

    /** prepare_tx_packet and send_packet in one go, as the scheduler uses them. */
    method Transmit(isServer: bool) returns (due: uint64, p: Packet)
      requires Valid()
      modifies this
      ensures Valid() && State() == SendTx(PrepareTx(old(State())), isServer)
      ensures due == old(nextSend) && p == Wired(PrepareTx(old(State())))
    {
      hide PrepareTx, SendTx;
      due := nextSend;
      PrepareTxPacket();
      var err;
      err, p := SendPacket(isServer, false);
    }

    /** First part of handle_ack_packet: the first packet calibrates, gaps count as losses,
        and a packet from the future moves the origin back. */
    method AlignOrigin(h: Header, now: uint64)
      requires Valid()
      modifies this
      ensures Valid() && State() == Aligned(old(State()), h, now)
    {
      hide U32, U64, S32, Diff, Diff64, SlotTime;
      ghost var s0 := State();
      var id := h.id;
      var slot := SlotTime(id, usecPerPkt);
      if nextRxId == 0 {
        startRtxtime := U32(h.txtime - slot);
        startRxtime := U64(now - slot);
        minCycleRxdiff := 0;
        nextRxId := id;
        nextCycle := U32(now + USEC_PER_CYCLE);
      }
      assert State() == Calibrate(s0, h, now);
      var tmpdiff := Diff(id, nextRxId);
      if tmpdiff > 0 {
        numLost := U32(numLost + tmpdiff);
        nextRxId := U32(nextRxId + tmpdiff + 1);
      } else if tmpdiff == 0 {
        nextRxId := U32(nextRxId + 1);
      }
      assert State() == CountLoss(Calibrate(s0, h, now), id);
      tmpdiff := S32(Diff64(now, startRxtime + slot));
      if tmpdiff < -20 {
        startRxtime := U64(now - slot);
      }
    }

    /** Second part: the fastest packet of a cycle may move the origin forward. */
    method TrackCycle(rxdiff: int32, now: uint64)
      requires Valid()
      modifies this
      ensures Valid() && State() == CloseCycle(old(State()), rxdiff, now)
    {
      hide U32, U64, Diff;
      if rxdiff < minCycleRxdiff {
        minCycleRxdiff := rxdiff;
      }
      if Diff(now, nextCycle) >= 0 {
        if minCycleRxdiff > 0 {
          startRxtime := U64(startRxtime + minCycleRxdiff);
        }
        minCycleRxdiff := INT32_MAX;
        nextCycle := U32(nextCycle + USEC_PER_CYCLE);
      }
    }

    /** Third part: file this packet for an ack with everything we send from now on. */
    method FileReceipt(id: uint32, now: uint64)
      requires Valid()
      modifies this, txData
      ensures Valid() && State() == RecordAck(old(State()), id, now)
    {
      hide U32;
      txData[2 * nextTxackIndex] := id;
      txData[2 * nextTxackIndex + 1] := U32(now);
      nextTxackIndex := (nextTxackIndex + 1) % 64;
    }

    /** Last part: which of our own packets have been acked. */
    method ReadAcks(rx: Packet, offset: int32) returns (samples: seq<Sample>)
      requires Valid()
      modifies this
      ensures Valid()
      ensures State() == CountAcks(old(State()), offset, RingRead(rx.data, rx.h.firstAck)).0
      ensures samples == CountAcks(old(State()), offset, RingRead(rx.data, rx.h.firstAck)).1
    {
      hide U32, Diff, SlotTime, Stats.Add, RingRead;
      ghost var s0 := State();
      ghost var acks := RingRead(rx.data, rx.h.firstAck);
      samples := [];
      var i := 0;
      while i < 64
        invariant 0 <= i <= 64
        invariant State() == CountAcks(s0, offset, acks[..i]).0
        invariant samples == CountAcks(s0, offset, acks[..i]).1
      {
        ghost var s := State();
        var a := Slot(rx.data, (rx.h.firstAck + i) % 64);
        assert a == acks[i] by { RingReadAt(rx.data, rx.h.firstAck, i); }
        if a.id != 0 && Diff(a.id, nextRxackId) >= 0 {
          var startTxtime := U32(nextSend - SlotTime(nextTxId, usecPerPkt));
          var txtime := U32(startTxtime + SlotTime(a.id, usecPerPkt));
          var rxtime := U32(a.rxtime + offset);
          var txdiff := Diff(rxtime, txtime);
          nextRxackId := U32(a.id + 1);
          latTx := latTx.Add(txdiff);
          samples := samples + [Sample(a.id, a.rxtime, txtime, txdiff)];
        }
        assert State() == CountAck(s, offset, a).0;
        assert acks[..i + 1][..i] == acks[..i] && acks[..i + 1][i] == a;
        i := i + 1;
      }
      assert acks[..64] == acks;
    }

    method HandleAckPacket(rx: Packet, now: uint64) returns (out: Outcome)
      requires Valid()
      modifies this, txData
      ensures Valid() && State() == Receive(old(State()), rx, now).0
      ensures out == Receive(old(State()), rx, now).1
    {
      hide U32, U64, S32, Diff, Diff64, SlotTime, Quot, Stats.Add, CountAcks, RingRead, CloseCycle, RecordAck, Aligned;
      ghost var s0 := State();
      AlignOrigin(rx.h, now);
      ghost var s1 := State();
      var rxdiff := S32(Diff64(now, startRxtime + SlotTime(rx.h.id, usecPerPkt)));
      var clockdiff := Diff(startRxtime, startRtxtime);
      var rtt := S32(clockdiff + rx.h.clockdiff);
      var offset := Diff(clockdiff, Quot(rtt, 2));
      assert rxdiff == Delay(s1, rx.h.id, now) && rtt == Rtt(s1, rx.h) && offset == ClockOffset(s1, rx.h);
      if rx.h.clockdiff != 0 {
        latRx := latRx.Add(S32(rxdiff + Quot(rtt, 2)));
      }
      assert State() == if rx.h.clockdiff == 0 then s1 else s1.(latRx := s1.latRx.Add(LatRx(rxdiff, rtt)));
      TrackCycle(rxdiff, now);
      FileReceipt(rx.h.id, now);
      assert State() == Filed(s0, rx.h, now);
      var samples := ReadAcks(rx, offset);
      lastRxtime := U32(now);
      out := Outcome(rxdiff, rtt, offset, samples);
    }

    /** The handshake view of the transmit buffer: word 1 and words 2 to 9. */
    method StoreCookie(epoch: uint32, c: Cookie)
      requires Valid()
      modifies txData
      ensures txData[..] == WithCookie(old(txData[..]), epoch, c)
    {
      txData[1] := epoch;
      forall i | 0 <= i < 8 { txData[2 + i] := c[i]; }
      forall i | 0 <= i < 128
        ensures txData[..][i] == WithCookie(old(txData[..]), epoch, c)[i]
      {
      }
    }

    /** Client only: echo the server's cookie from now on, at the server's rate. */
    method AdoptServerCookie(rx: Packet, now: uint64)
      requires Valid()
      modifies this, txData
      ensures Valid() && State() == AdoptCookie(old(State()), rx, now)
    {
      hide S32, WithCookie, EpochOf, CookieOf;
      ghost var s := State();
      nextTxId := 1;
      nextRxId := 0;
      tx := tx.(kind := Handshake);
      StoreCookie(EpochOf(rx.data), CookieOf(rx.data));
      if S32(rx.h.usecPerPkt) != usecPerPkt {
        usecPerPkt := S32(rx.h.usecPerPkt);
      }
      state := CookieGenerated;
      nextSend := now;
      assert txData[..] == WithCookie(s.txData, EpochOf(rx.data), CookieOf(rx.data));
    }

    /** An ack packet for this session; the client's first one confirms the handshake. */
    method HandleAck(rx: Packet, now: uint64, isServer: bool) returns (out: Outcome)
      requires Valid()
      modifies this, txData
      ensures Valid()
      ensures var s := if isServer then old(State()) else Establish(old(State()));
        State() == Receive(s, rx, now).0 && out == Receive(s, rx, now).1
    {
      if !isServer && state == CookieGenerated {
        state := Established;
        forall i | 0 <= i < 128 { txData[i] := 0; }
        assert txData[..] == ZeroPayload();
        assert State() == Establish(old(State()));
      }
      out := HandleAckPacket(rx, now);
    }
  }
}
