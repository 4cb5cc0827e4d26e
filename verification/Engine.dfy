/** The session engine of isoping.cc as functions on the value of a session. */
module Engine {
  import opened Words
  import opened Wire

  datatype HandshakeState = NewSession | HandshakeRequested | CookieGenerated | Established

  const USEC_PER_CYCLE := 10_000_000
  const HANDSHAKE_TIMEOUT_USEC := 1_000_000

  /** One direction's latency statistics (the lat_tx and lat_rx field groups). */
  datatype Stats = Stats(last: int, min: int, max: int, count: nat, sum: int, sumsq: int) {
    function Add(x: int): Stats {
      Stats(x, if min > x then x else min, if max < x then x else max,
            count + 1, sum + x, sumsq + x * x)
    }
  }

  const NO_STATS := Stats(0, 0x7fff_ffff, 0, 0, 0, 0)

  datatype Sess = Sess(
    usecPerPkt: int32,
    state: HandshakeState,
    retryCount: nat,
    nextTxId: uint32,
    nextRxId: uint32,
    nextRxackId: uint32,
    startRtxtime: uint32,
    startRxtime: uint64,
    lastRxtime: uint32,
    minCycleRxdiff: int32,
    nextCycle: uint32,
    nextSend: uint64,
    numLost: uint32,
    nextTxackIndex: RingIndex,
    tx: Header,
    txData: Payload,
    latTx: Stats,
    latRx: Stats)

  function NewSess(firstSend: uint64, usecPerPkt: uint32): Sess
  {
    Sess(S32(usecPerPkt), NewSession, 0, 1, 0, 0, 0, 0, 0, 0, 0, firstSend, 0, 0,
         ZERO_HEADER, ZeroPayload(), NO_STATS, NO_STATS)
  }

  /** `id * usec_per_pkt`, a 32-bit product. */
  function SlotTime(id: uint32, usecPerPkt: int32): uint32 { U32(id * usecPerPkt) }

  // ---- transmit side ----

  function PrepareTx(s: Sess): Sess
  {
    s.(nextTxId := U32(s.nextTxId + 1),
       tx := Header(
         s.nextTxId,
         U32(s.nextSend),
         if s.startRtxtime != 0 then U32(s.startRxtime - s.startRtxtime) else 0,
         U32(s.usecPerPkt),
         s.numLost,
         if s.state == Established then Ack else Handshake,
         s.nextTxackIndex))
  }

  /** Sends by the clock: everything but a client still waiting for its cookie. */
  predicate Paced(s: Sess, isServer: bool) {
    isServer || s.state == Established || s.state == CookieGenerated
  }

  function Backoff(retries: nat): int { HANDSHAKE_TIMEOUT_USEC * Pow2(if retries < 10 then retries else 10) }

  function Pow2(n: nat): nat { if n == 0 then 1 else 2 * Pow2(n - 1) }

  /** What send_packet does to the session after handing s.tx to the socket. */
  function SendTx(s: Sess, isServer: bool): Sess
  {
    if Paced(s, isServer) then
      s.(nextSend := U64(s.nextSend + s.usecPerPkt))
    else
      var retries := if s.state == NewSession then 0 else s.retryCount + 1;
      s.(state := HandshakeRequested,
         retryCount := retries,
         nextSend := U64(s.nextSend + Backoff(retries)),
         nextTxId := U32(s.nextTxId - 1))
  }

  /** The packet on the wire. */
  function Wired(s: Sess): Packet { Packet(s.tx, s.txData) }

  // ---- receive side ----

  /** One ack counted: of which packet, when it arrived there, when it was sent (rebuilt), and
      what that makes the transmit latency. */
  datatype Sample = Sample(id: uint32, rrxtime: uint32, txtime: uint32, txdiff: int32)

  /** What one call of handle_ack_packet measures. */
  datatype Outcome = Outcome(rxdiff: int32, rtt: int32, offset: int32, samples: seq<Sample>)

  /** First packet: assume it arrived with no delay. */
  function Calibrate(s: Sess, h: Header, now: uint64): Sess {
    if s.nextRxId != 0 then s
    else s.(startRtxtime := U32(h.txtime - SlotTime(h.id, s.usecPerPkt)),
            startRxtime := U64(now - SlotTime(h.id, s.usecPerPkt)),
            minCycleRxdiff := 0,
            nextRxId := h.id,
            nextCycle := U32(now + USEC_PER_CYCLE))
  }

  function CountLoss(s: Sess, id: uint32): Sess {
    var gap := Diff(id, s.nextRxId);
    if gap > 0 then s.(numLost := U32(s.numLost + gap), nextRxId := U32(s.nextRxId + gap + 1))
    else if gap == 0 then s.(nextRxId := U32(s.nextRxId + 1))
    else s
  }

  /** How late packet `id` is, against the origin the session believes in. */
  function Delay(s: Sess, id: uint32, now: uint64): int32 {
    S32(Diff64(now, s.startRxtime + SlotTime(id, s.usecPerPkt)))
  }

  /** A packet more than 20 usec early moves the origin back. */
  function Backslide(s: Sess, id: uint32, now: uint64): Sess {
    if Delay(s, id, now) < -20
    then s.(startRxtime := U64(now - SlotTime(id, s.usecPerPkt)))
    else s
  }

  predicate CycleOver(s: Sess, now: uint64) { Diff(now, s.nextCycle) >= 0 }

  /** At the end of a cycle the origin slides forward to the fastest packet seen in it. */
  function CloseCycle(s: Sess, rxdiff: int32, now: uint64): Sess {
    var m := if rxdiff < s.minCycleRxdiff then rxdiff else s.minCycleRxdiff;
    if CycleOver(s, now) then
      s.(startRxtime := if m > 0 then U64(s.startRxtime + m) else s.startRxtime,
         minCycleRxdiff := INT32_MAX,
         nextCycle := U32(s.nextCycle + USEC_PER_CYCLE))
    else s.(minCycleRxdiff := m)
  }

  function RecordAck(s: Sess, id: uint32, now: uint64): Sess
  {
    s.(txData := WithSlot(s.txData, s.nextTxackIndex, AckSlot(id, U32(now))),
       nextTxackIndex := (s.nextTxackIndex + 1) % 64)
  }

  /** The transmit time of one of our own packets, rebuilt from the schedule. */
  function Rebuilt(s: Sess, id: uint32): uint32 {
    U32(U32(s.nextSend - SlotTime(s.nextTxId, s.usecPerPkt)) + SlotTime(id, s.usecPerPkt))
  }

  predicate Counts(s: Sess, a: AckSlot) {
    a.id != 0 && Diff(a.id, s.nextRxackId) >= 0
  }

  function TxDiff(s: Sess, offset: int32, a: AckSlot): int32 {
    Diff(U32(a.rxtime + offset), Rebuilt(s, a.id))
  }

  function CountAck(s: Sess, offset: int32, a: AckSlot): (Sess, seq<Sample>) {
    if Counts(s, a) then
      var d := TxDiff(s, offset, a);
      (s.(nextRxackId := U32(a.id + 1), latTx := s.latTx.Add(d)), [Sample(a.id, a.rxtime, Rebuilt(s, a.id), d)])
    else (s, [])
  }

  function CountAcks(s: Sess, offset: int32, acks: seq<AckSlot>): (Sess, seq<Sample>)
    decreases |acks|
  {
    if acks == [] then (s, [])
    else
      var k := |acks| - 1;
      var before := CountAcks(s, offset, acks[..k]);
      var one := CountAck(before.0, offset, acks[k]);
      (one.0, before.1 + one.1)
  }

  /** The part of handle_ack_packet before the origin may slide. */
  function Aligned(s: Sess, h: Header, now: uint64): Sess {
    Backslide(CountLoss(Calibrate(s, h, now), h.id), h.id, now)
  }

  function ClockDiff(s: Sess): int32 { Diff(s.startRxtime, s.startRtxtime) }

  function Rtt(s: Sess, h: Header): int32 { S32(ClockDiff(s) + h.clockdiff) }

  function ClockOffset(s: Sess, h: Header): int32 { Diff(ClockDiff(s), Quot(Rtt(s, h), 2)) }

  function LatRx(rxdiff: int32, rtt: int32): int32 { S32(rxdiff + Quot(rtt, 2)) }

  /** The session once the header is dealt with and the receipt is filed. */
  function Filed(s: Sess, h: Header, now: uint64): Sess {
    var s1 := Aligned(s, h, now);
    var rxdiff := Delay(s1, h.id, now);
    var s2 := if h.clockdiff == 0 then s1 else s1.(latRx := s1.latRx.Add(LatRx(rxdiff, Rtt(s1, h))));
    RecordAck(CloseCycle(s2, rxdiff, now), h.id, now)
  }

  /** handle_ack_packet. */
  function Receive(s: Sess, rx: Packet, now: uint64): (Sess, Outcome) {
    var s1 := Aligned(s, rx.h, now);
    var offset := ClockOffset(s1, rx.h);
    var counted := CountAcks(Filed(s, rx.h, now), offset, RingRead(rx.data, rx.h.firstAck));
    (counted.0.(lastRxtime := U32(now)),
     Outcome(Delay(s1, rx.h.id, now), Rtt(s1, rx.h), offset, counted.1))
  }

  // ---- dispatch ----

  /** handle_server_handshake_packet: the client adopts the server's cookie and rate. */
  function AdoptCookie(s: Sess, rx: Packet, now: uint64): Sess {
    s.(nextTxId := 1,
       nextRxId := 0,
       tx := s.tx.(kind := Handshake),
       txData := WithCookie(s.txData, EpochOf(rx.data), CookieOf(rx.data)),
       usecPerPkt := S32(rx.h.usecPerPkt),
       state := CookieGenerated,
       nextSend := now)
  }

  /** The client learns from the first ack that the server took its cookie. */
  function Establish(s: Sess): Sess {
    if s.state == CookieGenerated
    then s.(state := Established, txData := ZeroPayload())
    else s
  }

  /** handle_packet on the client. */
  function ClientReceive(s: Sess, rx: Packet, now: uint64): Sess
  {
    if rx.h.kind == Handshake then AdoptCookie(s, rx, now) else Receive(Establish(s), rx, now).0
  }

  /** The handshake packet that opened a session, seen as an ack packet with no acks. */
  function AsFirstAck(rx: Packet): Packet { Packet(rx.h.(kind := Ack), ZeroPayload()) }

  /** The server side of a handshake whose cookie has been validated. */
  function Accept(s: Sess, rx: Packet, now: uint64): (Sess, Outcome)
  {
    Receive(s.(state := Established), AsFirstAck(rx), now)
  }

  // ---- what receiving leaves alone ----

  lemma {:induction false} CountAcksFrame(s: Sess, offset: int32, acks: seq<AckSlot>)
    ensures var t := CountAcks(s, offset, acks).0;
      t == s.(nextRxackId := t.nextRxackId, latTx := t.latTx)
  {
    if acks != [] {
      CountAcksFrame(s, offset, acks[..|acks| - 1]);
    }
  }

  /** Neither the rate, nor the handshake state, nor the send schedule, nor the ack filter. */
  ghost predicate SameSender(s: Sess, t: Sess) {
    && t.usecPerPkt == s.usecPerPkt && t.state == s.state && t.retryCount == s.retryCount
    && t.nextTxId == s.nextTxId && t.nextSend == s.nextSend && t.tx == s.tx
  }

  ghost predicate FiledOne(s: Sess, t: Sess, a: AckSlot) {
    && t.txData == WithSlot(s.txData, s.nextTxackIndex, a)
    && t.nextTxackIndex == (s.nextTxackIndex + 1) % 64
  }

  lemma AlignedFrame(s: Sess, h: Header, now: uint64)
    ensures var t := Aligned(s, h, now);
      && SameSender(s, t)
      && t.nextRxackId == s.nextRxackId && t.latTx == s.latTx && t.latRx == s.latRx
      && t.txData == s.txData && t.nextTxackIndex == s.nextTxackIndex
  {
    hide Diff, Delay, U32, U64, SlotTime;
  }

  lemma FiledFrame(s: Sess, h: Header, now: uint64)
    ensures var t := Filed(s, h, now);
      && SameSender(s, t) && FiledOne(s, t, AckSlot(h.id, U32(now)))
      && t.nextRxackId == s.nextRxackId && t.latTx == s.latTx
  {
    hide Aligned, Diff, Delay, U32, U64, LatRx, Rtt, WithSlot;
    AlignedFrame(s, h, now);
  }

  /** Receiving never touches the rate, the handshake state or the send schedule, and
      changes the payload only by filing the receipt. */
  lemma {:induction false} ReceiveFrame(s: Sess, rx: Packet, now: uint64)
    ensures var t := Receive(s, rx, now).0;
      && SameSender(s, t) && FiledOne(s, t, AckSlot(rx.h.id, U32(now)))
      && t.lastRxtime == U32(now)
  {
    hide Aligned, Filed, Delay, Rtt, ClockOffset, U32, WithSlot, CountAcks;
    FiledFrame(s, rx.h, now);
    CountAcksFrame(Filed(s, rx.h, now), ClockOffset(Aligned(s, rx.h, now), rx.h), RingRead(rx.data, rx.h.firstAck));
  }
}
