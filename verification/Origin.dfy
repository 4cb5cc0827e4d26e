/** The drifting origin start_rxtime: backslides on a time paradox, slides forward on
    the per-cycle minimum, and never leaves what some received packet implied. */
module Origin {
  import opened Words
  import opened Wire
  import opened Engine
  import opened Measure

  datatype Event = Got(rx: Packet, now: uint64) | Sent(isServer: bool)

  datatype Arrived = Arrived(id: uint32, at: uint64)

  /** A session with the history its origin depends on. */
  datatype Track = Track(
    s: Sess,
    got: seq<Arrived>,     // everything received
    cycle: seq<Arrived>,   // what was received since the last cycle ended
    clean: bool,           // a cycle did end, and nothing was calibrated or backslid since
    began: uint64,         // when the session was last calibrated
    ended: nat,            // how many cycles have ended since
    moves: seq<Move>)      // what each packet received did to the origin

  /** One packet received: the delay measured, whether the origin slid forward after it, the
      cycle up to and with it, whether that cycle was quiet, that is began with the end of another
      and saw neither calibration nor backslide, whether it ended with this packet and when it
      was due to, and the session left. */
  datatype Move = Move(rxdiff: int32, slid: bool, cycle: seq<Arrived>, quiet: bool, ended: bool, due: int, now: uint64, after: Sess)

  function Start(s: Sess): Track { Track(s, [], [], false, 0, 0, []) }

  predicate Calibrates(s: Sess) { s.nextRxId == 0 }

  predicate Paradox(s: Sess, h: Header, now: uint64) {
    Delay(CountLoss(Calibrate(s, h, now), h.id), h.id, now) < -20
  }

  predicate EndsCycle(s: Sess, h: Header, now: uint64) { CycleOver(Calibrate(s, h, now), now) }

  predicate Quiet(t: Track, h: Header, now: uint64) {
    t.clean && !Calibrates(t.s) && !Paradox(t.s, h, now)
  }

  predicate Slides(s: Sess, rx: Packet, now: uint64) {
    Receive(s, rx, now).0.startRxtime != Aligned(s, rx.h, now).startRxtime
  }

  function MoveOf(t: Track, rx: Packet, now: uint64): Move {
    var r := Receive(t.s, rx, now);
    Move(r.1.rxdiff, Slides(t.s, rx, now), t.cycle + [Arrived(rx.h.id, now)],
         Quiet(t, rx.h, now), EndsCycle(t.s, rx.h, now), EndOfCycle(Began(t, now), Ended(t)), now, r.0)
  }

  function Began(t: Track, now: uint64): uint64 { if Calibrates(t.s) then now else t.began }

  function Ended(t: Track): nat { if Calibrates(t.s) then 0 else t.ended }

  /** Cycles are ten seconds long, from the packet that calibrated on. */
  function EndOfCycle(began: uint64, ended: nat): int { began + 10_000_000 * (ended + 1) }

  function Advance(t: Track, e: Event): Track {
    match e
    case Sent(isServer) => t.(s := SendTx(PrepareTx(t.s), isServer))
    case Got(rx, now) =>
      var a := Arrived(rx.h.id, now);
      var over := EndsCycle(t.s, rx.h, now);
      Track(Receive(t.s, rx, now).0,
            t.got + [a],
            if over then [] else t.cycle + [a],
            over || Quiet(t, rx.h, now),
            Began(t, now),
            Ended(t) + if over then 1 else 0,
            t.moves + [MoveOf(t, rx, now)])
  }

  function Run(s0: Sess, es: seq<Event>): Track {
    if es == [] then Start(s0) else Advance(Run(s0, es[..|es| - 1]), es[|es| - 1])
  }

  function DelayOf(s: Sess, a: Arrived): int32 { Delay(s, a.id, a.at) }

  /** m is the least delay of the cycle's packets. */
  ghost predicate LeastDelay(s: Sess, cycle: seq<Arrived>, m: int32) {
    && (cycle == [] ==> m == INT32_MAX)
    && (forall i :: 0 <= i < |cycle| ==> DelayOf(s, cycle[i]) >= m)
    && (cycle != [] ==> exists i :: 0 <= i < |cycle| && DelayOf(s, cycle[i]) == m)
  }

  /** The origin is the one some received packet implied. */
  ghost predicate Implied(s: Sess, got: seq<Arrived>) {
    exists i :: 0 <= i < |got| && Cong(s.startRxtime, got[i].at - got[i].id * s.usecPerPkt)
  }

  ghost predicate Within(cycle: seq<Arrived>, got: seq<Arrived>) {
    forall i :: 0 <= i < |cycle| ==> cycle[i] in got
  }

  ghost predicate Inv(t: Track) {
    && (t.got == [] ==> t.s.nextRxId == 0 && !t.clean)
    && (t.got != [] ==> Implied(t.s, t.got))
    && Within(t.cycle, t.got)
    && (t.got != [] ==> t.s.nextCycle == U32(EndOfCycle(t.began, t.ended)))
    && (if t.clean then LeastDelay(t.s, t.cycle, t.s.minCycleRxdiff) else Calibrates(t.s) || t.s.minCycleRxdiff <= 0)
  }

  /** No delay below -20; a forward slide happens only at the end of a quiet cycle, and
      makes the cycle's fastest packet exactly on time and none of them early; no quiet
      cycle ends with all its packets late; and a cycle ends with the first packet that comes when
      it is due to or later, if that is not 36 minutes off. */
  ghost predicate MoveRight(m: Move) {
    && m.rxdiff >= -20
    && (-0x8000_0000 <= m.now - m.due < 0x8000_0000 ==> (m.ended <==> m.now >= m.due))
    && (m.slid ==> m.quiet && m.ended && LeastDelay(m.after, m.cycle, 0))
    && (m.quiet && m.ended ==> exists i :: 0 <= i < |m.cycle| && DelayOf(m.after, m.cycle[i]) <= 0)
  }

  ghost predicate MovesRight(t: Track) {
    && |t.moves| == |t.got|
    && forall k :: 0 <= k < |t.moves| ==> MoveRight(t.moves[k])
  }

  // ---- the pieces of one reception ----

  lemma DelayDependsOn(s: Sess, t: Sess, a: Arrived)
    requires s.startRxtime == t.startRxtime && s.usecPerPkt == t.usecPerPkt
    ensures DelayOf(s, a) == DelayOf(t, a)
  {
  }

  lemma AfterBackdating(s: Sess, a: Arrived)
    requires s.startRxtime == U64(a.at - SlotTime(a.id, s.usecPerPkt))
    ensures DelayOf(s, a) == 0
    ensures Cong(s.startRxtime, a.at - a.id * s.usecPerPkt)
  {
    hide U64, SlotTime, Delay, Cong;
    BackdateCong(a.at, a.id, s.usecPerPkt);
    var k := Quotient(s.startRxtime, a.at - a.id * s.usecPerPkt);
    MultipleCong(a.at - s.startRxtime - a.id * s.usecPerPkt, 0, -k);
    DelayAgainst(s, a.id, a.at, 0);
  }

  /** After the correction no packet is more than 20 usec early. */
  lemma CorrectedDelay(s: Sess, h: Header, now: uint64)
    ensures var c, a := Aligned(s, h, now), Arrived(h.id, now);
      && DelayOf(c, a) >= -20
      && (Calibrates(s) || Paradox(s, h, now) ==>
            DelayOf(c, a) == 0 && Cong(c.startRxtime, a.at - a.id * c.usecPerPkt))
      && (!Calibrates(s) && !Paradox(s, h, now) ==> c.startRxtime == s.startRxtime)
      && c.usecPerPkt == s.usecPerPkt
      && c.minCycleRxdiff == (if Calibrates(s) then 0 else s.minCycleRxdiff)
      && CycleOver(c, now) == EndsCycle(s, h, now)
  {
    hide U64, U32, SlotTime, Delay, Cong, Diff;
    var c, a := Aligned(s, h, now), Arrived(h.id, now);
    if Calibrates(s) {
      var l := CountLoss(Calibrate(s, h, now), h.id);
      AfterBackdating(l, a);
      assert c.startRxtime == l.startRxtime;
      AfterBackdating(c, a);
    } else if Paradox(s, h, now) {
      AfterBackdating(c, a);
    }
  }

  lemma ReceivedOrigin(s: Sess, rx: Packet, now: uint64)
    ensures var c, t := Aligned(s, rx.h, now), Receive(s, rx, now).0;
      var closed := CloseCycle(c, DelayOf(c, Arrived(rx.h.id, now)), now);
      && t.startRxtime == closed.startRxtime && t.minCycleRxdiff == closed.minCycleRxdiff
      && t.nextCycle == closed.nextCycle
      && t.usecPerPkt == s.usecPerPkt && closed.usecPerPkt == c.usecPerPkt == s.usecPerPkt
      && Receive(s, rx, now).1.rxdiff == DelayOf(c, Arrived(rx.h.id, now))
  {
    hide Aligned, Delay, Diff, U32, U64, WithSlot, LatRx, Rtt, ClockOffset, CountAcks, RingRead;
    AlignedFrame(s, rx.h, now);
    CountAcksFrame(Filed(s, rx.h, now), ClockOffset(Aligned(s, rx.h, now), rx.h), RingRead(rx.data, rx.h.firstAck));
  }

  lemma AlignedCycle(s: Sess, h: Header, now: uint64)
    ensures Aligned(s, h, now).nextCycle == Calibrate(s, h, now).nextCycle
  {
    hide Calibrate, Delay, Diff, U32, U64, SlotTime;
  }

  /** Sliding the origin by m makes every delay smaller by m. */
  lemma ShiftedDelay(s: Sess, t: Sess, a: Arrived, m: int)
    requires t.startRxtime == U64(s.startRxtime + m) && t.usecPerPkt == s.usecPerPkt
    requires 0 < m <= DelayOf(s, a)
    ensures DelayOf(t, a) == DelayOf(s, a) - m
  {
    hide U64, Delay, Cong;
    U64Cong(s.startRxtime + m);
    DelayCong(s, a.id, a.at);
    var x := a.id * s.usecPerPkt;
    var k0 := Quotient(t.startRxtime, s.startRxtime + m);
    var k1 := Quotient(DelayOf(s, a), a.at - s.startRxtime - x);
    MultipleCong(a.at - t.startRxtime - x, DelayOf(s, a) - m, -k0 - k1);
    DelayAgainst(t, a.id, a.at, DelayOf(s, a) - m);
  }

  /** The origin a packet with no delay implies is the origin itself. */
  lemma NoDelayImplies(t: Sess, a: Arrived)
    requires DelayOf(t, a) == 0
    ensures Cong(t.startRxtime, a.at - a.id * t.usecPerPkt)
  {
    hide Delay, Cong;
    DelayCong(t, a.id, a.at);
    var k := Quotient(0, a.at - t.startRxtime - a.id * t.usecPerPkt);
    MultipleCong(t.startRxtime, a.at - a.id * t.usecPerPkt, k);
  }

  // ---- one step keeps the invariant, and a slide lands on the cycle's minimum ----

  /** The delays in the cycle, this packet included, seen by the corrected session. */
  lemma CycleMinimum(t: Track, rx: Packet, now: uint64)
    requires Inv(t) && t.clean && !Calibrates(t.s) && !Paradox(t.s, rx.h, now)
    ensures var c, a := Aligned(t.s, rx.h, now), Arrived(rx.h.id, now);
      var m := if DelayOf(c, a) < c.minCycleRxdiff then DelayOf(c, a) else c.minCycleRxdiff;
      LeastDelay(c, t.cycle + [a], m)
  {
    hide DelayOf, Aligned, Implied, CycleOver;
    var c, a := Aligned(t.s, rx.h, now), Arrived(rx.h.id, now);
    CorrectedDelay(t.s, rx.h, now);
    var all := t.cycle + [a];
    forall i | 0 <= i < |t.cycle|
      ensures all[i] == t.cycle[i] && DelayOf(c, t.cycle[i]) == DelayOf(t.s, t.cycle[i])
    {
      DelayDependsOn(c, t.s, t.cycle[i]);
    }
    assert all[|t.cycle|] == a;
    if DelayOf(c, a) >= c.minCycleRxdiff && t.cycle != [] {
      var i :| 0 <= i < |t.cycle| && DelayOf(t.s, t.cycle[i]) == t.s.minCycleRxdiff;
      assert DelayOf(c, all[i]) == c.minCycleRxdiff;
    }
  }

  /** The clock of the cycles. */
  lemma CycleClock(t: Track, h: Header, now: uint64)
    requires Inv(t)
    ensures Calibrate(t.s, h, now).nextCycle == U32(EndOfCycle(Began(t, now), Ended(t)))
    ensures var late := now - EndOfCycle(Began(t, now), Ended(t));
      -0x8000_0000 <= late < 0x8000_0000 ==> (EndsCycle(t.s, h, now) <==> late >= 0)
    ensures U32(U32(EndOfCycle(Began(t, now), Ended(t))) + USEC_PER_CYCLE) == U32(EndOfCycle(Began(t, now), Ended(t) + 1))
  {
    hide U32, Diff, LeastDelay, Implied, Within;
    var due := EndOfCycle(Began(t, now), Ended(t));
    WrappedSum32(due, 10_000_000);
    if -0x8000_0000 <= now - due < 0x8000_0000 { DiffStamp(now, due); }
  }

  lemma WrappedSum32(x: int, y: int)
    ensures U32(U32(x) + y) == U32(x + y)
  {
  }

  /** What a forward slide means: a cycle ended in which nothing was calibrated or backslid,
      and the new origin is the least one its packets imply. */
  lemma {:induction false} SlideIsExact(t: Track, rx: Packet, now: uint64)
    requires Inv(t)
    ensures MoveRight(MoveOf(t, rx, now))
  {
    hide DelayOf, Aligned, Receive, CycleOver, Implied, Diff;
    var s, a := t.s, Arrived(rx.h.id, now);
    var c, r := Aligned(s, rx.h, now), Receive(s, rx, now).0;
    var all := t.cycle + [a];
    CorrectedDelay(s, rx.h, now);
    ReceivedOrigin(s, rx, now);
    CycleClock(t, rx.h, now);
    if Slides(s, rx, now) {
      var m := if DelayOf(c, a) < c.minCycleRxdiff then DelayOf(c, a) else c.minCycleRxdiff;
      assert CycleOver(c, now) && m > 0;
      CycleMinimum(t, rx, now);
      forall i | 0 <= i < |all|
        ensures DelayOf(r, all[i]) == DelayOf(c, all[i]) - m
      {
        ShiftedDelay(c, r, all[i], m);
      }
      var i :| 0 <= i < |all| && DelayOf(c, all[i]) == m;
      assert DelayOf(r, all[i]) == 0;
    } else if Quiet(t, rx.h, now) && EndsCycle(s, rx.h, now) {
      CycleMinimum(t, rx, now);
      var m := if DelayOf(c, a) < c.minCycleRxdiff then DelayOf(c, a) else c.minCycleRxdiff;
      if m > 0 { MovedBy(c.startRxtime, m); }
      var i :| 0 <= i < |all| && DelayOf(c, all[i]) == m;
      DelayDependsOn(c, r, all[i]);
    }
  }

  lemma MovedBy(start: uint64, m: int32)
    requires m > 0
    ensures U64(start + m) != start
  {
  }

  lemma GotKeeps(t: Track, rx: Packet, now: uint64)
    requires Inv(t)
    ensures Inv(Advance(t, Got(rx, now)))
  {
    hide DelayOf, Aligned, Receive, CycleOver, Diff, Cong;
    var s, a := t.s, Arrived(rx.h.id, now);
    var c, t' := Aligned(s, rx.h, now), Advance(t, Got(rx, now));
    var all := t.cycle + [a];
    CorrectedDelay(s, rx.h, now);
    ReceivedOrigin(s, rx, now);
    AlignedCycle(s, rx.h, now);
    CycleClock(t, rx.h, now);
    SlideIsExact(t, rx, now);
    assert t'.got[|t.got|] == a;
    if Slides(s, rx, now) {
      var i :| 0 <= i < |all| && DelayOf(t'.s, all[i]) == 0;
      NoDelayImplies(t'.s, all[i]);
      assert all[i] in t'.got;
    } else if !Calibrates(s) && !Paradox(s, rx.h, now) {
      var i :| 0 <= i < |t.got| && Cong(s.startRxtime, t.got[i].at - t.got[i].id * s.usecPerPkt);
      assert t'.got[i] == t.got[i];
    }
    if t'.clean && !EndsCycle(s, rx.h, now) {
      CycleMinimum(t, rx, now);
      SameDelays(c, t'.s, all);
    }
  }

  lemma SameDelays(s: Sess, t: Sess, cycle: seq<Arrived>)
    requires s.startRxtime == t.startRxtime && s.usecPerPkt == t.usecPerPkt
    ensures forall i :: 0 <= i < |cycle| ==> DelayOf(s, cycle[i]) == DelayOf(t, cycle[i])
  {
    hide DelayOf;
    forall i | 0 <= i < |cycle|
      ensures DelayOf(s, cycle[i]) == DelayOf(t, cycle[i])
    {
      DelayDependsOn(s, t, cycle[i]);
    }
  }

  lemma SentKeeps(t: Track, isServer: bool)
    requires Inv(t)
    ensures Inv(Advance(t, Sent(isServer)))
  {
    hide DelayOf, U32, U64, Cong;
    SameDelays(t.s, SendTx(PrepareTx(t.s), isServer), t.cycle);
  }

  lemma {:induction false} RunInv(s0: Sess, es: seq<Event>)
    requires s0.nextRxId == 0
    ensures Inv(Run(s0, es)) && MovesRight(Run(s0, es))
  {
    if es != [] {
      hide Inv, MoveOf, MoveRight, Receive, EndsCycle, Quiet, PrepareTx, SendTx;
      var t := Run(s0, es[..|es| - 1]);
      RunInv(s0, es[..|es| - 1]);
      match es[|es| - 1]
      case Got(rx, now) =>
        SlideIsExact(t, rx, now);
        GotKeeps(t, rx, now);
      case Sent(isServer) => SentKeeps(t, isServer);
    }
  }

  /** Over any run of packets received and sent: the origin is always the one some packet
      really received implied (with no delay of its own), no measured delay is below -20,
      and a forward slide lands exactly on the fastest packet of a cycle free of backslides. */
  lemma {:induction false} OriginFilter(s0: Sess, es: seq<Event>)
    requires s0.nextRxId == 0
    ensures var t := Run(s0, es);
      && (t.got != [] ==> Implied(t.s, t.got))
      && MovesRight(t)
  {
    hide LeastDelay, Implied, MovesRight;
    RunInv(s0, es);
  }
}
