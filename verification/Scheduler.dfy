/** What send_waiting_packets owes each session: the packets it sends and what is left. */
module Scheduler {
  import opened Words
  import opened Wire
  import opened Engine

  datatype Option<T> = None | Some(value: T)

  datatype Addr = Addr(ip: nat, port: nat)

  /** One transmission: to whom, the 64-bit time it was scheduled for, and the packet. */
  datatype Logged = Logged(addr: Addr, due: uint64, p: Packet)

  datatype Fate = Fate(sent: seq<Logged>, survivor: Option<Sess>)

  const SILENCE_USEC := 60 * 1000 * 1000
  const TIME_LIMIT: int := 0x4000_0000_0000_0000

  predicate Due(s: Sess, now: uint64) { Diff64(now, s.nextSend) >= 0 }

  predicate Silent(s: Sess, now: uint64, isServer: bool) {
    isServer && Diff(now, s.lastRxtime) > SILENCE_USEC
  }

  /** The session heard something at `last`, of which it keeps the low 32 bits, less than 36 minutes
      ago. */
  ghost predicate HeardAt(s: Sess, last: int, now: uint64) {
    s.lastRxtime == U32(last) && last <= now < last + 0x8000_0000
  }

  /** The last it heard is more than 60 seconds old. */
  ghost predicate OverAMinute(s: Sess, now: uint64) {
    exists last :: HeardAt(s, last, now) && now - last > 60_000_000
  }

  /** What the server's test for a silent client means; a client makes none. */
  lemma {:induction false} SilentIff(s: Sess, now: uint64, last: int)
    ensures Silent(s, now, true) <==> OverAMinute(s, now)
    ensures HeardAt(s, last, now) ==> (Silent(s, now, true) <==> now - last > 60_000_000)
    ensures !Silent(s, now, false)
  {
    hide Diff, U32;
    if HeardAt(s, last, now) { DiffStamp(now, last); }
    if x :| HeardAt(s, x, now) && now - x > 60_000_000 { DiffStamp(now, x); }
    if Silent(s, now, true) {
      var x := now - Diff(now, s.lastRxtime);
      StampBack(s.lastRxtime, now);
      assert HeardAt(s, x, now);
    }
  }

  lemma SameSilence(s: Sess, t: Sess, now: uint64)
    requires s.lastRxtime == t.lastRxtime && OverAMinute(t, now)
    ensures OverAMinute(s, now)
  {
    var x :| HeardAt(t, x, now) && now - x > 60_000_000;
    assert HeardAt(s, x, now);
  }

  lemma StampBack(stamp: uint32, now: uint64)
    ensures U32(now - Diff(now, stamp)) == stamp
  {
    hide Diff, U32, Cong;
    var x := now - Diff(now, stamp);
    DiffCong(now, stamp);
    U32Cong(x);
    var k0 := Quotient(Diff(now, stamp), now - stamp);
    var k1 := Quotient(U32(x), x);
    MultipleCong(U32(x), stamp, k1 - k0);
    CongUint32(U32(x), stamp);
  }

  function AfterOne(s: Sess, isServer: bool): Sess { SendTx(PrepareTx(s), isServer) }

  /** Times far from the end of 64 bits, and a period that moves time on. */
  predicate Sane(s: Sess) { s.usecPerPkt > 0 && s.nextSend < 2 * TIME_LIMIT }

  lemma DueExact(s: Sess, now: uint64)
    requires Sane(s) && now < TIME_LIMIT
    ensures Due(s, now) <==> s.nextSend <= now
  {
  }

  lemma PowBounds(n: nat)
    requires n <= 10
    ensures 1 <= Pow2(n) <= 1024
  {
    assert Pow2(0) == 1 && Pow2(1) == 2 && Pow2(2) == 4 && Pow2(3) == 8 && Pow2(4) == 16;
    assert Pow2(5) == 32 && Pow2(6) == 64 && Pow2(7) == 128 && Pow2(8) == 256 && Pow2(9) == 512;
  }

  /** Every transmission moves the schedule on, without wrapping. */
  lemma Progress(s: Sess, now: uint64, isServer: bool)
    requires Sane(s) && s.nextSend <= now < TIME_LIMIT
    ensures var t := AfterOne(s, isServer);
      && Sane(t) && t.nextSend > s.nextSend
      && (Paced(s, isServer) ==> t.nextSend == s.nextSend + s.usecPerPkt)
      && t.usecPerPkt == s.usecPerPkt && t.lastRxtime == s.lastRxtime
  {
    hide U32, Backoff, U64;
    BackoffBounds(if s.state == NewSession then 0 else s.retryCount + 1);
    Unwrapped(s.nextSend + s.usecPerPkt);
    Unwrapped(s.nextSend + Backoff(if s.state == NewSession then 0 else s.retryCount + 1));
  }

  lemma BackoffBounds(retries: nat)
    ensures 0 < Backoff(retries) < TIME_LIMIT
  {
    PowBounds(if retries < 10 then retries else 10);
  }

  /** n packets of one session, one after the other. */
  function SentTimes(s: Sess, isServer: bool, n: nat): Sess {
    if n == 0 then s else AfterOne(SentTimes(s, isServer, n - 1), isServer)
  }

  lemma {:induction false} SentTimesIs(s: Sess, isServer: bool, n: nat)
    requires Paced(s, isServer)
    ensures var t := SentTimes(s, isServer, n);
      && Paced(t, isServer) && t.usecPerPkt == s.usecPerPkt && t.lastRxtime == s.lastRxtime
      && t.nextSend == U64(s.nextSend + n * s.usecPerPkt)
  {
    hide U32, U64;
    if n == 0 {
      Unwrapped(s.nextSend);
    } else {
      SentTimesIs(s, isServer, n - 1);
      WrappedSum(s.nextSend + (n - 1) * s.usecPerPkt, s.usecPerPkt);
      assert n * s.usecPerPkt == (n - 1) * s.usecPerPkt + s.usecPerPkt;
    }
  }

  lemma WrappedSum(x: int, y: int)
    ensures U64(U64(x) + y) == U64(x + y)
  {
    var k := x / 0x1_0000_0000_0000_0000;
    assert U64(x) == x - k * 0x1_0000_0000_0000_0000;
  }

  /** The distance the schedule moves in n packets stays far from half of 64 bits. */
  ghost predicate Near(s: Sess, n: nat) { -TIME_LIMIT <= n * s.usecPerPkt <= TIME_LIMIT + 0x8000_0000 }

  const HALF_64: int := 0x8000_0000_0000_0000

  /** How many packets send_waiting_packets sends a session that is due and heard from before it
      gets past it: those overdue, or, with a negative period, those that take its schedule so far
      back that the 64-bit difference turns round. */
  function PacketsToPass(s: Sess, now: uint64): int
    requires s.usecPerPkt != 0
  {
    var p: int := s.usecPerPkt;
    if p > 0 then (now - s.nextSend) / p + 1
    else (HALF_64 - (now - s.nextSend) - p - 1) / -p
  }

  lemma {:induction false} PassedAfter(s: Sess, now: uint64)
    requires s.nextSend <= now < TIME_LIMIT && s.usecPerPkt != 0
    ensures PacketsToPass(s, now) > 0 && !Due(SentTimes(s, true, PacketsToPass(s, now)), now)
    ensures forall n: nat :: n < PacketsToPass(s, now) ==> Due(SentTimes(s, true, n), now)
    ensures s.usecPerPkt < 0 ==> PacketsToPass(s, now) >= 0x8000_0000
  {
    hide Due, SentTimes, PacketsToPass;
    var p: int, lag, k := s.usecPerPkt, now - s.nextSend, PacketsToPass(s, now);
    PassBounds(s, now);
    DueAfter(s, now, k);
    forall n: nat | n < k
      ensures Due(SentTimes(s, true, n), now)
    {
      Between(n, k - 1, p);
      assert (k - 1) * p == k * p - p;
      DueAfter(s, now, n);
    }
  }

  lemma PassBounds(s: Sess, now: uint64)
    requires s.nextSend <= now < TIME_LIMIT && s.usecPerPkt != 0
    ensures var p, lag, k := s.usecPerPkt, now - s.nextSend, PacketsToPass(s, now);
      && k > 0
      && (p > 0 ==> lag < k * p <= lag + p)
      && (p < 0 ==> HALF_64 <= lag - k * p < HALF_64 - p && k >= 0x8000_0000)
  {
    var p, lag, k := s.usecPerPkt, now - s.nextSend, PacketsToPass(s, now);
    if p > 0 { OwedBounds(s.nextSend, p, now, k); } else { TurnsRound(lag, p, k); }
  }

  lemma DueAfter(s: Sess, now: uint64, n: nat)
    requires -HALF_64 <= now - (s.nextSend + n * s.usecPerPkt) < 2 * HALF_64
    ensures Due(SentTimes(s, true, n), now) <==> 0 <= now - (s.nextSend + n * s.usecPerPkt) < HALF_64
  {
    hide U64, Diff64, SentTimes;
    SentTimesIs(s, true, n);
    DueAcross(s.nextSend + n * s.usecPerPkt, now);
  }

  /** Multiples up to that of j lie between 0 and it. */
  lemma Between(n: nat, j: nat, p: int)
    requires n <= j
    ensures p > 0 ==> 0 <= n * p <= j * p
    ensures p < 0 ==> j * p <= n * p <= 0
  {
  }

  lemma TurnsRound(lag: int, p: int, k: int)
    requires 0 <= lag < TIME_LIMIT && -0x8000_0000 <= p < 0 && k == (HALF_64 - lag - p - 1) / -p
    ensures HALF_64 <= lag - k * p < HALF_64 - p && k >= 0x8000_0000
  {
    var m := -p;
    var x := HALF_64 - lag + m - 1;
    assert x == m * k + x % m;
    assert k * p == -(m * k);
    if k < 0x8000_0000 { UpTo(m, k); }
  }

  lemma UpTo(m: int, k: int)
    requires 0 < m <= 0x8000_0000 && k < 0x8000_0000
    ensures m * k <= 0x8000_0000 * 0x8000_0000
  {
    if k > 0 { Wider(m, 0x8000_0000, k); } else { Wider(m, 1, -k); }
  }

  lemma Wider(m: int, n: int, k: nat)
    ensures m <= n ==> m * k <= n * k
    ensures m >= 1 ==> m * (0 - k) <= 0
  {
  }

  /** What the 64-bit comparison makes of a schedule that may have wrapped. */
  lemma DueAcross(next: int, now: uint64)
    requires -HALF_64 <= now - next < 2 * HALF_64
    ensures Diff64(now, U64(next)) >= 0 <==> 0 <= now - next < HALF_64
  {
    if next < 0 { assert U64(next) == next + 2 * HALF_64; }
    else if next < 2 * HALF_64 { assert U64(next) == next; }
    else { assert U64(next) == next - 2 * HALF_64; }
  }

  /** So it gets past such a session in the end exactly unless the period is 0. */
  lemma {:induction false} PassedIff(s: Sess, now: uint64)
    requires s.nextSend <= now < TIME_LIMIT && !OverAMinute(s, now)
    ensures (exists n: nat :: !Due(SentTimes(s, true, n), now)) <==> s.usecPerPkt != 0
    ensures forall n: nat :: !OverAMinute(SentTimes(s, true, n), now)
  {
    hide U64, Diff64, Diff;
    forall n: nat
      ensures !OverAMinute(SentTimes(s, true, n), now)
      ensures s.usecPerPkt == 0 ==> Due(SentTimes(s, true, n), now)
    {
      SentTimesIs(s, true, n);
      if OverAMinute(SentTimes(s, true, n), now) { SameSilence(s, SentTimes(s, true, n), now); }
      if s.usecPerPkt == 0 { DueAcross(s.nextSend, now); }
    }
    if s.usecPerPkt != 0 { PassedAfter(s, now); }
  }

  /** It gets past by its own schedule exactly if the period is positive. Otherwise the session is
      still due, at the same `now`, after any number of packets that does not carry its schedule
      2^62 usec away. */
  lemma {:induction false} CatchesUpIff(s: Sess, now: uint64)
    requires s.nextSend <= now < TIME_LIMIT && !OverAMinute(s, now)
    ensures (exists n: nat :: Near(s, n) && !Due(SentTimes(s, true, n), now)) <==> s.usecPerPkt > 0
    ensures forall n: nat :: !OverAMinute(SentTimes(s, true, n), now)
  {
    hide U64, Diff64, Diff;
    forall n: nat
      ensures !OverAMinute(SentTimes(s, true, n), now)
      ensures s.usecPerPkt <= 0 && Near(s, n) ==> Due(SentTimes(s, true, n), now)
    {
      SentTimesIs(s, true, n);
      if OverAMinute(SentTimes(s, true, n), now) { SameSilence(s, SentTimes(s, true, n), now); }
      if s.usecPerPkt <= 0 && Near(s, n) {
        if n > 0 { AtMostZero(n, s.usecPerPkt); }
        DueAgain(s.nextSend, n * s.usecPerPkt, now);
      }
    }
    if s.usecPerPkt > 0 {
      var n := Owed(s, now);
      var p := s.usecPerPkt;
      SentTimesIs(s, true, n);
      OwedBounds(s.nextSend, p, now, n);
      assert Near(s, n);
      DueNoMore(s.nextSend, n * p, now);
    }
  }

  lemma AtMostZero(n: nat, p: int)
    requires p <= 0
    ensures n * p <= 0
  {
  }

  lemma OwedBounds(next: int, p: int, now: int, n: int)
    requires p > 0 && next <= now && n == (now - next) / p + 1
    ensures now < next + n * p <= now + p && n > 0
  {
    var x := now - next;
    assert x == p * (x / p) + x % p;
    assert n * p == p * (x / p) + p;
  }

  /** Moved back, or not at all, the schedule is still due, even where it wraps below 0. */
  lemma DueAgain(next: uint64, moved: int, now: uint64)
    requires next <= now < TIME_LIMIT && -TIME_LIMIT <= moved <= 0
    ensures Diff64(now, U64(next + moved)) >= 0
  {
    if next + moved < 0 { assert U64(next + moved) == next + moved + 0x1_0000_0000_0000_0000; }
    else { assert U64(next + moved) == next + moved; }
  }

  lemma DueNoMore(next: uint64, moved: int, now: uint64)
    requires next <= now < next + moved <= now + 0x8000_0000 && now < TIME_LIMIT
    ensures Diff64(now, U64(next + moved)) < 0
  {
    assert U64(next + moved) == next + moved;
  }

  lemma Unwrapped(x: int)
    requires 0 <= x < 0x1_0000_0000_0000_0000
    ensures U64(x) == x
  {
  }

  /** Packets go out one by one until the session is on time, or found to be silent. */
  function CatchUp(s: Sess, a: Addr, now: uint64, isServer: bool): Fate
    requires Sane(s) && now < TIME_LIMIT
    decreases now - s.nextSend
  {
    DueExact(s, now);
    if !Due(s, now) then Fate([], Some(s))
    else
      Progress(s, now, isServer);
      var t := AfterOne(s, isServer);
      var entry := Logged(a, s.nextSend, Wired(PrepareTx(s)));
      if Silent(t, now, isServer) then Fate([entry], None)
      else
        var rest := CatchUp(t, a, now, isServer);
        Fate([entry] + rest.sent, rest.survivor)
  }

  // ---- in closed form, for sessions paced by the clock ----

  /** How many slots are overdue. */
  function Owed(s: Sess, now: uint64): nat
    requires s.usecPerPkt > 0 && s.nextSend <= now
  {
    (now - s.nextSend) / s.usecPerPkt + 1
  }

  /** The i-th packet of a session that is catching up. */
  ghost predicate OnGrid(s: Sess, a: Addr, i: nat, e: Logged) {
    && e.addr == a
    && e.due == s.nextSend + i * s.usecPerPkt
    && e.p.h.txtime == U32(e.due)
    && e.p.h.id == U32(s.nextTxId + i)
    && e.p.data == s.txData
  }

  ghost predicate Caught(s: Sess, t: Sess, n: nat, now: uint64) {
    && t == s.(nextSend := t.nextSend, nextTxId := t.nextTxId, tx := t.tx)
    && t.nextSend == s.nextSend + n * s.usecPerPkt
    && now < t.nextSend <= now + s.usecPerPkt
    && t.nextTxId == U32(s.nextTxId + n)
  }

  lemma {:induction false} Packets(s: Sess, a: Addr, now: uint64, isServer: bool)
    requires Sane(s) && now < TIME_LIMIT && Paced(s, isServer)
    requires s.nextSend <= now && !Silent(s, now, isServer)
    ensures var f := CatchUp(s, a, now, isServer);
      && |f.sent| == Owed(s, now)
      && (forall i :: 0 <= i < |f.sent| ==> OnGrid(s, a, i, f.sent[i]))
      && f.survivor.Some? && Caught(s, f.survivor.value, |f.sent|, now)
    decreases now - s.nextSend
  {
    hide U32, Diff, Diff64, OnGrid, Caught, Owed, SendTx, PrepareTx;
    DueExact(s, now);
    Progress(s, now, isServer);
    var f, t := CatchUp(s, a, now, isServer), AfterOne(s, isServer);
    var g := CatchUp(t, a, now, isServer);
    DueExact(t, now);
    FirstOnGrid(s, a, now, isServer);
    SameKind(s, isServer);
    if t.nextSend <= now {
      Packets(t, a, now, isServer);
      OneLessOwed(s, t, now);
      CaughtStep(s, isServer, g.survivor.value, |g.sent|, now);
      forall i | 0 <= i < |f.sent|
        ensures OnGrid(s, a, i, f.sent[i])
      {
        if i > 0 {
          assert f.sent[i] == g.sent[i - 1];
          LaterOnGrid(s, a, isServer, i - 1, f.sent[i]);
        }
      }
    } else {
      CaughtNow(s, isServer, now);
      assert f.sent == [f.sent[0]];
    }
  }

  lemma SameKind(s: Sess, isServer: bool)
    requires Paced(s, isServer)
    ensures Paced(AfterOne(s, isServer), isServer) && AfterOne(s, isServer).state == s.state
  {
    hide U32, U64;
  }

  lemma OneLessOwed(s: Sess, t: Sess, now: uint64)
    requires s.usecPerPkt > 0 && t.usecPerPkt == s.usecPerPkt
    requires t.nextSend == s.nextSend + s.usecPerPkt <= now
    ensures Owed(s, now) == Owed(t, now) + 1
  {
    OwedStep(s.nextSend, s.usecPerPkt, now);
  }

  lemma CaughtStep(s: Sess, isServer: bool, u: Sess, n: nat, now: uint64)
    requires Paced(s, isServer) && Caught(AfterOne(s, isServer), u, n, now)
    requires AfterOne(s, isServer).nextSend == s.nextSend + s.usecPerPkt
    ensures Caught(s, u, n + 1, now)
  {
    hide U32, U64;
    SlotSum(s.nextTxId, n);
    assert (n + 1) * s.usecPerPkt == n * s.usecPerPkt + s.usecPerPkt;
  }

  lemma CaughtNow(s: Sess, isServer: bool, now: uint64)
    requires Paced(s, isServer) && s.usecPerPkt > 0
    requires s.nextSend <= now < AfterOne(s, isServer).nextSend == s.nextSend + s.usecPerPkt
    ensures Caught(s, AfterOne(s, isServer), 1, now) && Owed(s, now) == 1
  {
    hide U64, U32;
    OwedOne(s.nextSend, s.usecPerPkt, now);
  }

  lemma FirstOnGrid(s: Sess, a: Addr, now: uint64, isServer: bool)
    requires Sane(s) && now < TIME_LIMIT && s.nextSend <= now
    ensures var f := CatchUp(s, a, now, isServer); f.sent != [] && OnGrid(s, a, 0, f.sent[0])
  {
    hide Diff, Diff64, SendTx;
    DueExact(s, now);
    Progress(s, now, isServer);
  }

  lemma LaterOnGrid(s: Sess, a: Addr, isServer: bool, i: nat, e: Logged)
    requires Paced(s, isServer) && AfterOne(s, isServer).nextSend == s.nextSend + s.usecPerPkt
    requires OnGrid(AfterOne(s, isServer), a, i, e)
    ensures OnGrid(s, a, i + 1, e)
  {
    hide U64;
    SlotSum(s.nextTxId, i);
    assert (i + 1) * s.usecPerPkt == i * s.usecPerPkt + s.usecPerPkt;
  }

  lemma SlotSum(id: uint32, n: nat)
    ensures U32(U32(id + 1) + n) == U32(id + (n + 1))
  {
  }

  lemma OwedStep(next: int, p: int, now: int)
    requires p > 0 && next + p <= now
    ensures (now - next) / p == (now - (next + p)) / p + 1
  {
    var x := now - (next + p);
    var q := x / p;
    assert x + p == p * (q + 1) + x % p;
    DivIs(x + p, p, q + 1, x % p);
  }

  lemma OwedOne(next: int, p: int, now: int)
    requires p > 0 && next <= now < next + p
    ensures (now - next) / p == 0
  {
    DivIs(now - next, p, 0, now - next);
  }

  lemma AtLeast(p: int, d: int)
    requires p > 0
    ensures d >= 1 ==> p * d >= p
    ensures d <= -1 ==> p * d <= -p
  {
  }

  lemma DivIs(x: int, p: int, q: int, r: int)
    requires p > 0 && 0 <= r < p && x == p * q + r
    ensures x / p == q
  {
    var d := x / p - q;
    assert p * d == r - x % p;
    AtLeast(p, d);
  }

  /** The server's whole duty to one session: nothing before its time; if due and heard
      from in the last minute, exactly floor((now - next_send) / usec_per_pkt) + 1 packets on
      the session's own grid; if due but silent, one packet and then removal. */
  lemma {:induction false} ServerFate(s: Sess, a: Addr, now: uint64)
    requires Sane(s) && now < TIME_LIMIT
    ensures var f := CatchUp(s, a, now, true);
      && (s.nextSend > now ==> f == Fate([], Some(s)))
      && (s.nextSend <= now && OverAMinute(s, now) ==>
            |f.sent| == 1 && OnGrid(s, a, 0, f.sent[0]) && f.survivor == None)
      && (s.nextSend <= now && !OverAMinute(s, now) ==>
            && |f.sent| == Owed(s, now)
            && (forall i :: 0 <= i < |f.sent| ==> OnGrid(s, a, i, f.sent[i]))
            && f.survivor.Some? && Caught(s, f.survivor.value, |f.sent|, now))
  {
    hide U32, Diff, Diff64;
    DueExact(s, now);
    if s.nextSend <= now {
      FirstOnGrid(s, a, now, true);
      Progress(s, now, true);
      SilentIff(s, now, 0);
      if !Silent(s, now, true) { Packets(s, a, now, true); }
    }
  }

  /** A client is never dropped, and once it has its cookie it catches up on the same grid. */
  lemma {:induction false} ClientFate(s: Sess, a: Addr, now: uint64)
    requires Sane(s) && now < TIME_LIMIT
    ensures var f := CatchUp(s, a, now, false);
      && f.survivor.Some?
      && (s.nextSend > now ==> f == Fate([], Some(s)))
      && (s.nextSend <= now && (s.state == CookieGenerated || s.state == Established) ==>
            && |f.sent| == Owed(s, now)
            && (forall i :: 0 <= i < |f.sent| ==> OnGrid(s, a, i, f.sent[i]))
            && Caught(s, f.survivor.value, |f.sent|, now))
  {
    hide U32, Diff, Diff64, Silent;
    DueExact(s, now);
    NeverEvicted(s, a, now);
    SilentIff(s, now, 0);
    if s.nextSend <= now && (s.state == CookieGenerated || s.state == Established) { Packets(s, a, now, false); }
  }

  lemma {:induction false} NeverEvicted(s: Sess, a: Addr, now: uint64)
    requires Sane(s) && now < TIME_LIMIT
    ensures CatchUp(s, a, now, false).survivor.Some?
    decreases now - s.nextSend
  {
    hide Diff, Diff64, SendTx, PrepareTx, Silent;
    DueExact(s, now);
    if Due(s, now) {
      Progress(s, now, false);
      var t := AfterOne(s, false);
      SilentIff(t, now, 0);
      DueExact(t, now);
      if t.nextSend <= now { NeverEvicted(t, a, now); }
    }
  }

  // ---- handshake backoff ----

  /** The client's unanswered sends, one after the other. */
  function Unanswered(s: Sess, n: nat): Sess {
    if n == 0 then s else AfterOne(Unanswered(s, n - 1), false)
  }

  function BackoffSum(n: nat): int {
    1_000_000 * (if n <= 11 then Pow2(n) - 1 else 2047 + 1024 * (n - 11))
  }

  ghost predicate BackedOff(s: Sess, n: nat, next: int) {
    && s.nextSend == next && s.nextTxId == 1
    && (if n == 0 then s.state == NewSession else s.state == HandshakeRequested && s.retryCount == n - 1)
  }

  /** After n unanswered sends: the exponential schedule, and the packet to be sent next is
      still handshake packet number 1. */
  lemma {:induction false} HandshakeBackoff(first: uint64, rate: uint32, n: nat)
    requires first + BackoffSum(n) < 0x1_0000_0000_0000_0000
    ensures var s := Unanswered(NewSess(first, rate), n);
      && BackedOff(s, n, first + BackoffSum(n))
      && PrepareTx(s).tx.id == 1 && PrepareTx(s).tx.kind == Handshake
  {
    hide Backoff, BackoffSum;
    if n == 0 {
      assert BackoffSum(0) == 0 by { BackoffStep(0); }
    } else {
      BackoffStep(n - 1);
      HandshakeBackoff(first, rate, n - 1);
      BackedOffStep(Unanswered(NewSess(first, rate), n - 1), n - 1, first + BackoffSum(n - 1));
    }
  }

  lemma BackedOffStep(s: Sess, n: nat, next: int)
    requires BackedOff(s, n, next) && 0 <= next + Backoff(n) < 0x1_0000_0000_0000_0000
    ensures BackedOff(AfterOne(s, false), n + 1, next + Backoff(n))
  {
    hide Backoff;
  }

  lemma BackoffStep(n: nat)
    ensures BackoffSum(n + 1) == BackoffSum(n) + Backoff(n) >= BackoffSum(n) && BackoffSum(0) == 0
  {
    assert Pow2(0) == 1 && Pow2(1) == 2 && Pow2(2) == 4 && Pow2(3) == 8 && Pow2(4) == 16;
    assert Pow2(5) == 32 && Pow2(6) == 64 && Pow2(7) == 128 && Pow2(8) == 256 && Pow2(9) == 512;
    assert Pow2(10) == 1024 && Pow2(11) == 2048;
    if n < 10 { assert Pow2(n + 1) == 2 * Pow2(n); }
  }
}
