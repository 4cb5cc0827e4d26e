/** isostream's server: bytes paced against a goal line, with sleeps in nanoseconds and a
    clock that shows whole microseconds. */
module Isostream {
  import opened Words

  const BUFSIZE := 1024 * 1024
  const MAX_MBITS := 1000

  function Min(a: int, b: int): int { if a < b then a else b }

  /** bytes_per_period: a tenth of a second's worth, but no more than 64 KiB. */
  function BytesPerPeriod(mb: nat): nat { Min(mb * 1_000_000 / 8 / 10, 65536) }

  /** The bytes due at tick u; megabits/sec times microseconds are bits. */
  function Goal(mb: nat, u: nat): nat { u * mb / 8 }

  /** A write that completed: the instant, in nanoseconds, and the bytes written by then. */
  datatype Write = Write(at: nat, total: nat)

  /** The server: real time in nanoseconds since the microsecond its clock said `start`, the
      bytes written, and what was written when. */
  datatype Pace = Pace(z: nat, total: nat, writes: seq<Write>)

  function Tick(p: Pace): nat { p.z / 1000 }

  function ToWrite(mb: nat, p: Pace): int { Goal(mb, Tick(p)) - p.total }

  predicate Sleeps(mb: nat, p: Pace) { ToWrite(mb, p) < BytesPerPeriod(mb) }

  function DelayNsec(mb: nat, p: Pace): nat
    requires mb > 0 && Sleeps(mb, p)
  {
    DivBounds((BytesPerPeriod(mb) - ToWrite(mb, p)) * 8 * 1000, mb, (BytesPerPeriod(mb) - ToWrite(mb, p)) * 8 * 1000 / mb);
    (BytesPerPeriod(mb) - ToWrite(mb, p)) * 8 * 1000 / mb
  }

  /** One turn of the loop: an exact sleep, or a write that completes. (At 0 megabits/sec
      nothing is ever due and every turn writes nothing.) */
  function Turn(mb: nat, p: Pace): Pace {
    if mb > 0 && Sleeps(mb, p) then p.(z := p.z + DelayNsec(mb, p))
    else
      var t := p.total + if ToWrite(mb, p) > 0 then Min(ToWrite(mb, p), BUFSIZE) else 0;
      p.(total := t, writes := p.writes + [Write(p.z, t)])
  }

  function Turns(mb: nat, phase: nat, n: nat): Pace {
    if n == 0 then Pace(phase, 0, []) else Turn(mb, Turns(mb, phase, n - 1))
  }

  /** The pacing loop of run_server, for a given number of turns. A request outside the
      accepted range is refused. */
  method RunServer(megabits: int, phase: nat, turns: nat) returns (served: bool, p: Pace)
    requires phase < 1000
    ensures served <==> 0 <= megabits <= 1000
    ensures served ==> p == Turns(megabits, phase, turns) && p.total <= Goal(megabits, Tick(p))
    ensures !served ==> p == Pace(phase, 0, [])
  {
    hide Goal, BytesPerPeriod;
    var z: nat := phase;
    var total: nat := 0;
    var writes := [];
    served := 0 <= megabits <= MAX_MBITS;
    if served {
      var perPeriod := BytesPerPeriod(megabits);
      var i := 0;
      AlwaysPaced(megabits, phase, 0);
      while i < turns
        invariant 0 <= i <= turns
        invariant Pace(z, total, writes) == Turns(megabits, phase, i)
        invariant Paced(megabits, Pace(z, total, writes))
      {
        NothingAtZero(z / 1000);
        var toWrite := Goal(megabits, z / 1000) - total;
        if toWrite < perPeriod {
          var need: nat := (perPeriod - toWrite) * 8 * 1000;
          DivBounds(need, megabits, need / megabits);
          z := z + need / megabits;
        } else {
          total := total + if toWrite > 0 then Min(toWrite, BUFSIZE) else 0;
          writes := writes + [Write(z, total)];
        }
        i := i + 1;
        AlwaysPaced(megabits, phase, i);
      }
    }
    p := Pace(z, total, writes);
  }

  lemma NothingAtZero(u: nat)
    ensures Goal(0, u) == 0 && BytesPerPeriod(0) == 0
  {
  }

  // ---- what every turn keeps ----

  ghost predicate Paced(mb: nat, p: Pace) {
    && p.total <= Goal(mb, Tick(p))
    && (Tick(p) > 0 ==> mb * (Tick(p) - 1) <= 8 * (BytesPerPeriod(mb) + p.total) + 7)
  }

  /** A sleep ends before any tick at which more than bytes_per_period would be due. */
  lemma SleepKeeps(mb: nat, p: Pace)
    requires 1 <= mb <= 1000 && Paced(mb, p) && Sleeps(mb, p)
    ensures Paced(mb, Turn(mb, p)) && Turn(mb, p).z > p.z
  {
    hide Goal, BytesPerPeriod;
    var u: int, w: int := Tick(p), Tick(Turn(mb, p));
    var need := BytesPerPeriod(mb) - ToWrite(mb, p);
    var d := DelayNsec(mb, p);
    DivBounds(need * 8 * 1000, mb, d);
    GoalBounds(mb, u);
    WakeBound(mb, u, w - u - 1, d, need);
    GoalMonotone(mb, u, w);
  }

  /** Waking k + 1 ticks after u means k whole ticks were slept through. */
  lemma WakeBound(mb: nat, u: nat, k: int, d: nat, need: int)
    requires mb * d <= need * 8 * 1000 && 1000 * k <= d
    ensures mb * (u + k) <= mb * u + 8 * need
  {
    Scale(mb, 1000 * k, d);
    assert mb * (1000 * k) == 1000 * (mb * k);
    assert mb * (u + k) == mb * u + mb * k;
  }

  lemma DivBounds(x: nat, m: nat, d: int)
    requires m > 0 && d == x / m
    ensures d >= 0 && m * d <= x < m * d + m
    ensures x >= m ==> d > 0
  {
    assert x == m * d + x % m;
    if d <= -1 { Scale(m, d, -1); }
  }

  lemma GoalBounds(mb: nat, u: nat)
    ensures mb * u - 7 <= 8 * Goal(mb, u) <= mb * u
  {
    assert u * mb == mb * u;
  }

  lemma Scale(m: nat, a: int, b: int)
    requires a <= b
    ensures m * a <= m * b
  {
  }

  lemma GoalMonotone(mb: nat, u: nat, w: nat)
    requires u <= w
    ensures Goal(mb, u) <= Goal(mb, w)
  {
    Scale(mb, u, w);
    assert u * mb == mb * u && w * mb == mb * w;
  }

  /** At a turn that writes, everything due goes out in one piece. */
  lemma WriteKeeps(mb: nat, p: Pace)
    requires 1 <= mb <= 1000 && Paced(mb, p) && !Sleeps(mb, p)
    ensures Paced(mb, Turn(mb, p)) && Turn(mb, p).total == Goal(mb, Tick(p))
  {
    var u := Tick(p);
    GoalBounds(mb, u);
    assert mb * u == mb * (u - 1) + mb;
    assert ToWrite(mb, p) <= BUFSIZE;
  }

  /** From any state a turn writes a megabyte at most, the size of the buffer; paced, everything due
      goes out at once. */
  lemma {:induction false} ChunkBound(mb: nat, p: Pace)
    requires mb <= 1000
    ensures 0 <= Turn(mb, p).total - p.total <= 1_048_576
    ensures mb > 0 && Paced(mb, p) && !Sleeps(mb, p) ==> Turn(mb, p).total == Goal(mb, Tick(p))
  {
    hide Goal, BytesPerPeriod;
    if mb > 0 && Paced(mb, p) && !Sleeps(mb, p) { WriteKeeps(mb, p); }
  }

  lemma {:induction false} AlwaysPaced(mb: nat, phase: nat, n: nat)
    requires mb <= 1000 && phase < 1000
    ensures Paced(mb, Turns(mb, phase, n))
  {
    if n > 0 {
      AlwaysPaced(mb, phase, n - 1);
      var p := Turns(mb, phase, n - 1);
      hide Turns, Goal, BytesPerPeriod;
      NothingAtZero(Tick(p));
      if mb == 0 {
      } else if Sleeps(mb, p) {
        SleepKeeps(mb, p);
      } else {
        WriteKeeps(mb, p);
      }
    }
  }

  // ---- does the server wake in time? ----

  /** A sleep that runs past a tick at which bytes_per_period was already due. */
  ghost predicate Oversleeps(mb: nat, p: Pace)
    requires mb > 0
  {
    exists x: nat :: Tick(p) <= x < Tick(Turn(mb, p)) && FullAt(mb, p, x)
  }

  ghost predicate FullAt(mb: nat, p: Pace, x: nat) { Goal(mb, x) - p.total >= BytesPerPeriod(mb) }

  /** Whole ticks from now until bytes_per_period is due. */
  function TicksToFull(mb: nat, p: Pace): int
    requires mb > 0
  {
    var need := BytesPerPeriod(mb) - ToWrite(mb, p);
    var accrued := mb * Tick(p) - 8 * Goal(mb, Tick(p));  // bits of the next byte
    (8 * need - accrued + mb - 1) / mb
  }

  lemma CeilMeaning(x: int, m: nat, k: int)
    requires m > 0
    ensures m * k >= x <==> k >= (x + m - 1) / m
  {
    var c := (x + m - 1) / m;
    var r := (x + m - 1) % m;
    assert x + m - 1 == m * c + r;
    if k >= c { Scale(m, c, k); } else { Scale(m, k, c - 1); assert m * (c - 1) == m * c - m; }
  }

  lemma FullMeaning(mb: nat, p: Pace, x: nat)
    requires mb > 0
    ensures FullAt(mb, p, x) <==> x - Tick(p) >= TicksToFull(mb, p)
  {
    hide Goal, BytesPerPeriod;
    var u: int := Tick(p);
    var full := BytesPerPeriod(mb) + p.total;
    GoalBounds(mb, x);
    assert Goal(mb, x) >= full <==> mb * x >= 8 * full;
    var need := BytesPerPeriod(mb) - ToWrite(mb, p);
    assert mb * (x - u) == mb * x - mb * u;
    CeilMeaning(8 * need - (mb * u - 8 * Goal(mb, u)), mb, x - u);
  }

  /** Bits due at a tick beyond the whole bytes of the goal line. */
  function Spare(mb: nat, u: nat): (r: int)
    ensures 0 <= r <= 7
  {
    GoalBounds(mb, u);
    mb * u - 8 * Goal(mb, u)
  }

  /** Bits due at the first full tick beyond the bytes_per_period that makes it full. */
  function Excess(mb: nat, p: Pace): int
    requires mb > 0
  {
    mb * TicksToFull(mb, p) - (8 * (BytesPerPeriod(mb) - ToWrite(mb, p)) - Spare(mb, Tick(p)))
  }

  /** Exactly when the server oversleeps: it has lost sight of `Spare` bits of the next byte, which
      have to outweigh the excess at the first full tick by what is left of its microsecond. */
  lemma {:induction false} OversleepsIff(mb: nat, p: Pace)
    requires 1 <= mb <= 1000 && Sleeps(mb, p)
    ensures Oversleeps(mb, p) <==> 1000 * (Spare(mb, Tick(p)) - Excess(mb, p)) >= mb * (1000 - p.z % 1000)
  {
    hide Goal, BytesPerPeriod, FullAt, TicksToFull, DelayNsec;
    var u: int, w: int := Tick(p), Tick(Turn(mb, p));
    var k, d, f := TicksToFull(mb, p), DelayNsec(mb, p), p.z % 1000;
    assert w - u == (f + d) / 1000;
    FullNotYet(mb, p);
    if Oversleeps(mb, p) {
      var x: nat :| u <= x < w && FullAt(mb, p, x);
      FullMeaning(mb, p, x);
    }
    if w - u > k {
      FullMeaning(mb, p, u + k);
    }
    assert Oversleeps(mb, p) <==> d >= 1000 * (k + 1) - f;
    var need: nat := BytesPerPeriod(mb) - ToWrite(mb, p);
    assert d == need * 8 * 1000 / mb by { DelayIs(mb, p); }
    QuotientAtLeast(need * 8 * 1000, mb, d, 1000 * (k + 1) - f);
    assert mb * (1000 * (k + 1) - f) == 1000 * (mb * k) + mb * (1000 - f);
  }

  lemma DelayIs(mb: nat, p: Pace)
    requires mb > 0 && Sleeps(mb, p)
    ensures DelayNsec(mb, p) == (BytesPerPeriod(mb) - ToWrite(mb, p)) * 8 * 1000 / mb
  {
  }

  lemma QuotientAtLeast(x: nat, m: nat, d: int, t: int)
    requires m > 0
    requires d == x / m
    ensures d >= t <==> x >= m * t
  {
    DivBounds(x, m, d);
    if d >= t { Scale(m, t, d); } else { Scale(m, d + 1, t); assert m * (d + 1) == m * d + m; }
  }

  lemma FullNotYet(mb: nat, p: Pace)
    requires mb > 0 && Sleeps(mb, p)
    ensures TicksToFull(mb, p) > 0
  {
    hide Goal, BytesPerPeriod, TicksToFull;
    FullMeaning(mb, p, Tick(p));
  }

  /** What that means for an operator: never from a tick at which whole bytes are due, as in the
      first sleep of all, and only late in a microsecond, the later the faster the stream. */
  lemma {:induction false} OversleepsRarely(mb: nat, p: Pace)
    requires 1 <= mb <= 1000 && Sleeps(mb, p) && Oversleeps(mb, p)
    ensures Spare(mb, Tick(p)) > 0
    ensures mb * (1000 - p.z % 1000) <= 7000
  {
    hide Goal, BytesPerPeriod, TicksToFull, FullAt, Oversleeps;
    OversleepsIff(mb, p);
    ExcessBound(mb, p);
    Scale(mb, 1, 1000 - p.z % 1000);
  }

  lemma ExcessBound(mb: nat, p: Pace)
    requires mb > 0
    ensures 0 <= Excess(mb, p) < mb
  {
    hide Goal, BytesPerPeriod;
    var x := 8 * (BytesPerPeriod(mb) - ToWrite(mb, p)) - Spare(mb, Tick(p));
    CeilMeaning(x, mb, TicksToFull(mb, p));
    CeilMeaning(x, mb, TicksToFull(mb, p) - 1);
    assert mb * (TicksToFull(mb, p) - 1) == mb * TicksToFull(mb, p) - mb;
  }

  /** It does happen: at 7 megabits/sec, started 300 nsec into a microsecond, the second
      period's sleep runs past the tick at which the period was complete. */
  lemma {:induction false} OversleepsATick()
    ensures Oversleeps(7, Turns(7, 300, 3)) && Turns(7, 300, 3).writes == [Write(74_899_727, 65536)]
  {
    var p0 := Turns(7, 300, 0);
    var p1 := Turns(7, 300, 1);
    assert p1 == Pace(74_898_585, 0, []);
    var p2 := Turns(7, 300, 2);
    assert p2 == Pace(74_899_727, 0, []);
    var p3 := Turns(7, 300, 3);
    assert p3 == Pace(74_899_727, 65536, [Write(74_899_727, 65536)]);
    assert Tick(Turn(7, p3)) == 149_798 && FullAt(7, p3, 149_797);
  }

  /** Even before the first write, from its second sleep on. */
  lemma {:induction false} OversleepsAtFirst()
    ensures Oversleeps(7, Turns(7, 600, 1)) && Turns(7, 600, 1).writes == []
  {
    var p1 := Turns(7, 600, 1);
    assert p1 == Turn(7, Turns(7, 600, 0)) == Pace(74_898_885, 0, []);
    assert Tick(Turn(7, p1)) == 74_900 && FullAt(7, p1, 74_899);
  }

  /** But what it is late for is only ever the last byte: while it sleeps its lag does not
      exceed bytes_per_period. */
  lemma {:induction false} LagBounded(mb: nat, p: Pace, x: nat)
    requires 1 <= mb <= 1000 && Paced(mb, p) && Tick(p) <= x < Tick(Turn(mb, p))
    ensures Goal(mb, x) - p.total <= BytesPerPeriod(mb)
  {
    hide Goal, BytesPerPeriod, DelayNsec;
    if Sleeps(mb, p) {
      SleepKeeps(mb, p);
      Scale(mb, x, Tick(Turn(mb, p)) - 1);
      GoalBounds(mb, x);
    }
  }

  // ---- what a client measures ----

  /** How far ahead of its own goal line a client is, in usec. */
  function UsecOffset(mb: nat, received: int, elapsed: nat): int
    requires mb > 0
  {
    var offset := received - Goal(mb, elapsed);
    Quot(offset * 8, mb)
  }

  /** Ahead or behind, the offset is the time in which the bytes it is off by would come, in whole
      microseconds towards 0. */
  lemma {:induction false} OffsetMeaning(mb: nat, received: int, elapsed: nat)
    requires mb > 0
    ensures 8 * Goal(mb, elapsed) <= mb * elapsed < 8 * Goal(mb, elapsed) + 8
    ensures var u, ahead := UsecOffset(mb, received, elapsed), received - Goal(mb, elapsed);
      && (ahead >= 0 ==> u >= 0 && mb * u <= 8 * ahead < mb * u + mb)
      && (ahead <= 0 ==> u <= 0 && mb * -u <= 8 * -ahead < mb * -u + mb)
  {
    hide Goal;
    GoalBounds(mb, elapsed);
    var bits := 8 * (received - Goal(mb, elapsed));
    if bits >= 0 { DivBounds(bits, mb, bits / mb); } else { DivBounds(-bits, mb, -bits / mb); }
  }

  /** However far behind it is, a client that has received anything at all, or nothing, is
      never further behind than the time since its start. */
  lemma {:induction false} OffsetBound(mb: nat, received: nat, elapsed: nat)
    requires mb > 0
    ensures UsecOffset(mb, received, elapsed) + elapsed >= 0
  {
    hide Goal;
    var lag := (Goal(mb, elapsed) - received) * 8;
    GoalBounds(mb, elapsed);
    if lag > 0 {
      DivBounds(lag, mb, lag / mb);
      if lag / mb > elapsed { Scale(mb, elapsed + 1, lag / mb); }
    }
  }
}
