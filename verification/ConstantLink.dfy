/** isostream's client at the far end of a link of constant delay: both clocks count whole
    microseconds of the same real time, each with a phase of its own. */
module ConstantLink {
  import opened Words
  import opened Isostream
  import opened Rates

  /** Nanoseconds: how long bytes travel, and how far the client's clock is ahead. */
  datatype Link = Link(delay: nat, ahead: int) {
    /** What the client's clock shows at real instant t, an instant of the server's. */
    function Clock(t: int): int { (t + ahead) / 1000 }

    /** The client's clock moves on when the server's did as the bytes now arriving left. */
    predicate Aligned() { (delay + ahead) % 1000 == 0 }
  }

  /** The bytes written by instant t. */
  function WrittenBy(writes: seq<Write>, t: int): nat {
    if writes == [] then 0
    else
      var last := writes[|writes| - 1];
      if last.at <= t then last.total else WrittenBy(writes[..|writes| - 1], t)
  }

  /** What a client that began counting at instant `begun`, and has read all that has arrived,
      measures at instant t. */
  function OffsetAt(mb: nat, writes: seq<Write>, link: Link, begun: int, t: int): int
    requires mb > 0 && begun <= t
  {
    UsecOffset(mb, WrittenBy(writes, t - link.delay), link.Clock(t) - link.Clock(begun))
  }

  /** The client begins no earlier than the first data arrive, and the server has got far
      enough to decide what has arrived by instant t. */
  ghost predicate Watching(p: Pace, link: Link, begun: int, t: int) {
    p.writes != [] && p.writes[0].at + link.delay <= begun <= t < p.z + link.delay
  }

  // ---- the server's sleeps, bit by bit ----

  function Need(mb: nat, p: Pace): int { BytesPerPeriod(mb) - ToWrite(mb, p) }

  /** The sleep in ticks, rounded up. */
  function WakeTicks(mb: nat, p: Pace): int
    requires mb > 0
  {
    (8 * Need(mb, p) + mb - 1) / mb
  }

  /** Bits due WakeTicks from now beyond the period the server is waiting for. */
  function Extra(mb: nat, p: Pace): int
    requires mb > 0
  {
    mb * (Tick(p) + WakeTicks(mb, p)) - 8 * (BytesPerPeriod(mb) + p.total)
  }

  /** Extra in terms of what the server cannot see: the spare bits now. */
  lemma ExtraIs(mb: nat, p: Pace)
    requires mb > 0
    ensures Extra(mb, p) == Spare(mb, Tick(p)) + mb * WakeTicks(mb, p) - 8 * Need(mb, p)
    ensures Spare(mb, Tick(p)) <= Extra(mb, p) < Spare(mb, Tick(p)) + mb
  {
    hide Goal, BytesPerPeriod;
    CeilBounds(8 * Need(mb, p), mb);
    assert mb * (Tick(p) + WakeTicks(mb, p)) == mb * Tick(p) + mb * WakeTicks(mb, p);
  }

  /** A sleep lasts no longer than its whole ticks, rounded up. */
  lemma WakesBy(mb: nat, p: Pace)
    requires mb > 0 && Sleeps(mb, p)
    ensures Turn(mb, p).z <= p.z + 1000 * WakeTicks(mb, p)
    ensures mb * (Turn(mb, p).z - p.z) <= 8000 * Need(mb, p)
  {
    hide Goal, BytesPerPeriod;
    var d, k := Turn(mb, p).z - p.z, WakeTicks(mb, p);
    DivBounds(Need(mb, p) * 8 * 1000, mb, d);
    CeilBounds(8 * Need(mb, p), mb);
    assert mb * (1000 * k + 1) == 1000 * (mb * k) + mb;
    if d > 1000 * k { Scale(mb, 1000 * k + 1, d); }
  }

  /** The server is at a turn that follows a write or the start, or it has slept and is at most
      one tick short of a period. */
  ghost predicate Woken(mb: nat, p: Pace) {
    Goal(mb, Tick(p)) == p.total || mb * (Tick(p) + 1) >= 8 * (BytesPerPeriod(mb) + p.total)
  }

  ghost predicate Sent(mb: nat, p: Pace) {
    && (forall i :: 0 <= i < |p.writes| ==> p.writes[i].at <= p.z)
    && (p.writes == [] ==> p.total == 0)
    && (p.writes != [] ==>
          && p.writes[|p.writes| - 1].total == p.total
          && Goal(mb, p.writes[0].at / 1000) >= BytesPerPeriod(mb))
  }

  lemma SleepWakes(mb: nat, p: Pace)
    requires 1 <= mb <= 1000 && Sleeps(mb, p)
    ensures Woken(mb, Turn(mb, p))
  {
    hide Goal, BytesPerPeriod;
    var q := Turn(mb, p);
    var u, w, d := Tick(p), Tick(q), q.z - p.z;
    DivBounds(Need(mb, p) * 8 * 1000, mb, d);
    GoalBounds(mb, u);
    SleptLongEnough(mb, u, w, d, Need(mb, p));
  }

  lemma SleptLongEnough(mb: nat, u: int, w: int, d: int, need: int)
    requires 8000 * need < mb * d + mb && 1000 * u + d + 1 <= 1000 * (w + 1)
    ensures mb * u + 8 * need < mb * (w + 1)
  {
    Scale(mb, 1000 * u + d + 1, 1000 * (w + 1));
    assert mb * (1000 * u + d + 1) == 1000 * (mb * u) + mb * d + mb;
    assert mb * (1000 * (w + 1)) == 1000 * (mb * (w + 1));
  }

  lemma {:induction false} AlwaysWoken(mb: nat, phase: nat, n: nat)
    requires 1 <= mb <= 1000 && phase < 1000
    ensures Woken(mb, Turns(mb, phase, n)) && Sent(mb, Turns(mb, phase, n))
  {
    if n > 0 {
      AlwaysWoken(mb, phase, n - 1);
      AlwaysPaced(mb, phase, n - 1);
      var p := Turns(mb, phase, n - 1);
      hide Turns, Goal, BytesPerPeriod, Woken;
      if Sleeps(mb, p) {
        SleepWakes(mb, p);
        SleepKeeps(mb, p);
      } else {
        WriteKeeps(mb, p);
        assert Woken(mb, Turn(mb, p)) by { ExactAfterWrite(mb, p); }
      }
    }
  }

  lemma ExactAfterWrite(mb: nat, p: Pace)
    requires !Sleeps(mb, p) && Turn(mb, p).total == Goal(mb, Tick(p))
    ensures Woken(mb, Turn(mb, p))
  {
    hide Goal, BytesPerPeriod;
  }

  // ---- three kinds of sleep ----

  /** After a write; or short of a period by at most a tick, which then makes it full within
      the tick; or short by the `m` bits that one tick does not cover. */
  datatype Kind = AfterWrite | Covered | Uncovered(m: int)

  ghost predicate IsKind(mb: nat, p: Pace, kind: Kind)
    requires mb > 0
  {
    match kind
    case AfterWrite => Extra(mb, p) == Spare(mb, Tick(p)) + Slack(mb)
    case Covered => Extra(mb, p) < mb
    case Uncovered(m) =>
      && 1 <= m <= Spare(mb, Tick(p)) && 8 * Need(mb, p) == mb + m
      && WakeTicks(mb, p) == 2 && Extra(mb, p) == mb + Spare(mb, Tick(p)) - m
  }

  lemma KindOf(mb: nat, p: Pace) returns (kind: Kind)
    requires 6 <= mb <= 1000 && Sleeps(mb, p) && Woken(mb, p)
    ensures IsKind(mb, p, kind)
  {
    hide Goal, BytesPerPeriod, Spare, Slack, WakeTicks, Extra, Need, Woken, ToWrite;
    ExtraIs(mb, p);
    if Goal(mb, Tick(p)) == p.total {
      kind := AfterWrite;
      NeedAfterWrite(mb, p);
    } else {
      NeedShort(mb, p);
      var m := 8 * Need(mb, p) - mb;
      if m <= 0 {
        kind := Covered;
        WakeIs(mb, p);
        OneTick(8 * Need(mb, p), mb);
      } else {
        kind := Uncovered(m);
        WakeIs(mb, p);
        TwoTicks(8 * Need(mb, p), mb);
      }
    }
  }

  lemma WakeIs(mb: nat, p: Pace)
    requires mb > 0
    ensures WakeTicks(mb, p) == (8 * Need(mb, p) + mb - 1) / mb
  {
  }

  lemma NeedAfterWrite(mb: nat, p: Pace)
    requires mb > 0 && Goal(mb, Tick(p)) == p.total
    ensures Extra(mb, p) == Spare(mb, Tick(p)) + Slack(mb)
  {
    hide Goal, BytesPerPeriod, Spare;
    ExtraIs(mb, p);
    assert Need(mb, p) == BytesPerPeriod(mb);
  }

  /** Otherwise the next tick completes the period. */
  lemma NeedShort(mb: nat, p: Pace)
    requires mb > 0 && Sleeps(mb, p) && Woken(mb, p) && Goal(mb, Tick(p)) != p.total
    ensures 0 < 8 * Need(mb, p) <= mb + Spare(mb, Tick(p))
  {
    hide Goal, BytesPerPeriod;
    var u := Tick(p);
    assert mb * (u + 1) == mb * u + mb;
  }

  lemma OneTick(x: int, mb: nat)
    requires 0 < x <= mb
    ensures (x + mb - 1) / mb == 1
  {
    CeilMeaning(x, mb, 1);
    CeilMeaning(x, mb, 0);
  }

  lemma TwoTicks(x: int, mb: nat)
    requires mb < x <= mb + 7 && x % 8 == 0 && mb >= 6
    ensures (x + mb - 1) / mb == 2
  {
    CeilMeaning(x, mb, 1);
    CeilMeaning(x, mb, 2);
  }

  // ---- rates up to 5: every sleep is a tenth of a second, to the nanosecond ----

  ghost predicate Exact(mb: nat, p: Pace) {
    && Tick(p) % 100_000 == 0
    && (8 * p.total == mb * Tick(p) || 8 * (p.total + BytesPerPeriod(mb)) == mb * Tick(p))
  }

  lemma LowTurn(mb: nat, p: Pace)
    requires 1 <= mb <= 5 && Exact(mb, p)
    ensures Exact(mb, Turn(mb, p))
    ensures Sleeps(mb, p) ==> Extra(mb, p) == 0
  {
    hide Turn;
    assert BytesPerPeriod(mb) == 12500 * mb;
    var u := Tick(p);
    var x := mb * (u / 100_000);
    WholeTenths(mb, u);
    hide Goal, BytesPerPeriod;
    if Sleeps(mb, p) {
      LowSleep(mb, p);
    } else {
      assert Turn(mb, p).z == p.z && Turn(mb, p).total == p.total + 12_500 * mb by { TurnWrites(mb, p); }
    }
  }

  lemma LowSleep(mb: nat, p: Pace)
    requires 1 <= mb <= 5 && Sleeps(mb, p) && BytesPerPeriod(mb) == 12_500 * mb
    requires Tick(p) % 100_000 == 0 && 8 * p.total == mb * Tick(p) && Goal(mb, Tick(p)) == p.total
    ensures Exact(mb, Turn(mb, p)) && Extra(mb, p) == 0
  {
    hide Goal, BytesPerPeriod, Turn;
    var u := Tick(p);
    TurnSleeps(mb, p);
    DelayIs(mb, p);
    TenthOfSecond(mb);
    assert Tick(Turn(mb, p)) == u + 100_000;
    assert mb * (u + 100_000) == mb * u + 100_000 * mb;
  }

  lemma WholeTenths(mb: nat, u: nat)
    requires u % 100_000 == 0
    ensures mb * u == 8 * (12_500 * (mb * (u / 100_000)))
    ensures Goal(mb, u) == 12_500 * (mb * (u / 100_000))
  {
    var i := u / 100_000;
    assert u == 100_000 * i;
    assert mb * u == 100_000 * (mb * i);
    assert u * mb == mb * u;
  }

  lemma TurnSleeps(mb: nat, p: Pace)
    requires mb > 0 && Sleeps(mb, p)
    ensures Turn(mb, p) == p.(z := p.z + DelayNsec(mb, p))
  {
  }

  lemma TurnWrites(mb: nat, p: Pace)
    requires mb > 0 && !Sleeps(mb, p) && 0 < ToWrite(mb, p) <= BUFSIZE
    ensures Turn(mb, p).z == p.z && Turn(mb, p).total == p.total + ToWrite(mb, p)
  {
  }

  lemma TenthOfSecond(mb: nat)
    requires 1 <= mb <= 5
    ensures 12_500 * mb * 8 * 1000 / mb == 100_000_000
    ensures (8 * (12_500 * mb) + mb - 1) / mb == 100_000
    ensures Slack(mb) == 0
  {
  }

  lemma {:induction false} AlwaysExact(mb: nat, phase: nat, n: nat)
    requires 1 <= mb <= 5 && phase < 1000
    ensures Exact(mb, Turns(mb, phase, n))
  {
    if n > 0 {
      AlwaysExact(mb, phase, n - 1);
      LowTurn(mb, Turns(mb, phase, n - 1));
    }
  }

  // ---- how far a goal line can get while the server sleeps ----

  /** Some goal line of ours asks for g bytes at a tick x that the client may reach, by its
      clock, before the server wakes. */
  ghost predicate Asks(mb: nat, p: Pace, x: int, g: int)
    requires mb > 0
  {
    mb * x >= 8 * (g + BytesPerPeriod(mb)) + Slack(mb)
  }

  /** Ticks bound what is asked. */
  lemma AskedBy(mb: nat, p: Pace, x: int, g: int, k: int)
    requires mb > 0 && Asks(mb, p, x, g) && x <= Tick(p) + WakeTicks(mb, p) + k
    ensures 8 * (g - p.total) <= Extra(mb, p) - Slack(mb) + mb * k
  {
    hide BytesPerPeriod, Slack, WakeTicks;
    var w := Tick(p) + WakeTicks(mb, p);
    Scale(mb, x, w + k);
    assert mb * (w + k) == mb * w + mb * k;
  }

  /** A client whose clock flips at any point of the microsecond. */
  lemma TwoBehind(mb: nat, p: Pace, x: int, g: int)
    requires 6 <= mb <= 1000 && Sleeps(mb, p) && Woken(mb, p)
    requires Asks(mb, p, x, g) && 1000 * x <= Turn(mb, p).z + 998
    ensures 8 * (g - p.total) < 2 * mb
  {
    hide BytesPerPeriod, Goal, Slack, WakeTicks, Asks, Extra, Need, Missing, ToByte, Turn;
    var q := Turn(mb, p);
    WakesBy(mb, p);
    SlackNatural(mb);
    AskedBy(mb, p, x, g, 1);
    var kind := KindOf(mb, p);
    match kind
    case AfterWrite =>
    case Covered =>
    case Uncovered(m) =>
      if 8 * (g - p.total) >= 2 * mb {
        if x <= Tick(p) + 2 { AskedBy(mb, p, x, g, 0); }
        WholeByte(2 * mb, g - p.total);
        MissingIs(mb, m, Need(mb, p));
        Shortest(mb, q.z - p.z, m, 3);
        NoRateLosesTwo(mb);
      }
  }

  lemma WholeByte(x: nat, g: int)
    requires 8 * g >= x
    ensures 8 * g >= ToByte(x)
  {
  }

  lemma MissingIs(mb: nat, m: int, need: int)
    requires 8 * need == mb + m && 1 <= m <= 7
    ensures Missing(mb) == m && ToByte(mb) == mb + m
  {
  }

  lemma Shortest(mb: nat, d: int, m: int, k: nat)
    requires mb * d <= 1000 * (mb + m) && d >= 1000 + k
    ensures 1000 * m >= k * mb
  {
    Scale(mb, 1000 + k, d);
    assert mb * (1000 + k) == 1000 * mb + k * mb;
  }

  /** A client whose clock flips with the server's. */
  lemma OneBehind(mb: nat, p: Pace, x: int, g: int)
    requires 6 <= mb <= 1000 && Sleeps(mb, p) && Woken(mb, p)
    requires Asks(mb, p, x, g) && 1000 * x <= Turn(mb, p).z - 1
    ensures 8 * (g - p.total) < mb || mb == 7
  {
    hide BytesPerPeriod, Goal, Slack, WakeTicks, Asks, Extra, Need, Missing, ToByte, Turn;
    var q := Turn(mb, p);
    WakesBy(mb, p);
    SlackNatural(mb);
    AskedBy(mb, p, x, g, 0);
    var kind := KindOf(mb, p);
    match kind
    case AfterWrite =>
    case Covered =>
    case Uncovered(m) =>
      if 8 * (g - p.total) >= mb {
        if x <= Tick(p) + 1 { AskedBy(mb, p, x, g, -1); }
        WholeByte(mb, g - p.total);
        MissingIs(mb, m, Need(mb, p));
        Shortest(mb, q.z - p.z, m, 2);
        OnlySevenLosesAligned(mb);
      }
  }

  lemma LowBehind(mb: nat, p: Pace, x: int, g: int, k: int)
    requires 1 <= mb <= 5 && Sleeps(mb, p) && Exact(mb, p) && Asks(mb, p, x, g)
    requires x <= Tick(p) + WakeTicks(mb, p) + k
    ensures 8 * (g - p.total) <= mb * k
  {
    hide Asks, Extra, Slack, WakeTicks;
    LowTurn(mb, p);
    TenthOfSecond(mb);
    AskedBy(mb, p, x, g, k);
  }

  // ---- which sleep an instant falls into ----

  lemma {:induction false} TimeGoesOn(mb: nat, phase: nat, k: nat, n: nat)
    requires k <= n
    ensures Turns(mb, phase, k).z <= Turns(mb, phase, n).z
  {
    if k < n { TimeGoesOn(mb, phase, k, n - 1); }
  }

  /** By an instant before the end of turn k the bytes written are those of turn k. */
  lemma {:induction false} WrittenAt(mb: nat, phase: nat, k: nat, n: nat, t: int)
    requires 1 <= mb <= 1000 && phase < 1000 && k < n
    requires Turns(mb, phase, k).z <= t < Turns(mb, phase, k + 1).z
    ensures WrittenBy(Turns(mb, phase, n).writes, t) == Turns(mb, phase, k).total
    decreases n
  {
    hide Woken, BytesPerPeriod, Goal, Turn, WrittenBy;
    var q := Turns(mb, phase, n - 1);
    if k + 1 < n {
      WrittenAt(mb, phase, k, n - 1, t);
      TimeGoesOn(mb, phase, k + 1, n - 1);
      NotYetWritten(mb, q, t);
    } else {
      AlwaysWoken(mb, phase, k);
      AllWritten(mb, q, t);
    }
  }

  lemma NotYetWritten(mb: nat, q: Pace, t: int)
    requires t < q.z
    ensures WrittenBy(Turn(mb, q).writes, t) == WrittenBy(q.writes, t)
  {
    hide Sleeps, ToWrite;
    var w := Turn(mb, q).writes;
    assert w == q.writes || (w[..|q.writes|] == q.writes && w[|q.writes|].at == q.z);
  }

  lemma AllWritten(mb: nat, q: Pace, t: int)
    requires Sent(mb, q) && q.z <= t < Turn(mb, q).z
    ensures WrittenBy(Turn(mb, q).writes, t) == q.total
  {
    hide Goal, BytesPerPeriod;
    assert Turn(mb, q).writes == q.writes;
  }

  lemma {:induction false} FirstWrite(mb: nat, phase: nat, k: nat, n: nat)
    requires k <= n && Turns(mb, phase, n).writes != []
    ensures var p, q := Turns(mb, phase, k), Turns(mb, phase, n);
      if p.writes == [] then q.writes[0].at >= p.z else p.writes[0] == q.writes[0]
    decreases n
  {
    hide Sleeps, ToWrite;
    if k < n {
      TimeGoesOn(mb, phase, k, n - 1);
      if Turns(mb, phase, n - 1).writes != [] { FirstWrite(mb, phase, k, n - 1); }
      else { NothingBefore(mb, phase, k, n - 1); }
    }
  }

  lemma {:induction false} NothingBefore(mb: nat, phase: nat, k: nat, n: nat)
    requires k <= n && Turns(mb, phase, n).writes == []
    ensures Turns(mb, phase, k).writes == []
    decreases n
  {
    if k < n { NothingBefore(mb, phase, k, n - 1); }
  }

  /** The sleep, after a write, during which instant t falls. */
  lemma {:induction false} FindSleep(mb: nat, phase: nat, n: nat, t: int) returns (k: nat)
    requires 1 <= mb <= 1000 && phase < 1000 && Turns(mb, phase, n).writes != []
    requires Turns(mb, phase, n).writes[0].at <= t < Turns(mb, phase, n).z
    ensures k < n && Turns(mb, phase, k).z <= t < Turns(mb, phase, k + 1).z
    ensures Turns(mb, phase, k).writes != [] && Turns(mb, phase, k).writes[0] == Turns(mb, phase, n).writes[0]
    ensures Sleeps(mb, Turns(mb, phase, k))
  {
    hide BytesPerPeriod, Goal, Sleeps, ToWrite;
    k := SleepBefore(mb, phase, n, t);
    FirstWrite(mb, phase, k, n);
    FirstWrite(mb, phase, k + 1, n);
    if !Sleeps(mb, Turns(mb, phase, k)) { AwakeStands(mb, Turns(mb, phase, k)); }
  }

  lemma AwakeStands(mb: nat, p: Pace)
    requires !Sleeps(mb, p)
    ensures Turn(mb, p).z == p.z
  {
  }

  lemma {:induction false} SleepBefore(mb: nat, phase: nat, n: nat, t: int) returns (k: nat)
    requires phase < 1000 && Turns(mb, phase, n).writes != []
    requires Turns(mb, phase, n).writes[0].at <= t < Turns(mb, phase, n).z
    ensures k < n && Turns(mb, phase, k).z <= t < Turns(mb, phase, k + 1).z
    decreases n
  {
    hide Sleeps, ToWrite;
    if Turns(mb, phase, n - 1).z <= t {
      k := n - 1;
    } else {
      FirstWrite(mb, phase, n - 1, n);
      k := SleepBefore(mb, phase, n - 1, t);
    }
  }

  // ---- the theorems ----

  lemma OffsetSign(mb: nat, received: nat, elapsed: nat, k: nat)
    requires mb > 0
    ensures UsecOffset(mb, received, elapsed) + k >= 0 <==> 8 * (Goal(mb, elapsed) - received) < mb * (k + 1)
  {
    hide Goal;
    var lag := 8 * (Goal(mb, elapsed) - received);
    if lag > 0 {
      DivBounds(lag, mb, lag / mb);
      if lag / mb <= k { Scale(mb, lag / mb + 1, k + 1); } else { Scale(mb, k + 1, lag / mb); }
      assert mb * (lag / mb + 1) == mb * (lag / mb) + mb;
    } else {
      Scale(mb, 1, k + 1);
    }
  }

  lemma ElapsedBounds(link: Link, begun: int, first: int, t: int)
    requires first + link.delay <= begun <= t
    ensures 0 <= link.Clock(t) - link.Clock(begun)
    ensures 1000 * (link.Clock(t) - link.Clock(begun)) <= t - link.delay - first + 999
    ensures link.Aligned() ==> link.Clock(t) - link.Clock(begun) <= (t - link.delay) / 1000 - first / 1000
  {
    if link.Aligned() {
      var h := (link.delay + link.ahead) / 1000;
      assert link.ahead == 1000 * h - link.delay;
      assert link.Clock(t) == (t - link.delay) / 1000 + h;
      assert link.Clock(begun) >= first / 1000 + h;
    }
  }

  /** What the client asks for, on the server's time line. */
  lemma AskedOf(mb: nat, p: Pace, elapsed: nat)
    requires 1 <= mb <= 1000 && Sent(mb, p) && p.writes != []
    ensures Asks(mb, p, elapsed + p.writes[0].at / 1000, Goal(mb, elapsed))
  {
    hide Goal, BytesPerPeriod;
    var u0 := p.writes[0].at / 1000;
    GoalBounds(mb, u0);
    GoalBounds(mb, elapsed);
    assert mb * (elapsed + u0) == mb * elapsed + mb * u0;
    var c := (8 * BytesPerPeriod(mb) + mb - 1) / mb;
    CeilMeaning(8 * BytesPerPeriod(mb), mb, u0);
    Scale(mb, c, u0);
  }

  /** Over a link of any constant delay, to a client whose clock has any phase and that begins
      with the first data or later, at any rate and at any instant, no sample is ever more
      than 1 usec behind. */
  lemma {:induction false} NeverTwoBehind(mb: nat, phase: nat, n: nat, link: Link, begun: int, t: int)
    requires 1 <= mb <= 1000 && phase < 1000 && Watching(Turns(mb, phase, n), link, begun, t)
    ensures OffsetAt(mb, Turns(mb, phase, n).writes, link, begun, t) >= -1
  {
    hide Goal, BytesPerPeriod, Turns, WrittenBy, Turn, Woken, Sleeps, Exact, Asks, WakeTicks, UsecOffset;
    var k, p, e := SeenAsleep(mb, phase, n, link, begun, t);
    var x := e + p.writes[0].at / 1000;
    if mb >= 6 {
      TwoBehind(mb, p, x, Goal(mb, e));
    } else {
      AlwaysExact(mb, phase, k);
      WakesBy(mb, p);
      LowBehind(mb, p, x, Goal(mb, e), 1);
    }
    OffsetSign(mb, p.total, e, 1);
  }

  /** What a client sees at instant t was sent in one of the server's sleeps. */
  lemma SeenAsleep(mb: nat, phase: nat, n: nat, link: Link, begun: int, t: int) returns (k: nat, p: Pace, e: nat)
    requires 1 <= mb <= 1000 && phase < 1000 && Watching(Turns(mb, phase, n), link, begun, t)
    ensures k < n && p == Turns(mb, phase, k) && p.writes != [] && Sleeps(mb, p) && Woken(mb, p) && Turns(mb, phase, k + 1) == Turn(mb, p)
    ensures p.z <= t - link.delay < Turn(mb, p).z
    ensures e == link.Clock(t) - link.Clock(begun)
    ensures OffsetAt(mb, Turns(mb, phase, n).writes, link, begun, t) == UsecOffset(mb, p.total, e)
    ensures Asks(mb, p, e + p.writes[0].at / 1000, Goal(mb, e))
    ensures 1000 * (e + p.writes[0].at / 1000) <= Turn(mb, p).z + 998
    ensures link.Aligned() ==> 1000 * (e + p.writes[0].at / 1000) <= Turn(mb, p).z - 1
  {
    hide Goal, BytesPerPeriod, WrittenBy, Turn, Sleeps, Asks, UsecOffset, Woken;
    k := FindSleep(mb, phase, n, t - link.delay);
    p := Turns(mb, phase, k);
    AlwaysWoken(mb, phase, k);
    WrittenAt(mb, phase, k, n, t - link.delay);
    ElapsedBounds(link, begun, p.writes[0].at, t);
    e := link.Clock(t) - link.Clock(begun);
    AskedOf(mb, p, e);
  }

  /** And if the client's clock flips when the server's did, no sample is behind at all, at
      any rate but 7. */
  lemma {:induction false} NeverBehind(mb: nat, phase: nat, n: nat, link: Link, begun: int, t: int)
    requires 1 <= mb <= 1000 && mb != 7 && phase < 1000 && link.Aligned()
    requires Watching(Turns(mb, phase, n), link, begun, t)
    ensures OffsetAt(mb, Turns(mb, phase, n).writes, link, begun, t) >= 0
  {
    hide Goal, BytesPerPeriod, Turns, WrittenBy, Turn, Woken, Sleeps, Exact, Asks, WakeTicks, UsecOffset;
    var k, p, e := SeenAsleep(mb, phase, n, link, begun, t);
    var x := e + p.writes[0].at / 1000;
    if mb >= 6 {
      OneBehind(mb, p, x, Goal(mb, e));
    } else {
      AlwaysExact(mb, phase, k);
      WakesBy(mb, p);
      LowBehind(mb, p, x, Goal(mb, e), 0);
    }
    OffsetSign(mb, p.total, e, 0);
  }

  // ---- exactly which runs show a client behind ----

  ghost predicate ShowsBehind(mb: nat, p: Pace, link: Link, begun: int, t: int)
    requires mb > 0
  {
    Watching(p, link, begun, t) && OffsetAt(mb, p.writes, link, begun, t) < 0
  }

  /** The client's goal line passes the bytes sent while the server sleeps in turn k. */
  predicate Overtaken(mb: nat, phase: nat, k: nat, link: Link, begun: int) {
    var p := Turns(mb, phase, k);
    p.writes != [] && Sleeps(mb, p) &&
    mb * (link.Clock(Turns(mb, phase, k + 1).z - 1 + link.delay) - link.Clock(begun)) >= 8 * (p.total + (mb + 7) / 8)
  }

  /** For a given rate, phase of the server, link and start of the client: some instant shows
      the client behind exactly if the inequality of `Overtaken` holds for a sleep. */
  lemma {:induction false} BehindIff(mb: nat, phase: nat, n: nat, link: Link, begun: int)
    requires 1 <= mb <= 1000 && phase < 1000 && Turns(mb, phase, n).writes != []
    requires Turns(mb, phase, n).writes[0].at + link.delay <= begun
    ensures (exists t :: ShowsBehind(mb, Turns(mb, phase, n), link, begun, t))
      <==> (exists k :: 0 <= k < n && Overtaken(mb, phase, k, link, begun))
  {
    hide Goal, BytesPerPeriod, Turns, WrittenBy, Turn, Sleeps, UsecOffset;
    if t :| ShowsBehind(mb, Turns(mb, phase, n), link, begun, t) {
      var k, p, e := SeenAsleep(mb, phase, n, link, begun, t);
      OvertakenBy(mb, p.total, e);
      Scale(mb, e, link.Clock(Turns(mb, phase, k + 1).z - 1 + link.delay) - link.Clock(begun));
      assert Overtaken(mb, phase, k, link, begun);
    }
    if k :| 0 <= k < n && Overtaken(mb, phase, k, link, begun) {
      var t := Turns(mb, phase, k + 1).z - 1 + link.delay;
      var e := link.Clock(t) - link.Clock(begun);
      if e <= 0 { Scale(mb, e, 0); }
      TimeGoesOn(mb, phase, k + 1, n);
      TurnSleepsOn(mb, phase, k);
      WrittenAt(mb, phase, k, n, t - link.delay);
      OvertakenBy(mb, Turns(mb, phase, k).total, e);
      assert ShowsBehind(mb, Turns(mb, phase, n), link, begun, t);
    }
  }

  /** The same without a client: the goal line of the worst of them, which began as the first data
      arrived and 1 nsec before its clock flipped. */
  predicate CouldOvertake(mb: nat, phase: nat, k: nat) {
    var p := Turns(mb, phase, k);
    p.writes != [] && Sleeps(mb, p) &&
    mb * ((Turns(mb, phase, k + 1).z - p.writes[0].at + 998) / 1000) >= 8 * (p.total + (mb + 7) / 8)
  }

  /** A run of the server, at a given rate and phase, shows some client behind over some link exactly
      if that inequality holds for one of its sleeps. */
  lemma {:induction false} SomeClientBehindIff(mb: nat, phase: nat, n: nat)
    requires 1 <= mb <= 1000 && phase < 1000 && Turns(mb, phase, n).writes != []
    ensures (exists link, begun, t :: ShowsBehind(mb, Turns(mb, phase, n), link, begun, t))
      <==> (exists k :: 0 <= k < n && CouldOvertake(mb, phase, k))
  {
    hide Goal, BytesPerPeriod, Turns, WrittenBy, Turn, Sleeps, OffsetAt;
    var first := Turns(mb, phase, n).writes[0].at;
    if link, begun, t :| ShowsBehind(mb, Turns(mb, phase, n), link, begun, t) {
      BehindIff(mb, phase, n, link, begun);
      var k :| 0 <= k < n && Overtaken(mb, phase, k, link, begun);
      FirstWrite(mb, phase, k, n);
      OvertakenCould(mb, phase, k, link, begun);
    }
    if k :| 0 <= k < n && CouldOvertake(mb, phase, k) {
      var link := Link(0, 999 - first % 1000);
      FirstWrite(mb, phase, k, n);
      CouldBe(mb, phase, k, link, first);
      BehindIff(mb, phase, n, link, first);
    }
  }

  lemma OvertakenCould(mb: nat, phase: nat, k: nat, link: Link, begun: int)
    requires mb > 0 && Overtaken(mb, phase, k, link, begun)
    requires Turns(mb, phase, k).writes[0].at + link.delay <= begun
    ensures CouldOvertake(mb, phase, k)
  {
    hide Turns, Sleeps;
    var t := Turns(mb, phase, k + 1).z - 1 + link.delay;
    var first := Turns(mb, phase, k).writes[0].at;
    var e := link.Clock(t) - link.Clock(begun);
    if t >= begun {
      ElapsedBounds(link, begun, first, t);
      Scale(mb, e, (Turns(mb, phase, k + 1).z - first + 998) / 1000);
    } else {
      Scale(mb, e, 0);
      assert false;
    }
  }

  lemma CouldBe(mb: nat, phase: nat, k: nat, link: Link, first: int)
    requires CouldOvertake(mb, phase, k) && Turns(mb, phase, k).writes[0].at == first
    requires link == Link(0, 999 - first % 1000)
    ensures Overtaken(mb, phase, k, link, first)
  {
    hide Turns, Sleeps;
    var z := Turns(mb, phase, k + 1).z;
    assert link.Clock(z - 1) - link.Clock(first) == (z - first + 998) / 1000;
  }

  lemma TurnSleepsOn(mb: nat, phase: nat, k: nat)
    requires 1 <= mb <= 1000 && phase < 1000 && Sleeps(mb, Turns(mb, phase, k))
    ensures Turns(mb, phase, k).z < Turns(mb, phase, k + 1).z
  {
    hide Goal, BytesPerPeriod;
    AlwaysPaced(mb, phase, k);
    SleepKeeps(mb, Turns(mb, phase, k));
  }

  lemma OvertakenBy(mb: nat, total: nat, e: nat)
    requires mb > 0
    ensures UsecOffset(mb, total, e) < 0 <==> mb * e >= 8 * (total + (mb + 7) / 8)
  {
    hide UsecOffset, Goal;
    OffsetSign(mb, total, e, 0);
    GoalBounds(mb, e);
    WholeBytes(mb, Goal(mb, e) - total, mb * e - 8 * total);
  }

  lemma WholeBytes(mb: nat, g: int, x: int)
    requires x - 7 <= 8 * g <= x
    ensures 8 * g >= mb <==> x >= 8 * ((mb + 7) / 8)
  {
  }

  // ---- two runs that show a client behind ----

  lemma NextTurn(mb: nat, phase: nat, n: nat, p: Pace, q: Pace)
    requires Turns(mb, phase, n) == p && Turn(mb, p) == q
    ensures Turns(mb, phase, n + 1) == q
  {
  }

  /** It does happen, with clocks in step and a delay of 600 nsec, at 12 megabits/sec: in the last
      264 nsec before the second write arrives the client expects bytes not yet due. */
  lemma {:induction false} BehindAtTwelve(t: int)
    requires 87_383_000 <= t < 87_383_264
    ensures var p := Turns(12, 0, 5);
      && Watching(p, Link(600, 0), 43_691_932, t) && OffsetAt(12, p.writes, Link(600, 0), 43_691_932, t) == -1
  {
    hide Turns, Turn;
    TurnsAtTwelve();
  }

  lemma TurnsAtTwelve()
    ensures Turns(12, 0, 5) == Pace(87_382_664, 65536, [Write(43_691_332, 65536)])
  {
    hide Turns;
    var w := Write(43_691_332, 65536);
    assert Turns(12, 0, 0) == Pace(0, 0, []) by { NoTurns(12, 0); }
    NextTurn(12, 0, 0, Pace(0, 0, []), Pace(43_690_666, 0, []));
    NextTurn(12, 0, 1, Pace(43_690_666, 0, []), Pace(43_691_332, 0, []));
    NextTurn(12, 0, 2, Pace(43_691_332, 0, []), Pace(43_691_332, 65536, [w]));
    NextTurn(12, 0, 3, Pace(43_691_332, 65536, [w]), Pace(87_381_998, 65536, [w]));
    NextTurn(12, 0, 4, Pace(87_381_998, 65536, [w]), Pace(87_382_664, 65536, [w]));
  }

  lemma MoreTurnsAtTwelve()
    ensures Turns(12, 0, 7) == Pace(131_073_330, 131_073, [Write(43_691_332, 65536), Write(87_382_664, 131_073)])
  {
    hide Turns;
    var w := [Write(43_691_332, 65536)];
    TurnsAtTwelve();
    NextTurn(12, 0, 5, Pace(87_382_664, 65536, w), Pace(87_382_664, 131_073, w + [Write(87_382_664, 131_073)]));
    NextTurn(12, 0, 6, Pace(87_382_664, 131_073, w + [Write(87_382_664, 131_073)]), Pace(131_073_330, 131_073, w + [Write(87_382_664, 131_073)]));
  }

  lemma NoTurns(mb: nat, phase: nat)
    ensures Turns(mb, phase, 0) == Pace(phase, 0, [])
  {
  }

  /** And at 7 megabits/sec even to a client on the server's own clock, for a nanosecond. */
  lemma {:induction false} BehindAtSeven()
    ensures Watching(Turns(7, 719, 8), Link(0, 0), 74_899_004, 299_595_000)
    ensures OffsetAt(7, Turns(7, 719, 8).writes, Link(0, 0), 74_899_004, 299_595_000) == -1
  {
    hide Turns, Turn;
    TurnsAtSeven();
  }

  lemma TurnsAtSeven()
    ensures Turns(7, 719, 8) == Pace(299_595_001, 196_608,
      [Write(74_899_004, 65_536), Write(149_797_289, 131_072), Write(224_695_574, 196_608)])
  {
    hide Turns;
    var w1, w2, w3 := Write(74_899_004, 65_536), Write(149_797_289, 131_072), Write(224_695_574, 196_608);
    NoTurns(7, 719);
    NextTurn(7, 719, 0, Pace(719, 0, []), Pace(74_899_004, 0, []));
    NextTurn(7, 719, 1, Pace(74_899_004, 0, []), Pace(74_899_004, 65_536, [w1]));
    NextTurn(7, 719, 2, Pace(74_899_004, 65_536, [w1]), Pace(149_797_289, 65_536, [w1]));
    NextTurn(7, 719, 3, Pace(149_797_289, 65_536, [w1]), Pace(149_797_289, 131_072, [w1, w2]));
    NextTurn(7, 719, 4, Pace(149_797_289, 131_072, [w1, w2]), Pace(224_695_574, 131_072, [w1, w2]));
    NextTurn(7, 719, 5, Pace(224_695_574, 131_072, [w1, w2]), Pace(224_695_574, 196_608, [w1, w2, w3]));
    NextTurn(7, 719, 6, Pace(224_695_574, 196_608, [w1, w2, w3]), Pace(299_593_859, 196_608, [w1, w2, w3]));
    NextTurn(7, 719, 7, Pace(299_593_859, 196_608, [w1, w2, w3]), Pace(299_595_001, 196_608, [w1, w2, w3]));
  }
}
