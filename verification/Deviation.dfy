/** The one-pass statistics: what onepass_stddev takes the root of is never negative. */
module Deviation {
  import opened Words
  import opened Wire
  import opened Engine
  import opened Origin

  /** numer and denom of onepass_stddev. */
  function Numer(st: Stats): int { st.count * st.sumsq - st.sum * st.sum }
  function Denom(st: Stats): int { st.count * (st.count - 1) }

  function Fold(st: Stats, xs: seq<int>): Stats {
    if xs == [] then st else Fold(st, xs[..|xs| - 1]).Add(xs[|xs| - 1])
  }

  /** The sum of (x - y)^2 over xs. */
  function Spread(xs: seq<int>, y: int): int {
    if xs == [] then 0
    else var d := xs[|xs| - 1] - y; Spread(xs[..|xs| - 1], y) + d * d
  }

  /** The sum of squared differences over all pairs. */
  function PairSpread(xs: seq<int>): int {
    if xs == [] then 0
    else PairSpread(xs[..|xs| - 1]) + Spread(xs[..|xs| - 1], xs[|xs| - 1])
  }

  /** The spread around y, from the three running sums alone. */
  function SpreadOf(st: Stats, y: int): int { st.sumsq - 2 * (y * st.sum) + st.count * (y * y) }

  lemma SpreadStep(st: Stats, x: int, y: int)
    ensures SpreadOf(st.Add(x), y) == SpreadOf(st, y) + (x - y) * (x - y)
    ensures (x - y) * (x - y) >= 0
  {
    SquareOfDifference(x, y);
    Square(x - y);
    Distribute(y, st.sum, x);
    Distribute(y * y, st.count, 1);
  }

  lemma SquareOfDifference(x: int, y: int)
    ensures (x - y) * (x - y) == x * x - 2 * (y * x) + y * y
  {
  }

  lemma Square(d: int)
    ensures d * d >= 0
  {
  }

  lemma Distribute(k: int, a: int, b: int)
    ensures k * (a + b) == k * a + k * b
    ensures (a + b) * k == a * k + b * k
  {
  }

  lemma {:induction false} SpreadMeaning(xs: seq<int>, y: int)
    ensures Spread(xs, y) == SpreadOf(Fold(NO_STATS, xs), y) >= 0
  {
    hide SpreadOf, Stats.Add;
    if xs == [] {
      assert SpreadOf(NO_STATS, y) == 0 by { NoSpread(y); }
    } else {
      SpreadMeaning(xs[..|xs| - 1], y);
      SpreadStep(Fold(NO_STATS, xs[..|xs| - 1]), xs[|xs| - 1], y);
    }
  }

  lemma NoSpread(y: int)
    ensures SpreadOf(NO_STATS, y) == 0
  {
  }

  lemma NumerStep(st: Stats, x: int)
    ensures Numer(st.Add(x)) == Numer(st) + SpreadOf(st, x)
    ensures Denom(st.Add(x)) >= 0
  {
    var n, s, q, xx := st.count, st.sum, st.sumsq, x * x;
    Distribute(q + xx, n, 1);
    Distribute(n, q, xx);
    Distribute(s + x, s, x);
    Distribute(s, s, x);
    Distribute(x, s, x);
    assert s * x == x * s;
    Positive(n + 1, n);
  }

  lemma Positive(a: nat, b: nat)
    ensures a * b >= 0
  {
  }

  lemma NoSamples()
    ensures Numer(NO_STATS) == 0 && Denom(NO_STATS) == 0
  {
  }

  ghost function OrderedPairs(n: nat): set<(nat, nat)> {
    set i: nat, j: nat | i < n && j < n && i != j :: (i, j)
  }

  /** The denominator is the number of ordered pairs of different samples. */
  lemma {:induction false} DenomIsPairs(xs: seq<int>)
    ensures Denom(Fold(NO_STATS, xs)) == |OrderedPairs(|xs|)|
  {
    hide Fold, Denom;
    MeanBetween(xs);
    PairsCount(|xs|);
    assert Denom(Fold(NO_STATS, xs)) == |xs| * (|xs| - 1) by { DenomOf(Fold(NO_STATS, xs)); }
  }

  lemma DenomOf(st: Stats)
    ensures Denom(st) == st.count * (st.count - 1)
  {
  }

  lemma {:induction false} PairsCount(n: nat)
    ensures |OrderedPairs(n)| == n * (n - 1)
  {
    if n == 0 {
      assert OrderedPairs(0) == {};
    } else {
      var k: nat := n - 1;
      PairsCount(k);
      PairsGrow(k);
      RowSize(k, k);
      ColumnSize(k, k);
      hide OrderedPairs, RowOf, ColumnOf;
      assert n * (n - 1) == k * (k - 1) + 2 * k;
    }
  }

  lemma PairsGrow(k: nat)
    ensures |OrderedPairs(k + 1)| == |OrderedPairs(k)| + |RowOf(k, k)| + |ColumnOf(k, k)|
  {
    assert OrderedPairs(k + 1) == OrderedPairs(k) + (RowOf(k, k) + ColumnOf(k, k));
    assert RowOf(k, k) !! ColumnOf(k, k);
    assert OrderedPairs(k) !! RowOf(k, k) + ColumnOf(k, k);
    Disjoint(RowOf(k, k), ColumnOf(k, k));
    Disjoint(OrderedPairs(k), RowOf(k, k) + ColumnOf(k, k));
  }

  lemma Disjoint<T>(a: set<T>, b: set<T>)
    requires a !! b
    ensures |a + b| == |a| + |b|
  {
  }

  ghost function RowOf(k: nat, n: nat): set<(nat, nat)> { set j: nat | j < n :: (k, j) }

  ghost function ColumnOf(k: nat, n: nat): set<(nat, nat)> { set i: nat | i < n :: (i, k) }

  lemma {:induction false} RowSize(k: nat, n: nat)
    ensures |RowOf(k, n)| == n
  {
    if n > 0 {
      RowSize(k, n - 1);
      assert RowOf(k, n) == RowOf(k, n - 1) + {(k, n - 1)};
    }
  }

  lemma {:induction false} ColumnSize(k: nat, n: nat)
    ensures |ColumnOf(k, n)| == n
  {
    if n > 0 {
      ColumnSize(k, n - 1);
      assert ColumnOf(k, n) == ColumnOf(k, n - 1) + {(n - 1, k)};
    }
  }

  /** The numerator is the pairwise spread of all samples, so its root is defined. */
  lemma {:induction false} NumerIsPairSpread(xs: seq<int>)
    ensures Numer(Fold(NO_STATS, xs)) == PairSpread(xs) >= 0
    ensures Denom(Fold(NO_STATS, xs)) >= 0
  {
    hide Numer, Denom, SpreadOf, Spread, Stats.Add;
    if xs == [] {
      NoSamples();
    } else {
      var before, x := Fold(NO_STATS, xs[..|xs| - 1]), xs[|xs| - 1];
      NumerIsPairSpread(xs[..|xs| - 1]);
      SpreadMeaning(xs[..|xs| - 1], x);
      NumerStep(before, x);
    }
  }

  ghost predicate MeanInside(st: Stats) { st.min * st.count <= st.sum <= st.max * st.count }

  lemma NoMean()
    ensures MeanInside(NO_STATS)
  {
  }

  lemma MeanStep(st: Stats, x: int)
    requires MeanInside(st)
    ensures MeanInside(st.Add(x))
  {
    var t := st.Add(x);
    LeastStep(t.min, st.min, st.count, st.sum, x);
    LeastStep(-t.max, -st.max, st.count, -st.sum, -x);
  }

  lemma LeastStep(a: int, b: int, n: nat, sum: int, x: int)
    requires a <= b && a <= x && b * n <= sum
    ensures a * (n + 1) <= sum + x
  {
    var d := b - a;
    assert d * n >= 0;
    assert b * n == a * n + d * n;
    assert a * (n + 1) == a * n + a;
  }

  function Sum(xs: seq<int>): int { if xs == [] then 0 else Sum(xs[..|xs| - 1]) + xs[|xs| - 1] }

  function SumOfSquares(xs: seq<int>): int {
    if xs == [] then 0 else SumOfSquares(xs[..|xs| - 1]) + xs[|xs| - 1] * xs[|xs| - 1]
  }

  /** The statistics of a sequence of latencies: the last one, how many, their sum and sum of
      squares, the least, and the greatest counting from 0, as lat_max does. */
  ghost predicate StatsOf(st: Stats, xs: seq<int>) {
    && st.count == |xs| && st.sum == Sum(xs) && st.sumsq == SumOfSquares(xs)
    && st.last == (if xs == [] then 0 else xs[|xs| - 1])
    && (forall i :: 0 <= i < |xs| ==> st.min <= xs[i] <= st.max)
    && (st.max in xs || (st.max == 0 && forall i :: 0 <= i < |xs| ==> xs[i] < 0))
    && (st.min in xs || (st.min == 0x7fff_ffff && forall i :: 0 <= i < |xs| ==> xs[i] > 0x7fff_ffff))
  }

  /** A fold of latencies holds their statistics, with the mean between least and greatest. */
  lemma {:induction false} MeanBetween(xs: seq<int>)
    ensures MeanInside(Fold(NO_STATS, xs))
    ensures StatsOf(Fold(NO_STATS, xs), xs)
  {
    hide MeanInside;
    if xs == [] {
      assert MeanInside(NO_STATS) by { NoMean(); }
    } else {
      var before, x := Fold(NO_STATS, xs[..|xs| - 1]), xs[|xs| - 1];
      MeanBetween(xs[..|xs| - 1]);
      MeanStep(before, x);
      assert xs == xs[..|xs| - 1] + [x];
    }
  }

  // ---- the statistics a session keeps are those of what it showed ----

  /** The receive latencies shown: one for each packet whose sender reported its clock difference. */
  function ShownRx(h: Header, out: Outcome): seq<int> {
    if h.clockdiff != 0 then [LatRx(out.rxdiff, out.rtt)] else []
  }

  /** The transmit latencies shown: one for each ack counted. */
  function ShownTx(samples: seq<Sample>): seq<int> {
    seq(|samples|, i requires 0 <= i < |samples| => samples[i].txdiff)
  }

  /** All of them over a run, receive and transmit. */
  function ShownBy(s0: Sess, es: seq<Event>): (seq<int>, seq<int>) {
    if es == [] then ([], [])
    else
      var k := |es| - 1;
      var before := ShownBy(s0, es[..k]);
      match es[k]
      case Sent(_) => before
      case Got(rx, now) =>
        var out := Receive(Run(s0, es[..k]).s, rx, now).1;
        (before.0 + ShownRx(rx.h, out), before.1 + ShownTx(out.samples))
  }

  lemma {:induction false} FoldConcat(st: Stats, xs: seq<int>, ys: seq<int>)
    ensures Fold(st, xs + ys) == Fold(Fold(st, xs), ys)
  {
    hide Stats.Add;
    if ys == [] {
      assert xs + ys == xs;
    } else {
      FoldConcat(st, xs, ys[..|ys| - 1]);
      assert (xs + ys)[..|xs + ys| - 1] == xs + ys[..|ys| - 1];
    }
  }

  lemma FoldOne(st: Stats, x: int)
    ensures Fold(st, [x]) == st.Add(x)
  {
    assert [x][..0] == [];
  }

  lemma {:induction false} CountAcksFold(s: Sess, offset: int32, acks: seq<AckSlot>)
    ensures CountAcks(s, offset, acks).0.latTx == Fold(s.latTx, ShownTx(CountAcks(s, offset, acks).1))
  {
    hide Counts, TxDiff, Stats.Add;
    if acks != [] {
      var k := |acks| - 1;
      CountAcksFold(s, offset, acks[..k]);
      var before, one := CountAcks(s, offset, acks[..k]), CountAck(CountAcks(s, offset, acks[..k]).0, offset, acks[k]);
      assert ShownTx(before.1 + one.1) == ShownTx(before.1) + ShownTx(one.1);
      FoldConcat(s.latTx, ShownTx(before.1), ShownTx(one.1));
      if one.1 != [] {
        assert ShownTx(one.1) == [one.1[0].txdiff];
        FoldOne(before.0.latTx, one.1[0].txdiff);
      }
    }
  }

  /** One packet: the statistics take up what it showed, and nothing else. */
  lemma {:induction false} ReceiveFold(s: Sess, rx: Packet, now: uint64)
    ensures var r := Receive(s, rx, now);
      && r.0.latRx == Fold(s.latRx, ShownRx(rx.h, r.1))
      && r.0.latTx == Fold(s.latTx, ShownTx(r.1.samples))
  {
    hide Aligned, Delay, Diff, U32, U64, WithSlot, LatRx, Rtt, ClockOffset, CountAcks, RingRead, Stats.Add;
    var s1 := Aligned(s, rx.h, now);
    AlignedFrame(s, rx.h, now);
    FiledFrame(s, rx.h, now);
    FoldOne(s.latRx, LatRx(Delay(s1, rx.h.id, now), Rtt(s1, rx.h)));
    CountAcksFrame(Filed(s, rx.h, now), ClockOffset(s1, rx.h), RingRead(rx.data, rx.h.firstAck));
    CountAcksFold(Filed(s, rx.h, now), ClockOffset(s1, rx.h), RingRead(rx.data, rx.h.firstAck));
  }

  /** Over any run of packets received and sent, the statistics have taken up exactly the receive
      latency of every packet with a reported clock difference and the transmit latency of every
      ack counted, in order. */
  lemma {:induction false} StatisticsAreOfTheShown(s0: Sess, es: seq<Event>)
    ensures Run(s0, es).s.latRx == Fold(s0.latRx, ShownBy(s0, es).0)
    ensures Run(s0, es).s.latTx == Fold(s0.latTx, ShownBy(s0, es).1)
  {
    if es != [] {
      hide Receive, U32, U64, Stats.Add, ShownRx, ShownTx, Fold;
      var k := |es| - 1;
      var t, before := Run(s0, es[..k]), ShownBy(s0, es[..k]);
      StatisticsAreOfTheShown(s0, es[..k]);
      match es[k]
      case Sent(_) =>
      case Got(rx, now) =>
        var out := Receive(t.s, rx, now).1;
        ReceiveFold(t.s, rx, now);
        FoldConcat(s0.latRx, before.0, ShownRx(rx.h, out));
        FoldConcat(s0.latTx, before.1, ShownTx(out.samples));
    }
  }

  /** After any run, in both directions: the statistics are those of the latencies shown, the
      variance is never negative, and the mean lies between the least and the greatest. */
  lemma {:induction false} DeviationDefined(s0: Sess, es: seq<Event>)
    requires s0.latTx == NO_STATS && s0.latRx == NO_STATS
    ensures var t, shown := Run(s0, es).s, ShownBy(s0, es);
      && StatsOf(t.latRx, shown.0) && StatsOf(t.latTx, shown.1)
      && forall st :: st in [t.latTx, t.latRx] ==> Numer(st) >= 0 && Denom(st) >= 0 && MeanInside(st)
  {
    hide Run, Numer, Denom, MeanInside, StatsOf, ShownBy;
    StatisticsAreOfTheShown(s0, es);
    MeanBetween(ShownBy(s0, es).0);
    MeanBetween(ShownBy(s0, es).1);
    NumerIsPairSpread(ShownBy(s0, es).0);
    NumerIsPairSpread(ShownBy(s0, es).1);
  }
}
