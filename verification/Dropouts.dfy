/** isostream's client: dropouts tracked online, sample by sample, and what the running
    figures mean for the whole sequence of samples. */
module Dropouts {
  import opened Words
  import opened Isostream
  import opened ConstantLink

  const DROPOUT_MIN_USEC := 100 * 1000

  /** One pass through the top of the client's loop: the time, and how far ahead it is. */
  datatype Sample = Sample(now: int, offset: int)

  datatype Tracker = Tracker(
    last: int, depth: int, start: int,
    count: nat, maxDepth: int, maxLength: int)

  const QUIET := Tracker(0, 0, 0, 0, 0, 0)

  function Observe(t: Tracker, s: Sample): Tracker {
    var t1 :=
      if s.offset < 0 && t.last >= 0 then t.(start := s.now, depth := 0)
      else if s.offset >= 0 && t.last < 0 then
        var length := s.now - t.start;
        var interesting := length >= DROPOUT_MIN_USEC || t.maxLength < length || t.maxDepth > t.depth;
        t.(maxLength := if t.maxLength < length then length else t.maxLength,
           maxDepth := if t.maxDepth > t.depth then t.depth else t.maxDepth,
           count := t.count + if interesting then 1 else 0,
           start := 0)
      else t;
    t1.(depth := if s.offset < t1.depth then s.offset else t1.depth, last := s.offset)
  }

  function Track(samples: seq<Sample>): Tracker {
    if samples == [] then QUIET else Observe(Track(samples[..|samples| - 1]), samples[|samples| - 1])
  }

  /** The client's counters, updated in place. */
  class StreamClient {
    const megabits: nat
    const startTime: int
    var total: nat
    var lastUsecOffset: int
    var dropDepth: int
    var dropStartTime: int
    var dropCount: nat
    var dropMaxdepth: int
    var dropMaxlength: int

    ghost function State(): Tracker
      reads this
    {
      Tracker(lastUsecOffset, dropDepth, dropStartTime, dropCount, dropMaxdepth, dropMaxlength)
    }

    constructor (megabits: nat, startTime: int)
      ensures this.megabits == megabits && this.startTime == startTime
      ensures total == 0 && State() == QUIET
    {
      this.megabits, this.startTime, total := megabits, startTime, 0;
      lastUsecOffset, dropDepth, dropStartTime := 0, 0, 0;
      dropCount, dropMaxdepth, dropMaxlength := 0, 0, 0;
    }

    method Read(len: nat)
      modifies this`total
      ensures total == old(total) + len
    {
      total := total + len;
    }

    /** The part of the loop that runs once the first data have arrived. */
    method TakeSample(now: int) returns (usecOffset: int)
      requires megabits > 0 && now >= startTime
      modifies this
      ensures usecOffset == UsecOffset(megabits, total, now - startTime)
      ensures State() == Observe(old(State()), Sample(now, usecOffset)) && total == old(total)
    {
      var expected := Goal(megabits, now - startTime);
      var offset := total - expected;
      usecOffset := Quot(offset * 8, megabits);
      if usecOffset < 0 && lastUsecOffset >= 0 {
        dropStartTime := now;
        dropDepth := 0;
      } else if usecOffset >= 0 && lastUsecOffset < 0 {
        var dropLength := now - dropStartTime;
        var interesting := dropLength >= DROPOUT_MIN_USEC;
        if dropMaxlength < dropLength {
          dropMaxlength := dropLength;
          interesting := true;
        }
        if dropMaxdepth > dropDepth {
          dropMaxdepth := dropDepth;
          interesting := true;
        }
        if interesting {
          dropCount := dropCount + 1;
        }
        dropStartTime := 0;
      }
      if usecOffset < dropDepth {
        dropDepth := usecOffset;
      }
      lastUsecOffset := usecOffset;
    }
  }

  // ---- the whole sequence ----

  predicate Negative(s: Sample) { s.offset < 0 }

  /** Samples i to j - 1 are a maximal negative stretch, and sample j has caught up. */
  ghost predicate Stretch(samples: seq<Sample>, i: int, j: int) {
    && 0 <= i < j < |samples|
    && (forall k :: i <= k < j ==> Negative(samples[k]))
    && !Negative(samples[j])
    && (i > 0 ==> !Negative(samples[i - 1]))
  }

  function Length(samples: seq<Sample>, i: int, j: int): int
    requires 0 <= i < j < |samples|
  {
    samples[j].now - samples[i].now
  }

  /** The least of 0 and the offsets of samples i to j - 1. */
  function Depth(samples: seq<Sample>, i: int, j: int): int
    requires 0 <= i <= j <= |samples|
    decreases j - i
  {
    if i == j then 0
    else var d := Depth(samples, i, j - 1);
      if samples[j - 1].offset < d then samples[j - 1].offset else d
  }

  /** At least 100 msec long, or longer or deeper than every stretch completed before it. */
  ghost predicate Notable(samples: seq<Sample>, i: int, j: int) {
    && Stretch(samples, i, j)
    && (|| Length(samples, i, j) >= 100_000
        || (Length(samples, i, j) > 0 && forall a, b :: b < j && Stretch(samples, a, b) ==> Length(samples, a, b) < Length(samples, i, j))
        || (forall a, b :: b < j && Stretch(samples, a, b) ==> Depth(samples, a, b) > Depth(samples, i, j)))
  }

  ghost predicate NotableEnd(samples: seq<Sample>, j: int) {
    exists i :: Notable(samples, i, j)
  }

  /** Where the current negative stretch began, if the last sample is negative. */
  ghost predicate Open(samples: seq<Sample>, i: int) {
    && 0 <= i < |samples|
    && (forall k :: i <= k < |samples| ==> Negative(samples[k]))
    && (i > 0 ==> !Negative(samples[i - 1]))
  }

  ghost predicate MaxLengthIs(samples: seq<Sample>, m: int) {
    && m >= 0
    && (forall i, j :: Stretch(samples, i, j) ==> Length(samples, i, j) <= m)
    && (m > 0 ==> exists i, j :: Stretch(samples, i, j) && Length(samples, i, j) == m)
  }

  ghost predicate MaxDepthIs(samples: seq<Sample>, m: int) {
    && m <= 0
    && (forall i, j :: Stretch(samples, i, j) ==> Depth(samples, i, j) >= m)
    && (m < 0 ==> exists i, j :: Stretch(samples, i, j) && Depth(samples, i, j) == m)
  }

  ghost function NotableEnds(samples: seq<Sample>): set<int> {
    set j | 0 <= j < |samples| && NotableEnd(samples, j)
  }

  /** The index of the last sample that was not behind. */
  function LastCaughtUp(samples: seq<Sample>): (k: nat)
    ensures k <= |samples|
  {
    if samples == [] then 0
    else if !Negative(samples[|samples| - 1]) then |samples| - 1
    else LastCaughtUp(samples[..|samples| - 1])
  }

  ghost predicate Means(samples: seq<Sample>, t: Tracker) {
    && (samples == [] ==> t == QUIET)
    && (samples != [] ==> t.last == samples[|samples| - 1].offset)
    && (t.last >= 0 ==> t.start == 0)
    && (t.last < 0 ==> exists i :: Open(samples, i) && t.start == samples[i].now && t.depth == Depth(samples, i, |samples|))
    && MaxLengthIs(samples, t.maxLength) && MaxDepthIs(samples, t.maxDepth)
    && t.maxDepth == Depth(samples, 0, LastCaughtUp(samples))
    && t.count == |NotableEnds(samples)|
  }

  // ---- one more sample ----

  lemma {:induction false} DepthPrefix(samples: seq<Sample>, s: Sample, i: int, j: int)
    requires 0 <= i <= j <= |samples|
    ensures Depth(samples + [s], i, j) == Depth(samples, i, j)
    decreases j - i
  {
    if i < j { DepthPrefix(samples, s, i, j - 1); }
  }

  lemma {:induction false} DepthSplit(samples: seq<Sample>, i: int, j: int, k: int)
    requires 0 <= i <= j <= k <= |samples|
    ensures Depth(samples, i, k) == Min(Depth(samples, i, j), Depth(samples, j, k))
    decreases k - j
  {
    DepthSign(samples, i, j);
    if j < k { DepthSplit(samples, i, j, k - 1); }
  }

  lemma {:induction false} DepthSign(samples: seq<Sample>, i: int, j: int)
    requires 0 <= i <= j <= |samples|
    ensures Depth(samples, i, j) <= 0
    ensures (forall k :: i <= k < j ==> !Negative(samples[k])) ==> Depth(samples, i, j) == 0
    ensures (exists k :: i <= k < j && Negative(samples[k])) ==> Depth(samples, i, j) < 0
    decreases j - i
  {
    if i < j { DepthSign(samples, i, j - 1); }
  }

  lemma OpenUnique(samples: seq<Sample>, i: int, i2: int)
    requires Open(samples, i) && Open(samples, i2)
    ensures i == i2
  {
  }

  /** The stretches of the longer sequence: those there were, and the open one if it ends. */
  lemma StretchGrows(samples: seq<Sample>, s: Sample, i: int, j: int)
    ensures Stretch(samples + [s], i, j) <==>
      Stretch(samples, i, j) || (j == |samples| && !Negative(s) && Open(samples, i))
  {
    var after := samples + [s];
    if 0 <= i < j <= |samples| {
      assert forall k :: i <= k < j ==> after[k] == samples[k];
      if i > 0 { assert after[i - 1] == samples[i - 1]; }
      if j == |samples| {
        assert after[j] == s;
        if Open(samples, i) { assert forall k :: i <= k < j ==> Negative(after[k]); }
        if Stretch(after, i, j) { assert forall k :: i <= k < j ==> Negative(after[k]) && after[k] == samples[k]; }
      } else {
        assert after[j] == samples[j];
      }
    }
  }

  lemma NotableGrows(samples: seq<Sample>, s: Sample, i: int, j: int)
    requires j < |samples|
    ensures Notable(samples + [s], i, j) <==> Notable(samples, i, j)
  {
    var after := samples + [s];
    hide Depth;
    forall a, b | b <= j
      ensures Stretch(after, a, b) <==> Stretch(samples, a, b)
      ensures Stretch(samples, a, b) && Stretch(after, a, b) ==>
        Length(after, a, b) == Length(samples, a, b) && Depth(after, a, b) == Depth(samples, a, b)
    {
      StretchGrows(samples, s, a, b);
      if Stretch(samples, a, b) { SameFigures(samples, s, a, b); }
    }
  }

  lemma SameFigures(samples: seq<Sample>, s: Sample, a: int, b: int)
    requires Stretch(samples, a, b)
    ensures Stretch(samples + [s], a, b)
    ensures Length(samples + [s], a, b) == Length(samples, a, b)
    ensures Depth(samples + [s], a, b) == Depth(samples, a, b)
  {
    StretchGrows(samples, s, a, b);
    DepthPrefix(samples, s, a, b);
  }

  /** No stretch ends with this sample: the records stay. */
  lemma NoStretchEnds(samples: seq<Sample>, t: Tracker, s: Sample)
    requires Means(samples, t) && (Negative(s) || t.last >= 0)
    ensures MaxLengthIs(samples + [s], t.maxLength) && MaxDepthIs(samples + [s], t.maxDepth)
    ensures t.count == |NotableEnds(samples + [s])|
  {
    var after := samples + [s];
    hide Depth;
    forall i, j
      ensures Stretch(after, i, j) <==> Stretch(samples, i, j)
      ensures Stretch(samples, i, j) && Stretch(after, i, j) ==>
        Length(after, i, j) == Length(samples, i, j) && Depth(after, i, j) == Depth(samples, i, j)
    {
      StretchGrows(samples, s, i, j);
      if Stretch(samples, i, j) { SameFigures(samples, s, i, j); }
    }
    SameNotable(samples, s);
    assert !NotableEnd(after, |samples|);
    assert NotableEnds(after) == NotableEnds(samples);
  }

  lemma SameNotable(samples: seq<Sample>, s: Sample)
    ensures forall j :: j < |samples| ==> (NotableEnd(samples + [s], j) <==> NotableEnd(samples, j))
  {
    hide Notable;
    forall j | j < |samples|
      ensures NotableEnd(samples + [s], j) <==> NotableEnd(samples, j)
    {
      forall i
        ensures Notable(samples + [s], i, j) <==> Notable(samples, i, j)
      {
        NotableGrows(samples, s, i, j);
      }
    }
  }

  /** The open stretch, from sample i on, ends with this sample. */
  lemma StretchEnds(samples: seq<Sample>, t: Tracker, s: Sample, i: int)
    requires Means(samples, t) && !Negative(s)
    requires Open(samples, i) && t.start == samples[i].now && t.depth == Depth(samples, i, |samples|)
    ensures var u := Observe(t, s);
      && MaxLengthIs(samples + [s], u.maxLength) && MaxDepthIs(samples + [s], u.maxDepth)
      && u.count == |NotableEnds(samples + [s])|
  {
    var after, n, u := samples + [s], |samples|, Observe(t, s);
    assert t.last < 0;
    StretchGrows(samples, s, i, n);
    DepthPrefix(samples, s, i, n);
    DepthSign(samples, i, n);
    assert t.depth < 0 by { assert Negative(samples[i]); }
    hide Depth;
    forall a, b
      ensures Stretch(after, a, b) <==> Stretch(samples, a, b) || (a == i && b == n)
      ensures Stretch(samples, a, b) && Stretch(after, a, b) ==>
        b < n && Length(after, a, b) == Length(samples, a, b) && Depth(after, a, b) == Depth(samples, a, b)
    {
      StretchGrows(samples, s, a, b);
      if Open(samples, a) { OpenUnique(samples, a, i); }
      if Stretch(samples, a, b) { SameFigures(samples, s, a, b); }
    }
    assert after[i].now == samples[i].now && after[n] == s;
    assert Length(after, i, n) == s.now - t.start && Depth(after, i, n) == t.depth;
    assert OneMore(samples, after, i);
    CountGrows(samples, t, s, i);
  }

  /** `after` has the stretches of `samples` and one more, from i to the new sample. */
  ghost predicate OneMore(samples: seq<Sample>, after: seq<Sample>, i: int) {
    var n := |samples|;
    && Stretch(after, i, n)
    && (forall a, b :: Stretch(after, a, b) <==> Stretch(samples, a, b) || (a == i && b == n))
    && (forall a, b :: Stretch(samples, a, b) && Stretch(after, a, b) ==>
          b < n && Length(after, a, b) == Length(samples, a, b) && Depth(after, a, b) == Depth(samples, a, b))
    && Depth(after, i, n) < 0
  }

  lemma CountGrows(samples: seq<Sample>, t: Tracker, s: Sample, i: int)
    requires MaxLengthIs(samples, t.maxLength) && MaxDepthIs(samples, t.maxDepth)
    requires t.count == |NotableEnds(samples)| && OneMore(samples, samples + [s], i)
    ensures var length, depth := Length(samples + [s], i, |samples|), Depth(samples + [s], i, |samples|);
      |NotableEnds(samples + [s])| == t.count +
        if length >= DROPOUT_MIN_USEC || t.maxLength < length || t.maxDepth > depth then 1 else 0
  {
    var after, n := samples + [s], |samples|;
    NotableIffRecord(samples, t, after, i);
    OnlyThisEnds(samples, after, i);
    hide Notable, NotableEnd, NotableEnds, OneMore, MaxLengthIs, MaxDepthIs, Length, Depth, Stretch;
    EndsGrow(samples, s);
  }

  lemma EndsGrow(samples: seq<Sample>, s: Sample)
    ensures |NotableEnds(samples + [s])| ==
      |NotableEnds(samples)| + if NotableEnd(samples + [s], |samples|) then 1 else 0
  {
    hide NotableEnd;
    var after, n := samples + [s], |samples|;
    SameNotable(samples, s);
    if NotableEnd(after, n) {
      assert NotableEnds(after) == NotableEnds(samples) + {n};
    } else {
      assert NotableEnds(after) == NotableEnds(samples);
    }
  }

  lemma OnlyThisEnds(samples: seq<Sample>, after: seq<Sample>, i: int)
    requires OneMore(samples, after, i)
    ensures NotableEnd(after, |samples|) <==> Notable(after, i, |samples|)
  {
    hide Stretch, Length, Depth;
    if NotableEnd(after, |samples|) {
      var a :| Notable(after, a, |samples|);
      assert Stretch(after, a, |samples|);
      assert !(Stretch(samples, a, |samples|) && Stretch(after, a, |samples|));
    }
  }

  lemma NotableIffRecord(samples: seq<Sample>, t: Tracker, after: seq<Sample>, i: int)
    requires MaxLengthIs(samples, t.maxLength) && MaxDepthIs(samples, t.maxDepth)
    requires OneMore(samples, after, i)
    ensures Notable(after, i, |samples|) <==>
      (|| Length(after, i, |samples|) >= DROPOUT_MIN_USEC
       || t.maxLength < Length(after, i, |samples|)
       || t.maxDepth > Depth(after, i, |samples|))
  {
    var n := |samples|;
    var length, depth := Length(after, i, n), Depth(after, i, n);
    hide Depth, Length, Stretch, MaxLengthIs, MaxDepthIs;
    LongestYet(samples, after, t.maxLength, n, length);
    DeepestYet(samples, after, t.maxDepth, n, depth);
  }

  lemma LongestYet(samples: seq<Sample>, after: seq<Sample>, m: int, n: int, length: int)
    requires MaxLengthIs(samples, m) && n == |samples|
    requires forall a, b :: b < n ==> (Stretch(after, a, b) <==> Stretch(samples, a, b))
    requires forall a, b :: Stretch(samples, a, b) ==> b < n && Stretch(after, a, b)
    requires forall a, b :: Stretch(samples, a, b) && Stretch(after, a, b) ==> Length(after, a, b) == Length(samples, a, b)
    ensures (length > 0 && forall a, b :: b < n && Stretch(after, a, b) ==> Length(after, a, b) < length) <==> m < length
  {
    hide Length;
    if m > 0 {
      var i, j :| Stretch(samples, i, j) && Length(samples, i, j) == m;
      assert Stretch(after, i, j);
    }
  }

  lemma DeepestYet(samples: seq<Sample>, after: seq<Sample>, m: int, n: int, depth: int)
    requires MaxDepthIs(samples, m) && n == |samples| && depth < 0
    requires forall a, b :: b < n ==> (Stretch(after, a, b) <==> Stretch(samples, a, b))
    requires forall a, b :: Stretch(samples, a, b) ==> b < n && Stretch(after, a, b)
    requires forall a, b :: Stretch(samples, a, b) && Stretch(after, a, b) ==> Depth(after, a, b) == Depth(samples, a, b)
    ensures (forall a, b :: b < n && Stretch(after, a, b) ==> Depth(after, a, b) > depth) <==> m > depth
  {
    hide Depth;
    if m < 0 {
      var i, j :| Stretch(samples, i, j) && Depth(samples, i, j) == m;
      assert Stretch(after, i, j);
    }
  }

  /** The least offset so far only matters up to the last time the client had caught up. */
  lemma DeepestCaughtUp(samples: seq<Sample>, t: Tracker, s: Sample)
    requires Means(samples, t)
    ensures Observe(t, s).maxDepth == Depth(samples + [s], 0, LastCaughtUp(samples + [s]))
  {
    var after, n, k := samples + [s], |samples|, LastCaughtUp(samples);
    assert after[..n] == samples;
    if Negative(s) {
      DepthPrefix(samples, s, 0, k);
    } else {
      DepthPrefix(samples, s, 0, n);
      DepthSign(samples, 0, k);
      DepthSplit(samples, 0, k, n);
      if t.last < 0 {
        var i :| Open(samples, i) && t.depth == Depth(samples, i, n);
        CaughtUpBefore(samples, i);
        DepthSplit(samples, k, i, n);
        DepthSign(samples, k, i);
        DepthSign(samples, i, n);
      } else if samples != [] {
        assert k == n - 1;
        DepthSign(samples, k, n);
      }
    }
  }

  lemma {:induction false} CaughtUpBefore(samples: seq<Sample>, i: int)
    requires Open(samples, i)
    ensures LastCaughtUp(samples) == if i > 0 then i - 1 else 0
  {
    var n := |samples| - 1;
    assert Negative(samples[n]);
    if i < n {
      CaughtUpBefore(samples[..n], i);
    }
  }

  lemma ObserveMeans(samples: seq<Sample>, t: Tracker, s: Sample)
    requires Means(samples, t)
    ensures Means(samples + [s], Observe(t, s))
  {
    var after, n, u := samples + [s], |samples|, Observe(t, s);
    DeepestCaughtUp(samples, t, s);
    if Negative(s) {
      NoStretchEnds(samples, t, s);
      if t.last >= 0 {
        assert Open(after, n) && Depth(after, n, n) == 0;
        assert u.depth == Depth(after, n, n + 1);
      } else {
        var i :| Open(samples, i) && t.start == samples[i].now && t.depth == Depth(samples, i, n);
        DepthPrefix(samples, s, i, n);
        assert Open(after, i) && u.depth == Depth(after, i, n + 1);
      }
    } else if t.last >= 0 {
      NoStretchEnds(samples, t, s);
    } else {
      var i :| Open(samples, i) && t.start == samples[i].now && t.depth == Depth(samples, i, n);
      StretchEnds(samples, t, s, i);
    }
  }

  lemma QuietMeans()
    ensures Means([], QUIET)
  {
    assert NotableEnds([]) == {};
  }

  /** Online tracking equals its batch meaning, over any sequence of samples: the longest
      completed stretch; the least offset before the client last had caught up; and the
      number of completed stretches that were long or set a record when they ended. */
  lemma {:induction false} TrackMeans(samples: seq<Sample>)
    ensures Means(samples, Track(samples))
  {
    hide Means, Observe;
    if samples == [] {
      QuietMeans();
    } else {
      var n := |samples| - 1;
      TrackMeans(samples[..n]);
      assert samples == samples[..n] + [samples[n]];
      ObserveMeans(samples[..n], Track(samples[..n]), samples[n]);
    }
  }

  // ---- server and client together ----

  /** The samples, at some instants, of a client that drains its socket before it looks. */
  function DrainedSamples(mb: nat, writes: seq<Write>, link: Link, begun: int, instants: seq<int>): seq<Sample>
    requires mb > 0 && forall i :: 0 <= i < |instants| ==> begun <= instants[i]
  {
    seq(|instants|, i requires 0 <= i < |instants| =>
      Sample(link.Clock(instants[i]), OffsetAt(mb, writes, link, begun, instants[i])))
  }

  /** All those instants are within the server's run. */
  ghost predicate AllWatching(p: Pace, link: Link, begun: int, instants: seq<int>) {
    forall i :: 0 <= i < |instants| ==> Watching(p, link, begun, instants[i])
  }

  lemma {:induction false} NeverBehindNeverDrops(samples: seq<Sample>)
    requires forall i :: 0 <= i < |samples| ==> !Negative(samples[i])
    ensures var t := Track(samples); t.count == 0 && t.maxDepth == 0 && t.maxLength == 0 && t.last >= 0
  {
    if samples != [] { NeverBehindNeverDrops(samples[..|samples| - 1]); }
  }

  /** No false dropouts: at any rate from 1 to 1000 megabits/sec but 7, whatever the phase of the
      server's clock and for any number of its turns, a client whose clock flips when the
      server's did, and that begins when the first data arrive or later, is never behind. */
  lemma {:induction false} NoFalseDropouts(mb: nat, phase: nat, n: nat, link: Link, begun: int, instants: seq<int>)
    requires 1 <= mb <= 1000 && mb != 7 && phase < 1000 && link.Aligned()
    requires AllWatching(Turns(mb, phase, n), link, begun, instants)
    ensures var samples := DrainedSamples(mb, Turns(mb, phase, n).writes, link, begun, instants);
      && (forall i :: 0 <= i < |samples| ==> samples[i].offset >= 0)
      && Track(samples).count == 0 && Track(samples).maxDepth == 0 && Track(samples).maxLength == 0
  {
    hide Turns, OffsetAt;
    var samples := DrainedSamples(mb, Turns(mb, phase, n).writes, link, begun, instants);
    forall i | 0 <= i < |samples|
      ensures samples[i].offset >= 0
    {
      NeverBehind(mb, phase, n, link, begun, instants[i]);
    }
    NeverBehindNeverDrops(samples);
  }

  /** The same for clocks of any phase, in a run in which the goal line of the client overtakes no
      sleep of the server's. */
  lemma {:induction false} NoDropoutsUnlessOvertaken(mb: nat, phase: nat, n: nat, link: Link, begun: int, instants: seq<int>)
    requires 1 <= mb <= 1000 && phase < 1000
    requires AllWatching(Turns(mb, phase, n), link, begun, instants)
    requires forall k :: 0 <= k < n ==> !Overtaken(mb, phase, k, link, begun)
    ensures var samples := DrainedSamples(mb, Turns(mb, phase, n).writes, link, begun, instants);
      && (forall i :: 0 <= i < |samples| ==> samples[i].offset >= 0)
      && Track(samples).count == 0 && Track(samples).maxDepth == 0 && Track(samples).maxLength == 0
  {
    hide Turns, OffsetAt, Overtaken;
    var samples := DrainedSamples(mb, Turns(mb, phase, n).writes, link, begun, instants);
    forall i | 0 <= i < |samples|
      ensures samples[i].offset >= 0
    {
      assert Watching(Turns(mb, phase, n), link, begun, instants[i]);
      assert ShowsBehind(mb, Turns(mb, phase, n), link, begun, instants[i]) <==> samples[i].offset < 0;
      BehindIff(mb, phase, n, link, begun);
    }
    NeverBehindNeverDrops(samples);
  }

  /** And whatever the link and the clocks, a false dropout is only 1 usec deep. */
  lemma {:induction false} FalseDropoutsAreShallow(mb: nat, phase: nat, n: nat, link: Link, begun: int, instants: seq<int>)
    requires 1 <= mb <= 1000 && phase < 1000
    requires AllWatching(Turns(mb, phase, n), link, begun, instants)
    ensures var samples := DrainedSamples(mb, Turns(mb, phase, n).writes, link, begun, instants);
      && (forall i :: 0 <= i < |samples| ==> samples[i].offset >= -1)
      && -1 <= Track(samples).maxDepth <= 0
  {
    hide Turns, OffsetAt;
    var samples := DrainedSamples(mb, Turns(mb, phase, n).writes, link, begun, instants);
    forall i | 0 <= i < |samples|
      ensures samples[i].offset >= -1
    {
      NeverTwoBehind(mb, phase, n, link, begun, instants[i]);
    }
    TrackMeans(samples);
    DepthAbove(samples, 0, LastCaughtUp(samples), 1);
  }

  /** They do occur: clocks in step, 600 nsec of delay, 12 megabits/sec, a sample just before and one
      just after the second write arrives. */
  lemma {:induction false} FalseDropoutAtTwelve()
    ensures AllWatching(Turns(12, 0, 7), Link(600, 0), 43_691_932, [87_383_100, 87_383_300])
    ensures var t := Track(DrainedSamples(12, Turns(12, 0, 7).writes, Link(600, 0), 43_691_932, [87_383_100, 87_383_300]));
      t.count == 1 && t.maxDepth == -1
  {
    hide Turns, Track, Observe, OffsetAt;
    MoreTurnsAtTwelve();
    SamplesAtTwelve();
    var samples := DrainedSamples(12, Turns(12, 0, 7).writes, Link(600, 0), 43_691_932, [87_383_100, 87_383_300]);
    TwoSamples(samples, Sample(87_383, -1), samples[1]);
    OneDropout(samples[1]);
  }

  lemma SamplesAtTwelve()
    ensures var w := [Write(43_691_332, 65536), Write(87_382_664, 131_073)];
      && OffsetAt(12, w, Link(600, 0), 43_691_932, 87_383_100) == -1
      && OffsetAt(12, w, Link(600, 0), 43_691_932, 87_383_300) >= 0
  {
  }

  lemma OneDropout(s: Sample)
    requires s.now == 87_383 && s.offset >= 0
    ensures var t := Observe(Observe(QUIET, Sample(87_383, -1)), s); t.count == 1 && t.maxDepth == -1
  {
  }

  lemma TwoSamples(samples: seq<Sample>, a: Sample, b: Sample)
    requires samples == [a, b]
    ensures Track(samples) == Observe(Observe(QUIET, a), b)
  {
    hide Observe;
    assert samples[..1] == [a] && [a][..0] == [];
    assert Track([]) == QUIET;
    assert Track([a]) == Observe(QUIET, a);
    assert samples[1] == b;
  }

  /** And real dropouts are never deeper than the time since the start, whatever arrived. */
  lemma {:induction false} DepthWithinTime(mb: nat, received: seq<nat>, start: int, times: seq<int>)
    requires mb > 0 && |received| == |times| > 0
    requires forall i, j :: 0 <= i <= j < |times| ==> start <= times[i] <= times[j]
    ensures var samples := seq(|times|, i requires 0 <= i < |times| =>
        Sample(times[i], UsecOffset(mb, received[i], times[i] - start)));
      Track(samples).maxDepth + (times[|times| - 1] - start) >= 0
  {
    hide UsecOffset;
    var samples := seq(|times|, i requires 0 <= i < |times| =>
      Sample(times[i], UsecOffset(mb, received[i], times[i] - start)));
    var elapsed := times[|times| - 1] - start;
    forall i | 0 <= i < |samples|
      ensures samples[i].offset + elapsed >= 0
    {
      OffsetBound(mb, received[i], times[i] - start);
    }
    TrackMeans(samples);
    DepthAbove(samples, 0, LastCaughtUp(samples), elapsed);
  }

  lemma {:induction false} DepthAbove(samples: seq<Sample>, i: int, j: int, bound: nat)
    requires 0 <= i <= j <= |samples|
    requires forall k :: 0 <= k < |samples| ==> samples[k].offset + bound >= 0
    ensures Depth(samples, i, j) + bound >= 0
    decreases j - i
  {
    if i < j { DepthAbove(samples, i, j - 1, bound); }
  }
}
