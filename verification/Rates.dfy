/** isostream's rates: how the bits of a period fall on whole ticks, and which rates have the
    bits for a client to fall behind. */
module Rates {
  import opened Isostream

  /** Bits beyond a period's bytes at the first tick at which a period is due. */
  function Slack(mb: nat): int
    requires mb > 0
  {
    mb * ((8 * BytesPerPeriod(mb) + mb - 1) / mb) - 8 * BytesPerPeriod(mb)
  }

  lemma CeilBounds(x: int, m: nat)
    requires m > 0
    ensures x <= m * ((x + m - 1) / m) < x + m
  {
    var c := (x + m - 1) / m;
    CeilMeaning(x, m, c);
    CeilMeaning(x, m, c - 1);
    assert m * (c - 1) == m * c - m;
  }

  /** Bits missing from mb to the next whole byte. */
  function Missing(mb: nat): int { (8 - mb % 8) % 8 }

  function ToByte(x: nat): nat { (x + 7) / 8 * 8 }

  /** The rates at which a sleep could let a client fall 2 usec behind, and 1 usec if the clocks
      are aligned, by the arithmetic of the rate alone. */
  predicate CouldLoseTwo(mb: nat)
    requires mb > 0
  {
    && Missing(mb) >= 1 && Slack(mb) + (ToByte(2 * mb) - 2 * mb) + Missing(mb) <= 7
    && 1000 * Missing(mb) >= 3 * mb
  }

  predicate CouldLoseAligned(mb: nat)
    requires mb > 0
  {
    Missing(mb) >= 1 && Slack(mb) + 2 * Missing(mb) <= 7 && 1000 * Missing(mb) >= 2 * mb
  }

  /** What the bits of 64 KiB, 2^19, leave when sent at mb bits a tick. */
  function Rest(mb: nat): (r: nat)
    requires mb > 0
    ensures r < mb
  {
    524288 % mb
  }

  lemma SlackIs(mb: nat)
    requires 6 <= mb
    ensures Slack(mb) == if Rest(mb) == 0 then 0 else mb - Rest(mb)
  {
    assert BytesPerPeriod(mb) == 65536;
    var k, h := 524288 / mb, Rest(mb);
    assert 524288 == mb * k + h;
    assert mb * (k + 1) == mb * k + mb;
    CeilMeaning(524288, mb, k);
    CeilMeaning(524288, mb, k + 1);
    CeilMeaning(524288, mb, k - 1);
    assert mb * (k - 1) == mb * k - mb;
  }

  // ---- divisors of 2^19 and of the numbers just above ----

  predicate PowerOfTwo(n: nat) { n == 1 || (n > 1 && n % 2 == 0 && PowerOfTwo(n / 2)) }

  lemma {:induction false} OddDivisor(o: nat, a: nat, n: nat)
    requires o * a == n && PowerOfTwo(n) && o % 2 == 1
    ensures o == 1
    decreases n
  {
    if n == 1 {
      if o > 1 && a >= 1 { Scale(o, 1, a); }
    } else {
      if a % 2 == 1 { OddTimesOdd(o, a); }
      HalfProduct(o, a, n);
      OddDivisor(o, a / 2, n / 2);
    }
  }

  lemma OddTimesOdd(o: nat, a: nat)
    requires o % 2 == 1 && a % 2 == 1
    ensures o * a % 2 == 1
  {
    var b, c := a / 2, o / 2;
    assert o * a == 2 * (o * b) + o;
  }

  lemma HalfProduct(o: nat, a: nat, n: nat)
    requires o * a == n && a % 2 == 0
    ensures o * (a / 2) == n / 2
  {
    assert o * a == 2 * (o * (a / 2));
  }

  lemma TwoTo19()
    ensures PowerOfTwo(524288) && PowerOfTwo(262144) && PowerOfTwo(131072)
  {
    assert PowerOfTwo(1024);
    assert PowerOfTwo(2048) && PowerOfTwo(4096) && PowerOfTwo(8192) && PowerOfTwo(16384);
    assert PowerOfTwo(32768) && PowerOfTwo(65536);
  }

  /** n rates from 8 * j + r on, 8 apart, of which none divides 2^19 + 1 up to 2^19 + s. */
  predicate Clear(r: nat, s: nat, j: nat, n: nat)
    requires r > 0
    decreases n
  {
    n == 0 || (Rest(8 * j + r) + s < 8 * j + r && Clear(r, s, j + 1, n - 1))
  }

  lemma {:induction false} ClearAt(r: nat, s: nat, j: nat, n: nat, i: nat)
    requires r > 0 && Clear(r, s, j, n) && j <= i < j + n
    ensures Rest(8 * i + r) + s < 8 * i + r
    decreases n
  {
    if j < i { ClearAt(r, s, j + 1, n - 1, i); }
  }

  lemma {:induction false} Join(r: nat, s: nat, j: nat, n: nat, m: nat)
    requires r > 0 && Clear(r, s, j, n) && Clear(r, s, j + n, m)
    ensures Clear(r, s, j, n + m)
    decreases n
  {
    if n > 0 { Join(r, s, j + 1, n - 1, m); }
  }

  // Ten rates at a time.
  lemma Sevens0() ensures Clear(7, 5, 1, 10) { }
  lemma Sevens1() ensures Clear(7, 5, 11, 10) { }
  lemma Sevens2() ensures Clear(7, 5, 21, 10) { }
  lemma Sevens3() ensures Clear(7, 5, 31, 10) { }
  lemma Sevens4() ensures Clear(7, 5, 41, 10) { }
  lemma Sevens5() ensures Clear(7, 5, 51, 10) { }
  lemma Sevens6() ensures Clear(7, 5, 61, 10) { }

  lemma Sevens(i: nat)
    requires 1 <= i <= 70
    ensures Rest(8 * i + 7) + 5 < 8 * i + 7
  {
    hide Clear;
    Sevens0();
    Sevens1(); Join(7, 5, 1, 10, 10);
    Sevens2(); Join(7, 5, 1, 20, 10);
    Sevens3(); Join(7, 5, 1, 30, 10);
    Sevens4(); Join(7, 5, 1, 40, 10);
    Sevens5(); Join(7, 5, 1, 50, 10);
    Sevens6(); Join(7, 5, 1, 60, 10);
    ClearAt(7, 5, 1, 70, i);
  }

  lemma Sixes0() ensures Clear(6, 2, 1, 10) { }
  lemma Sixes1() ensures Clear(6, 2, 11, 10) { }
  lemma Sixes2() ensures Clear(6, 2, 21, 10) { }
  lemma Sixes3() ensures Clear(6, 2, 31, 10) { }
  lemma Sixes4() ensures Clear(6, 2, 41, 10) { }
  lemma Sixes5() ensures Clear(6, 2, 51, 10) { }
  lemma Sixes6() ensures Clear(6, 2, 61, 10) { }
  lemma Sixes7() ensures Clear(6, 2, 71, 10) { }
  lemma Sixes8() ensures Clear(6, 2, 81, 10) { }
  lemma Sixes9() ensures Clear(6, 2, 91, 10) { }
  lemma Sixes10() ensures Clear(6, 2, 101, 10) { }
  lemma Sixes11() ensures Clear(6, 2, 111, 10) { }
  lemma Sixes12() ensures Clear(6, 2, 121, 10) { }

  lemma Sixes(i: nat)
    requires 1 <= i <= 130
    ensures Rest(8 * i + 6) + 2 < 8 * i + 6
  {
    hide Clear;
    Sixes0();
    Sixes1(); Join(6, 2, 1, 10, 10);
    Sixes2(); Join(6, 2, 1, 20, 10);
    Sixes3(); Join(6, 2, 1, 30, 10);
    Sixes4(); Join(6, 2, 1, 40, 10);
    Sixes5(); Join(6, 2, 1, 50, 10);
    Sixes6(); Join(6, 2, 1, 60, 10);
    Sixes7(); Join(6, 2, 1, 70, 10);
    Sixes8(); Join(6, 2, 1, 80, 10);
    Sixes9(); Join(6, 2, 1, 90, 10);
    Sixes10(); Join(6, 2, 1, 100, 10);
    Sixes11(); Join(6, 2, 1, 110, 10);
    Sixes12(); Join(6, 2, 1, 120, 10);
    ClearAt(6, 2, 1, 130, i);
  }

  lemma Fives0() ensures Clear(5, 1, 1, 10) { }
  lemma Fives1() ensures Clear(5, 1, 11, 10) { }
  lemma Fives2() ensures Clear(5, 1, 21, 10) { }
  lemma Fives3() ensures Clear(5, 1, 31, 10) { }
  lemma Fives4() ensures Clear(5, 1, 41, 10) { }
  lemma Fives5() ensures Clear(5, 1, 51, 10) { }
  lemma Fives6() ensures Clear(5, 1, 61, 10) { }
  lemma Fives7() ensures Clear(5, 1, 71, 10) { }
  lemma Fives8() ensures Clear(5, 1, 81, 10) { }
  lemma Fives9() ensures Clear(5, 1, 91, 10) { }
  lemma Fives10() ensures Clear(5, 1, 101, 10) { }
  lemma Fives11() ensures Clear(5, 1, 111, 10) { }
  lemma Fives12() ensures Clear(5, 1, 121, 10) { }

  lemma Fives(i: nat)
    requires 1 <= i <= 130
    ensures Rest(8 * i + 5) + 1 < 8 * i + 5
  {
    hide Clear;
    Fives0();
    Fives1(); Join(5, 1, 1, 10, 10);
    Fives2(); Join(5, 1, 1, 20, 10);
    Fives3(); Join(5, 1, 1, 30, 10);
    Fives4(); Join(5, 1, 1, 40, 10);
    Fives5(); Join(5, 1, 1, 50, 10);
    Fives6(); Join(5, 1, 1, 60, 10);
    Fives7(); Join(5, 1, 1, 70, 10);
    Fives8(); Join(5, 1, 1, 80, 10);
    Fives9(); Join(5, 1, 1, 90, 10);
    Fives10(); Join(5, 1, 1, 100, 10);
    Fives11(); Join(5, 1, 1, 110, 10);
    Fives12(); Join(5, 1, 1, 120, 10);
    ClearAt(5, 1, 1, 130, i);
  }

  // ---- the two classes of rates are almost empty ----

  lemma ClassSeven(mb: nat)
    requires 7 <= mb <= 500 && mb % 8 == 7 && Slack(mb) <= 5
    ensures mb == 7
  {
    hide Rest, Slack;
    SlackIs(mb);
    if mb > 7 {
      var i := mb / 8;
      assert mb == 8 * i + 7;
      Sevens(i);
      OddRate(mb);
    }
  }

  lemma ClassSix(mb: nat)
    requires 6 <= mb <= 1000 && mb % 8 == 6
    ensures Slack(mb) > 2
  {
    hide Rest, Slack;
    SlackIs(mb);
    if mb > 6 {
      var i := mb / 8;
      assert mb == 8 * i + 6;
      Sixes(i);
      NoPower(mb, 4 * i + 3, 262144);
    } else {
      SlackOfSix();
    }
  }

  lemma ClassFive(mb: nat)
    requires 6 <= mb <= 1000 && mb % 8 == 5
    ensures Slack(mb) > 1
  {
    hide Rest, Slack;
    var i := mb / 8;
    assert mb == 8 * i + 5;
    Fives(i);
    OddRate(mb);
    SlackIs(mb);
  }

  lemma ClassFour(mb: nat)
    requires 6 <= mb <= 1000 && mb % 8 == 4
    ensures Slack(mb) > 3
  {
    hide Rest, Slack;
    SlackDivides(mb, 4);
    SlackIs(mb);
    NoPower(mb, mb / 4, 131072);
  }

  lemma OddRate(mb: nat)
    requires 6 <= mb && mb % 2 == 1
    ensures Rest(mb) != 0 && Slack(mb) > 0
  {
    hide Rest, Slack;
    SlackIs(mb);
    NoPower(mb, mb, 524288);
  }

  /** A rate with an odd factor does not divide 2^19. */
  lemma NoPower(mb: nat, o: nat, n: nat)
    requires mb > 0 && o > 1 && o % 2 == 1 && n * mb == 524288 * o
    requires n == 524288 || n == 262144 || n == 131072
    ensures Rest(mb) != 0
  {
    TwoTo19();
    if Rest(mb) == 0 {
      var a := 524288 / mb;
      assert mb * a == 524288;
      assert o * a == n by { Cancel(mb, o, a, n); }
      OddDivisor(o, a, n);
    }
  }

  lemma Cancel(mb: nat, o: nat, a: nat, n: nat)
    requires mb > 0 && n * mb == 524288 * o && mb * a == 524288
    ensures o * a == n
  {
    assert n * mb == (mb * a) * o == mb * (o * a);
  }

  /** A common factor of the rate and of 2^19 is one of the slack. */
  lemma SlackDivides(mb: nat, k: nat)
    requires 6 <= mb && (k == 2 || k == 4) && mb % k == 0
    ensures Slack(mb) % k == 0
  {
    assert BytesPerPeriod(mb) == 65536;
    hide BytesPerPeriod;
    FactorLeft(mb, k, (8 * BytesPerPeriod(mb) + mb - 1) / mb);
  }

  lemma FactorLeft(mb: nat, k: nat, c: nat)
    requires (k == 2 || k == 4) && mb % k == 0
    ensures (mb * c - 524288) % k == 0
  {
    var m := mb / k;
    assert mb == k * m;
    if k == 2 {
      assert mb * c == 2 * (m * c);
    } else {
      assert mb * c == 4 * (m * c);
    }
  }

  /** Rates by what they leave of a byte. */
  lemma Residues(mb: nat, i: nat, r: nat)
    requires r < 8 && mb == 8 * i + r
    ensures Missing(mb) == if r == 0 then 0 else 8 - r
    ensures ToByte(2 * mb) - 2 * mb == if r == 0 || r == 4 then 0 else if r < 4 then 8 - 2 * r else 16 - 2 * r
  {
    hide Missing, ToByte;
    MissingOf(mb, i, r);
    ByteOf(2 * mb, if r == 0 then 2 * i else if r <= 4 then 2 * i + 1 else 2 * i + 2);
  }

  lemma MissingOf(mb: nat, i: nat, r: nat)
    requires r < 8 && mb == 8 * i + r
    ensures Missing(mb) == if r == 0 then 0 else 8 - r
  {
    assert mb % 8 == r;
  }

  lemma ByteOf(x: nat, k: nat)
    requires 8 * k - 8 < x <= 8 * k
    ensures ToByte(x) == 8 * k
  {
  }

  lemma SlackNatural(mb: nat)
    requires mb > 0
    ensures Slack(mb) >= 0
  {
    hide BytesPerPeriod;
    CeilBounds(8 * BytesPerPeriod(mb), mb);
  }

  /** None of the rates above 5 has the bits to let a client fall 2 usec behind. */
  lemma {:induction false} NoRateLosesTwo(mb: nat)
    requires 6 <= mb <= 1000
    ensures !CouldLoseTwo(mb)
  {
    hide Rest, Slack, Missing, ToByte;
    Residues(mb, mb / 8, mb % 8);
    SlackNatural(mb);
    if CouldLoseTwo(mb) {
      if mb % 8 == 7 { ClassSeven(mb); SlackOfSeven(); }
      if mb % 8 == 6 { ClassSix(mb); }
      if mb % 8 == 4 { ClassFour(mb); }
      if mb % 8 == 3 { OddRate(mb); }
    }
  }

  lemma SlackOfSix()
    ensures Slack(6) == 4
  {
  }

  lemma SlackOfSeven()
    ensures Slack(7) == 5
  {
  }

  /** And only 7 has them to let one with aligned clocks fall 1 usec behind. */
  lemma {:induction false} OnlySevenLosesAligned(mb: nat)
    requires 6 <= mb <= 1000 && CouldLoseAligned(mb)
    ensures mb == 7
  {
    hide Rest, Slack, Missing;
    Residues(mb, mb / 8, mb % 8);
    SlackNatural(mb);
    if mb % 8 == 7 { ClassSeven(mb); }
    if mb % 8 == 6 { ClassSix(mb); SlackDivides(mb, 2); }
    if mb % 8 == 5 { ClassFive(mb); }
  }
}
