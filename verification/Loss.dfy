/** Loss accounting by sequence number, for any arrival order with duplicates. */
module Loss {
  import opened Words
  import opened Wire
  import opened Engine
  import opened Origin
  import opened AckFilter

  /** The promise of the header: ids do not wrap, and successive ids are less than 2^31 apart. */
  predicate InWindow(s: Sess, id: uint32) {
    1 <= id < 0xffff_ffff && (s.nextRxId != 0 ==> -0x8000_0000 <= id - s.nextRxId < 0x8000_0000)
  }

  predicate Windowed(s0: Sess, es: seq<Event>) {
    es == [] ||
    var k := |es| - 1;
    Windowed(s0, es[..k]) && (es[k].Got? ==>
      InWindow(Run(s0, es[..k]).s, es[k].rx.h.id) && s0.numLost + es[k].rx.h.id < 0x1_0000_0000)
  }

  function GotIds(got: seq<Arrived>): seq<nat> {
    seq(|got|, i requires 0 <= i < |got| => got[i].id)
  }

  /** `base` was lost in earlier negotiations. */
  ghost predicate Accounted(t: Track, base: nat) {
    var ids := GotIds(t.got);
    && (ids == [] ==> t.s.nextRxId == 0 && t.s.numLost == base)
    && (ids != [] ==>
          && 1 <= ids[0] <= MaxOf(0, ids) < 0xffff_ffff
          && t.s.nextRxId == MaxOf(0, ids) + 1
          && t.s.nextRxId - ids[0] == |Records(0, ids)| + (t.s.numLost - base))
  }

  lemma ReceiveLoss(s: Sess, rx: Packet, now: uint64)
    ensures var t, c := Receive(s, rx, now).0, CountLoss(Calibrate(s, rx.h, now), rx.h.id);
      t.nextRxId == c.nextRxId && t.numLost == c.numLost
  {
    hide Delay, Diff, U32, U64, WithSlot, LatRx, Rtt, ClockOffset, CountAcks, RingRead, SlotTime, CountLoss;
    CountAcksFrame(Filed(s, rx.h, now), ClockOffset(Aligned(s, rx.h, now), rx.h), RingRead(rx.data, rx.h.firstAck));
  }

  /** In the window: a gap counts the ids skipped, an expected id counts nothing, and a
      late one changes nothing. */
  lemma CountLossExact(s: Sess, id: uint32)
    requires InWindow(s, id) && s.nextRxId != 0 && s.numLost + id < 0x1_0000_0000 + s.nextRxId
    ensures CountLoss(s, id) ==
      if id >= s.nextRxId then s.(numLost := s.numLost + (id - s.nextRxId), nextRxId := id + 1) else s
  {
    hide Diff;
    DiffExact(id, s.nextRxId);
  }

  lemma CountStep(t: Track, rx: Packet, now: uint64, base: nat)
    requires Accounted(t, base) && InWindow(t.s, rx.h.id) && base + rx.h.id < 0x1_0000_0000
    ensures Accounted(Advance(t, Got(rx, now)), base)
  {
    hide Receive, CountLoss, MaxOf, Records;
    var t' := Advance(t, Got(rx, now));
    var ids, id := GotIds(t.got), rx.h.id;
    assert GotIds(t'.got) == ids + [id];
    ReceiveLoss(t.s, rx, now);
    RecordsConcat(0, ids, [id]);
    assert MaxOf(MaxOf(0, ids), [id]) == (if id > MaxOf(0, ids) then id else MaxOf(0, ids))
      && Records(MaxOf(0, ids), [id]) == (if id > MaxOf(0, ids) then [id] else []) by { One(MaxOf(0, ids), id); }
    if ids == [] {
      One(0, id);
      NothingNew(0, []);
      CountLossExact(Calibrate(t.s, rx.h, now), id);
    } else {
      assert Calibrate(t.s, rx.h, now) == t.s;
      CountLossExact(t.s, id);
    }
  }

  lemma One(m: nat, id: nat)
    ensures MaxOf(m, [id]) == (if id > m then id else m)
    ensures Records(m, [id]) == (if id > m then [id] else [])
  {
    assert [id][..0] == [];
  }

  lemma {:induction false} RunAccounted(s0: Sess, es: seq<Event>)
    requires s0.nextRxId == 0 && Windowed(s0, es)
    ensures Accounted(Run(s0, es), s0.numLost)
  {
    if es != [] {
      hide Accounted;
      var k := |es| - 1;
      RunAccounted(s0, es[..k]);
      match es[k]
      case Got(rx, now) => CountStep(Run(s0, es[..k]), rx, now, s0.numLost);
      case Sent(isServer) => assert Accounted(Run(s0, es), s0.numLost) by { SentAccounted(Run(s0, es[..k]), isServer, s0.numLost); }
    } else {
      assert GotIds(Start(s0).got) == [];
    }
  }

  lemma SentAccounted(t: Track, isServer: bool, base: nat)
    requires Accounted(t, base)
    ensures Accounted(Advance(t, Sent(isServer)), base)
  {
    hide MaxOf, Records, U32, U64;
  }

  // ---- the meaning of the count ----

  /** Ids between the first and the largest that never arrived. */
  ghost function Never(ids: seq<nat>): set<nat>
    requires ids != []
  {
    set i: nat | ids[0] <= i <= MaxOf(0, ids) && i !in ids
  }

  /** Ids in that range that arrived, but only after a larger one. */
  ghost function OnlyLate(ids: seq<nat>): set<nat>
    requires ids != []
  {
    set i: nat | ids[0] <= i <= MaxOf(0, ids) && i in ids && i !in Records(0, ids)
  }

  predicate Between(a: nat, i: nat, b: nat) { a <= i < b }

  ghost function Range(a: nat, b: nat): set<nat> { set i: nat | i < b && Between(a, i, b) }

  lemma {:induction false} RangeSize(a: nat, b: nat)
    requires a <= b
    ensures |Range(a, b)| == b - a
    decreases b - a
  {
    if a == b {
      assert Range(a, b) == {};
    } else {
      RangeSize(a, b - 1);
      assert Range(a, b) == Range(a, b - 1) + {b - 1} by {
        assert Between(a, b - 1, b);
        forall i: nat
          ensures Between(a, i, b) <==> Between(a, i, b - 1) || i == b - 1
        {
        }
      }
    }
  }

  ghost function AsSet(ids: seq<nat>): set<nat> { set r | r in ids }

  /** The records are distinct ids of the range. */
  lemma {:induction false} RecordSet(ids: seq<nat>)
    requires ids != [] && ids[0] > 0
    ensures forall r :: r in Records(0, ids) ==> ids[0] <= r <= MaxOf(0, ids) && r in ids
    ensures |AsSet(Records(0, ids))| == |Records(0, ids)|
    ensures ids[0] <= MaxOf(0, ids)
  {
    var k := |ids| - 1;
    var last := ids[k];
    if k == 0 {
      assert ids == [last];
      One(0, last);
      assert AsSet([last]) == {last};
    } else {
      var before, m := Records(0, ids[..k]), MaxOf(0, ids[..k]);
      assert Records(0, ids) == before + (if last > m then [last] else [])
        && MaxOf(0, ids) == if last > m then last else m;
      hide MaxOf, Records;
      assert ids[..k][0] == ids[0];
      RecordSet(ids[..k]);
      if last > m {
        assert last !in before;
        assert AsSet(before + [last]) == AsSet(before) + {last};
      } else {
        assert before + [] == before;
      }
    }
  }

  /** Over any run in the window: the next id expected is one past the largest seen; what
      lies between it and the first id was either a new maximum on arrival or counted lost;
      the lost are the ids that never came together with those that only came late; they come on top
      of what was lost before, as in an earlier negotiation; and the count is what the next packet
      tells the peer. */
  lemma {:induction false} LossMeaning(s0: Sess, es: seq<Event>)
    requires s0.nextRxId == 0 && Windowed(s0, es)
    requires Run(s0, es).got != []
    ensures var t := Run(s0, es);
      var ids := GotIds(t.got);
      && t.s.nextRxId == MaxOf(0, ids) + 1
      && t.s.nextRxId - ids[0] == |Records(0, ids)| + (t.s.numLost - s0.numLost)
      && t.s.numLost - s0.numLost == |Never(ids)| + |OnlyLate(ids)|
      && PrepareTx(t.s).tx.numLost == t.s.numLost
  {
    RunAccounted(s0, es);
    var ids := GotIds(Run(s0, es).got);
    hide MaxOf, Records, Run, Never, OnlyLate, Windowed;
    RangeSplit(ids);
  }

  lemma RangeSplit(ids: seq<nat>)
    requires ids != [] && ids[0] > 0
    ensures MaxOf(0, ids) + 1 - ids[0] == |Records(0, ids)| + |Never(ids)| + |OnlyLate(ids)|
  {
    hide MaxOf, Records, Never, OnlyLate, AsSet, Range;
    RecordSet(ids);
    RangeSize(ids[0], MaxOf(0, ids) + 1);
    Partition(ids);
    assert |AsSet(Records(0, ids)) + (Never(ids) + OnlyLate(ids))|
      == |AsSet(Records(0, ids))| + |Never(ids) + OnlyLate(ids)|;
    assert |Never(ids) + OnlyLate(ids)| == |Never(ids)| + |OnlyLate(ids)|;
  }

  lemma Partition(ids: seq<nat>)
    requires ids != [] && ids[0] > 0
    ensures Range(ids[0], MaxOf(0, ids) + 1) == AsSet(Records(0, ids)) + (Never(ids) + OnlyLate(ids))
    ensures AsSet(Records(0, ids)) !! Never(ids) + OnlyLate(ids) && Never(ids) !! OnlyLate(ids)
  {
    hide MaxOf, Records;
    RecordSet(ids);
    forall i: nat
      ensures i in Range(ids[0], MaxOf(0, ids) + 1) <==> i in AsSet(Records(0, ids)) + (Never(ids) + OnlyLate(ids))
    {
      assert Between(ids[0], i, MaxOf(0, ids) + 1) <==> ids[0] <= i <= MaxOf(0, ids);
    }
  }
}
