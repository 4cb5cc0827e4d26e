/** The UDP packet (isoping.h): a header followed by a union of the handshake
    fields and the ring of 64 acks, kept here as the 128 words they share. */
module Wire {
  import opened Words

  datatype PacketType = Ack | Handshake

  datatype Header = Header(
    id: uint32, txtime: uint32, clockdiff: uint32, usecPerPkt: uint32,
    numLost: uint32, kind: PacketType, firstAck: uint8)

  type Payload = d: seq<uint32> | |d| == 128 witness seq(128, _ => 0)

  datatype Packet = Packet(h: Header, data: Payload)

  function ZeroPayload(): (r: Payload)
    ensures forall i :: 0 <= i < 128 ==> r[i] == 0
  {
    seq(128, _ => 0)
  }
  const ZERO_HEADER := Header(0, 0, 0, 0, 0, Ack, 0)

  // ---- the acks view: slot i is words 2i and 2i+1 ----

  datatype AckSlot = AckSlot(id: uint32, rxtime: uint32)

  const EMPTY := AckSlot(0, 0)

  type RingIndex = i: int | 0 <= i < 64

  function Slot(data: Payload, i: RingIndex): AckSlot
  {
    AckSlot(data[2 * i], data[2 * i + 1])
  }

  function WithSlot(data: Payload, i: RingIndex, a: AckSlot): Payload
  {
    data[2 * i := a.id][2 * i + 1 := a.rxtime]
  }

  /** All 64 slots in the order the receiver visits them. */
  function RingRead(data: Payload, first: nat): (r: seq<AckSlot>)
    ensures |r| == 64
  {
    seq(64, i requires 0 <= i < 64 => Slot(data, (first + i) % 64))
  }

  lemma RingReadAt(data: Payload, first: nat, i: RingIndex)
    ensures RingRead(data, first)[i] == Slot(data, (first + i) % 64)
  {
  }

  // ---- the handshake view: version, epoch, then eight words of cookie ----

  type Cookie = c: seq<uint32> | |c| == 8 witness seq(8, _ => 0)

  function EpochOf(data: Payload): uint32 { data[1] }

  function CookieOf(data: Payload): Cookie { data[2..10] }

  function WithCookie(data: Payload, epoch: uint32, c: Cookie): (r: Payload)
    ensures EpochOf(r) == epoch && CookieOf(r) == c
    ensures r[0] == data[0] && r[10..] == data[10..]
  {
    [data[0], epoch] + c + data[10..]
  }

  // ---- what a ring is supposed to hold ----

  /** The last 64 receipts, oldest first, padded in front with empty slots. */
  function LastReceipts(receipts: seq<AckSlot>): (r: seq<AckSlot>)
    ensures |r| == 64
  {
    seq(64, i requires 0 <= i < 64 =>
      if |receipts| + i < 64 then EMPTY else receipts[|receipts| + i - 64])
  }

  lemma ClearedRing(first: nat)
    ensures RingRead(ZeroPayload(), first) == LastReceipts([])
  {
    forall i | 0 <= i < 64
      ensures RingRead(ZeroPayload(), first)[i] == LastReceipts([])[i]
    {
      var k := (first + i) % 64;
      assert Slot(ZeroPayload(), k) == EMPTY;
    }
  }

  /** Filing one more receipt and moving the index on keeps the ring honest,
      from whatever index it started. */
  lemma {:induction false} WriteRing(data: Payload, next: RingIndex, receipts: seq<AckSlot>, a: AckSlot)
    requires RingRead(data, next) == LastReceipts(receipts)
    ensures RingRead(WithSlot(data, next, a), (next + 1) % 64) == LastReceipts(receipts + [a])
  {
    var data' := WithSlot(data, next, a);
    var next' := (next + 1) % 64;
    var after := receipts + [a];
    forall i | 0 <= i < 64
      ensures RingRead(data', next')[i] == LastReceipts(after)[i]
    {
      var k := (next' + i) % 64;
      if i < 63 {
        assert k == (next + (i + 1)) % 64 != next;
        assert Slot(data', k) == Slot(data, k) == RingRead(data, next)[i + 1];
        assert RingRead(data, next)[i + 1] == LastReceipts(receipts)[i + 1];
        assert LastReceipts(receipts)[i + 1] == LastReceipts(after)[i];
      } else {
        assert k == next;
        assert Slot(data', k) == a == after[|receipts|];
      }
    }
  }
}
